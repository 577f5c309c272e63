/**
 * The deployment generator's reading of a Terraform variables file into the
 * simulation configuration that is rendered into the Kubernetes manifest
 * (`getSimConfig` in deploy/cloud/gen.go). The file's parsing is an input:
 * either a load error or a map from variable names to dynamically typed
 * values. Each Go type assertion `tfvars[k].(T)` becomes a check that panics
 * when the key is missing (the nil interface) or holds another type.
 */
module Gen {
  import opened Results
  import opened Format

  const LibriExpVersionVar := "libri_exp_version"
  const DurationVar := "duration"
  const NumAuthorsVar := "num_authors"
  const DocsPerDayVar := "docs_per_day"
  const ContentSizeKBGammaShapeVar := "content_size_kb_gamma_shape"
  const ContentSizeKBGammaRateVar := "content_size_kb_gamma_rate"
  const SharesPerUploadVar := "shares_per_upload"
  const NumLibrariansVar := "num_librarians"
  const LibrarianLocalPortVar := "librarian_local_port"
  const NumUploadersVar := "num_uploaders"
  const NumDownloadersVar := "num_downloaders"

  /** Go's `int` on a 64-bit platform. */
  type Int64 = x: int | -0x8000_0000_0000_0000 <= x < 0x8000_0000_0000_0000

  /** Go's `uint` on a 64-bit platform. */
  type Uint = x: int | 0 <= x < 0x1_0000_0000_0000_0000

  /** A parsed variable: the dynamic type behind Go's `interface{}`. */
  datatype TfValue = TfInt(i: Int64) | TfFloat(f: real) | TfString(s: string) | TfOther

  datatype Kind = IntKind | FloatKind | StringKind

  /** The simulation parameters handed to the manifest template. */
  datatype SimConfig = SimConfig(
    libriExpVersion: string,
    librarians: string,
    duration: string,
    numAuthors: Uint,
    docsPerDay: Uint,
    contentSizeKBGammaShape: real,
    contentSizeKBGammaRate: real,
    sharesPerUpload: Uint,
    numUploaders: Uint,
    numDownloaders: Uint)

  /** The error the variables-file parser returned. */
  datatype LoadError = LoadError(message: string)

  datatype GenPanic =
    | TypeAssertion(key: string)  // `tfvars[key].(T)` on a missing key or a value of another type
    | NegativeLength(length: int) // `make([]string, n)` with `n < 0`

  datatype GenFailure = Returned(err: LoadError) | Panicked(cause: GenPanic)

  /** Go's conversion `uint(x)` of an `int`: the value modulo 2^64. */
  function ToUint(x: Int64): (u: Uint)
    ensures (u - x) % 0x1_0000_0000_0000_0000 == 0
  {
    if x >= 0 then x else x + 0x1_0000_0000_0000_0000
  }

  predicate HasKind(vars: map<string, TfValue>, key: string, kind: Kind) {
    key in vars &&
    match kind
    case IntKind => vars[key].TfInt?
    case FloatKind => vars[key].TfFloat?
    case StringKind => vars[key].TfString?
  }

  /** The checks `getSimConfig` performs, each of which may panic. */
  datatype Step = Assert(key: string, kind: Kind) | MakeAddrs

  /**
   * The panicking checks in the order they run: the number of librarians,
   * the address slice's allocation and the port are separate statements; the
   * struct literal's type assertions are taken in the gc compiler's
   * left-to-right order, which the Go specification leaves open.
   */
  const EvaluationOrder: seq<Step> := [
    Assert(NumLibrariansVar, IntKind),
    MakeAddrs,
    Assert(LibrarianLocalPortVar, IntKind),
    Assert(LibriExpVersionVar, StringKind),
    Assert(DurationVar, StringKind),
    Assert(NumAuthorsVar, IntKind),
    Assert(DocsPerDayVar, IntKind),
    Assert(ContentSizeKBGammaShapeVar, FloatKind),
    Assert(ContentSizeKBGammaRateVar, FloatKind),
    Assert(SharesPerUploadVar, IntKind),
    Assert(NumUploadersVar, IntKind),
    Assert(NumDownloadersVar, IntKind)
  ]

  predicate Passes(vars: map<string, TfValue>, step: Step) {
    match step
    case Assert(key, kind) => HasKind(vars, key, kind)
    case MakeAddrs => !(HasKind(vars, NumLibrariansVar, IntKind) && vars[NumLibrariansVar].i < 0)
  }

  function PanicOf(vars: map<string, TfValue>, step: Step): GenPanic
    requires !Passes(vars, step)
  {
    match step
    case Assert(key, _) => TypeAssertion(key)
    case MakeAddrs => NegativeLength(vars[NumLibrariansVar].i)
  }

  /** The panic of the first check from `k` on that fails, if any. */
  function FirstFailure(vars: map<string, TfValue>, steps: seq<Step>, k: nat): Option<GenPanic>
    requires k <= |steps|
    decreases |steps| - k
  {
    if k == |steps| then None
    else if !Passes(vars, steps[k]) then Some(PanicOf(vars, steps[k]))
    else FirstFailure(vars, steps, k + 1)
  }

  lemma {:induction false} FirstFailureNone(vars: map<string, TfValue>, steps: seq<Step>, k: nat)
    requires k <= |steps|
    ensures FirstFailure(vars, steps, k).None? <==> forall j :: k <= j < |steps| ==> Passes(vars, steps[j])
    decreases |steps| - k
  {
    if k < |steps| {
      FirstFailureNone(vars, steps, k + 1);
    }
  }

  /** A failure is the panic of a failing check that every earlier check passed. */
  lemma {:induction false} FirstFailureIsFirst(vars: map<string, TfValue>, steps: seq<Step>, k: nat)
    returns (j: nat)
    requires k <= |steps| && FirstFailure(vars, steps, k).Some?
    ensures k <= j < |steps| && !Passes(vars, steps[j])
    ensures forall i :: k <= i < j ==> Passes(vars, steps[i])
    ensures FirstFailure(vars, steps, k) == Some(PanicOf(vars, steps[j]))
    decreases |steps| - k
  {
    if !Passes(vars, steps[k]) {
      j := k;
    } else {
      j := FirstFailureIsFirst(vars, steps, k + 1);
    }
  }

  /** Every check passes: every variable is present with its type and the librarian count is not negative. */
  predicate Loadable(vars: map<string, TfValue>) {
    FirstFailure(vars, EvaluationOrder, 0).None?
  }

  /** Every key is present with the type asserted on it, and the librarian count is not negative. */
  predicate WellTyped(vars: map<string, TfValue>) {
    && HasKind(vars, NumLibrariansVar, IntKind) && vars[NumLibrariansVar].i >= 0
    && HasKind(vars, LibrarianLocalPortVar, IntKind)
    && HasKind(vars, LibriExpVersionVar, StringKind) && HasKind(vars, DurationVar, StringKind)
    && HasKind(vars, NumAuthorsVar, IntKind) && HasKind(vars, DocsPerDayVar, IntKind)
    && HasKind(vars, ContentSizeKBGammaShapeVar, FloatKind)
    && HasKind(vars, ContentSizeKBGammaRateVar, FloatKind)
    && HasKind(vars, SharesPerUploadVar, IntKind)
    && HasKind(vars, NumUploadersVar, IntKind) && HasKind(vars, NumDownloadersVar, IntKind)
  }

  lemma LoadableIsWellTyped(vars: map<string, TfValue>)
    requires Loadable(vars)
    ensures WellTyped(vars)
  {
    FirstFailureNone(vars, EvaluationOrder, 0);
    assert Passes(vars, EvaluationOrder[0]) && Passes(vars, EvaluationOrder[1]);
    assert Passes(vars, EvaluationOrder[2]) && Passes(vars, EvaluationOrder[3]);
    assert Passes(vars, EvaluationOrder[4]) && Passes(vars, EvaluationOrder[5]);
    assert Passes(vars, EvaluationOrder[6]) && Passes(vars, EvaluationOrder[7]);
    assert Passes(vars, EvaluationOrder[8]) && Passes(vars, EvaluationOrder[9]);
    assert Passes(vars, EvaluationOrder[10]) && Passes(vars, EvaluationOrder[11]);
  }

  /** No check fails exactly when every variable is present and well typed and the count is not negative. */
  lemma LoadableIffWellTyped(vars: map<string, TfValue>)
    ensures Loadable(vars) <==> WellTyped(vars)
  {
    if Loadable(vars) {
      LoadableIsWellTyped(vars);
    }
    if WellTyped(vars) {
      forall j | 0 <= j < |EvaluationOrder| ensures Passes(vars, EvaluationOrder[j]) {
      }
      FirstFailureNone(vars, EvaluationOrder, 0);
    }
  }

  /** The number of librarians in variables that pass every check. */
  function NumLibrarians(vars: map<string, TfValue>): nat
    requires Loadable(vars)
  {
    LoadableIsWellTyped(vars);
    vars[NumLibrariansVar].i
  }

  /** The librarians' local port in variables that pass every check. */
  function LocalPort(vars: map<string, TfValue>): Int64
    requires Loadable(vars)
  {
    LoadableIsWellTyped(vars);
    vars[LibrarianLocalPortVar].i
  }

  /** The address of the `i`-th librarian in the cluster, `librarians-<i>....:<port>`. */
  function LibrarianAddr(i: nat, port: int): string {
    "librarians-" + (NatToString(i) + (".libri.default.svc.cluster.local:" + IntToString(port)))
  }

  /**
   * The address slice of `n` librarians, in index order: the addresses are
   * pairwise distinct and none holds the comma they are joined with.
   */
  function LibrarianAddrList(n: nat, port: int): (addrs: seq<string>)
    ensures |addrs| == n && forall i :: 0 <= i < n ==> addrs[i] == LibrarianAddr(i, port)
    ensures forall a, b :: 0 <= a < b < n ==> addrs[a] != addrs[b]
    ensures forall k :: 0 <= k < n ==> ',' !in addrs[k]
  {
    LibrarianAddrsDistinct(n, port);
    seq(n, i requires 0 <= i => LibrarianAddr(i, port))
  }

  lemma LibrarianAddrsDistinct(n: nat, port: int)
    ensures forall a, b :: 0 <= a < b < n ==> LibrarianAddr(a, port) != LibrarianAddr(b, port)
    ensures forall k :: 0 <= k < n ==> ',' !in LibrarianAddr(k, port)
  {
    forall a, b | 0 <= a < b < n ensures LibrarianAddr(a, port) != LibrarianAddr(b, port) {
      LibrarianAddrInjective(a, b, port);
    }
    forall k | 0 <= k < n ensures ',' !in LibrarianAddr(k, port) {
      LibrarianAddrHasNoComma(k, port);
    }
  }

  /** The configuration `getSimConfig` builds from variables that pass every check. */
  function ConfigOf(vars: map<string, TfValue>): SimConfig
    requires Loadable(vars)
  {
    LoadableIsWellTyped(vars);
    SimConfig(
      vars[LibriExpVersionVar].s,
      Join(LibrarianAddrList(NumLibrarians(vars), LocalPort(vars)), ','),
      vars[DurationVar].s,
      ToUint(vars[NumAuthorsVar].i),
      ToUint(vars[DocsPerDayVar].i),
      vars[ContentSizeKBGammaShapeVar].f,
      vars[ContentSizeKBGammaRateVar].f,
      ToUint(vars[SharesPerUploadVar].i),
      ToUint(vars[NumUploadersVar].i),
      ToUint(vars[NumDownloadersVar].i))
  }

  /** Fills the librarian address slice, one index at a time. */
  method LibrarianAddrs(n: nat, port: int) returns (addrs: seq<string>)
    ensures addrs == LibrarianAddrList(n, port)
  {
    var slice := new string[n];
    for i := 0 to n
      invariant forall k :: 0 <= k < i ==> slice[k] == LibrarianAddr(k, port)
    {
      slice[i] := LibrarianAddr(i, port);
    }
    addrs := slice[..];
  }

  /** The fields of `ConfigOf`, once the librarian addresses are joined. */
  lemma ConfigOfFields(vars: map<string, TfValue>, librarians: string)
    requires FirstFailure(vars, EvaluationOrder, 0) == FirstFailure(vars, EvaluationOrder, 12)
    requires WellTyped(vars)
    requires librarians == Join(LibrarianAddrList(vars[NumLibrariansVar].i, vars[LibrarianLocalPortVar].i), ',')
    ensures Loadable(vars)
    ensures ConfigOf(vars) == SimConfig(
      vars[LibriExpVersionVar].s,
      librarians,
      vars[DurationVar].s,
      ToUint(vars[NumAuthorsVar].i),
      ToUint(vars[DocsPerDayVar].i),
      vars[ContentSizeKBGammaShapeVar].f,
      vars[ContentSizeKBGammaRateVar].f,
      ToUint(vars[SharesPerUploadVar].i),
      ToUint(vars[NumUploadersVar].i),
      ToUint(vars[NumDownloadersVar].i))
  {
  }

  /** One step of the scan: a passing check defers to the next, a failing one is the failure. */
  lemma Check(vars: map<string, TfValue>, k: nat)
    requires k < |EvaluationOrder|
    requires FirstFailure(vars, EvaluationOrder, 0) == FirstFailure(vars, EvaluationOrder, k)
    ensures Passes(vars, EvaluationOrder[k]) ==>
      FirstFailure(vars, EvaluationOrder, 0) == FirstFailure(vars, EvaluationOrder, k + 1)
    ensures !Passes(vars, EvaluationOrder[k]) ==>
      Expected(Ok(vars)) == Err(Panicked(PanicOf(vars, EvaluationOrder[k])))
  {
  }

  function Expected(loaded: Result<map<string, TfValue>, LoadError>): Result<SimConfig, GenFailure> {
    if loaded.Err? then Err(Returned(loaded.error))
    else if Loadable(loaded.value) then Ok(ConfigOf(loaded.value))
    else Err(Panicked(FirstFailure(loaded.value, EvaluationOrder, 0).value))
  }

  /**
   * Reads the configuration: the parser's error is returned as is, a failed
   * check panics with the first failure in evaluation order, and otherwise
   * the fields are copied from the variables.
   */
  method GetSimConfig(loaded: Result<map<string, TfValue>, LoadError>) returns (r: Result<SimConfig, GenFailure>)
    ensures r == Expected(loaded)
  {
    if loaded.Err? {
      return Err(Returned(loaded.error));
    }
    var vars := loaded.value;

    Check(vars, 0);
    if !HasKind(vars, NumLibrariansVar, IntKind) {
      return Err(Panicked(TypeAssertion(NumLibrariansVar)));
    }
    var numLibrarians := vars[NumLibrariansVar].i;
    Check(vars, 1);
    if numLibrarians < 0 {
      return Err(Panicked(NegativeLength(numLibrarians)));
    }
    Check(vars, 2);
    if !HasKind(vars, LibrarianLocalPortVar, IntKind) {
      return Err(Panicked(TypeAssertion(LibrarianLocalPortVar)));
    }
    var port := vars[LibrarianLocalPortVar].i;
    var addrs := LibrarianAddrs(numLibrarians, port);
    r := ReadFields(vars, addrs);
  }

  /**
   * The struct literal: its fields' checks in order, the first failing one
   * panicking, once the librarian count and port have passed theirs and the
   * address slice is filled.
   */
  method ReadFields(vars: map<string, TfValue>, addrs: seq<string>) returns (r: Result<SimConfig, GenFailure>)
    requires FirstFailure(vars, EvaluationOrder, 0) == FirstFailure(vars, EvaluationOrder, 3)
    requires HasKind(vars, NumLibrariansVar, IntKind) && vars[NumLibrariansVar].i >= 0
    requires HasKind(vars, LibrarianLocalPortVar, IntKind)
    requires addrs == LibrarianAddrList(vars[NumLibrariansVar].i, vars[LibrarianLocalPortVar].i)
    ensures r == Expected(Ok(vars))
  {
    Check(vars, 3);
    if !HasKind(vars, LibriExpVersionVar, StringKind) {
      return Err(Panicked(TypeAssertion(LibriExpVersionVar)));
    }
    var version := vars[LibriExpVersionVar].s;
    var librarians := Join(addrs, ',');
    Check(vars, 4);
    if !HasKind(vars, DurationVar, StringKind) {
      return Err(Panicked(TypeAssertion(DurationVar)));
    }
    var duration := vars[DurationVar].s;
    Check(vars, 5);
    if !HasKind(vars, NumAuthorsVar, IntKind) {
      return Err(Panicked(TypeAssertion(NumAuthorsVar)));
    }
    var numAuthors := ToUint(vars[NumAuthorsVar].i);
    Check(vars, 6);
    if !HasKind(vars, DocsPerDayVar, IntKind) {
      return Err(Panicked(TypeAssertion(DocsPerDayVar)));
    }
    var docsPerDay := ToUint(vars[DocsPerDayVar].i);
    Check(vars, 7);
    if !HasKind(vars, ContentSizeKBGammaShapeVar, FloatKind) {
      return Err(Panicked(TypeAssertion(ContentSizeKBGammaShapeVar)));
    }
    var shape := vars[ContentSizeKBGammaShapeVar].f;
    Check(vars, 8);
    if !HasKind(vars, ContentSizeKBGammaRateVar, FloatKind) {
      return Err(Panicked(TypeAssertion(ContentSizeKBGammaRateVar)));
    }
    var rate := vars[ContentSizeKBGammaRateVar].f;
    Check(vars, 9);
    if !HasKind(vars, SharesPerUploadVar, IntKind) {
      return Err(Panicked(TypeAssertion(SharesPerUploadVar)));
    }
    var sharesPerUpload := ToUint(vars[SharesPerUploadVar].i);
    Check(vars, 10);
    if !HasKind(vars, NumUploadersVar, IntKind) {
      return Err(Panicked(TypeAssertion(NumUploadersVar)));
    }
    var numUploaders := ToUint(vars[NumUploadersVar].i);
    Check(vars, 11);
    if !HasKind(vars, NumDownloadersVar, IntKind) {
      return Err(Panicked(TypeAssertion(NumDownloadersVar)));
    }
    var numDownloaders := ToUint(vars[NumDownloadersVar].i);
    ConfigOfFields(vars, librarians);

    var config := SimConfig(version, librarians, duration, numAuthors, docsPerDay, shape, rate,
                            sharesPerUpload, numUploaders, numDownloaders);
    r := Ok(config);
  }

  // Properties of the configuration.

  /**
   * The outcome of reading a parsed file: the parser's error is passed on,
   * and a configuration comes back exactly when the variables are well typed;
   * otherwise the panic names the first check, in evaluation order, that fails.
   */
  lemma ExpectedOutcome(loaded: Result<map<string, TfValue>, LoadError>) returns (j: nat)
    requires loaded.Ok? ==> !WellTyped(loaded.value)
    ensures loaded.Err? ==> Expected(loaded) == Err(Returned(loaded.error))
    ensures loaded.Ok? ==> j < |EvaluationOrder| && !Passes(loaded.value, EvaluationOrder[j])
    ensures loaded.Ok? ==> forall i :: 0 <= i < j ==> Passes(loaded.value, EvaluationOrder[i])
    ensures loaded.Ok? ==> Expected(loaded) == Err(Panicked(PanicOf(loaded.value, EvaluationOrder[j])))
  {
    j := 0;
    if loaded.Ok? {
      LoadableIffWellTyped(loaded.value);
      j := FirstFailureIsFirst(loaded.value, EvaluationOrder, 0);
    }
  }

  /** Well-typed variables always give a configuration. */
  lemma WellTypedLoads(vars: map<string, TfValue>)
    requires WellTyped(vars)
    ensures Expected(Ok(vars)).Ok?
  {
    LoadableIffWellTyped(vars);
  }

  lemma LibrarianAddrHasNoComma(i: nat, port: int)
    ensures ',' !in LibrarianAddr(i, port)
  {
    var n := NatToString(i);
    var p := IntToString(port);
    assert ',' !in n by {
      forall k | 0 <= k < |n| ensures n[k] != ',' {
        assert IsDigit(n[k]);
      }
    }
    assert ',' !in p by {
      forall k | 0 <= k < |p| ensures p[k] != ',' {
        assert k == 0 || IsDigit(p[k]);
      }
    }
  }

  /** Distinct librarian indices give distinct addresses. */
  lemma LibrarianAddrInjective(i: nat, j: nat, port: int)
    ensures LibrarianAddr(i, port) == LibrarianAddr(j, port) ==> i == j
  {
    var rest := ".libri.default.svc.cluster.local:" + IntToString(port);
    if LibrarianAddr(i, port) == LibrarianAddr(j, port) {
      PrefixCancel("librarians-", NatToString(i) + rest, NatToString(j) + rest);
      NumeralPrefixUnique(NatToString(i), rest, NatToString(j), rest);
      NatToStringInjective(i, j);
    }
  }

  /**
   * The `Librarians` field lists one address per librarian: splitting it on
   * commas gives the addresses back, in index order, all distinct. With no
   * librarians it is empty.
   */
  lemma LibrariansField(vars: map<string, TfValue>)
    requires Loadable(vars)
    ensures var n := NumLibrarians(vars);
      var addrs := LibrarianAddrList(n, LocalPort(vars));
      && (n == 0 ==> ConfigOf(vars).librarians == "")
      && (n >= 1 ==> Split(ConfigOf(vars).librarians, ',') == addrs)
      && (forall a, b :: 0 <= a < b < n ==> addrs[a] != addrs[b])
  {
    var n := NumLibrarians(vars);
    var port := LocalPort(vars);
    var addrs := LibrarianAddrList(n, port);
    if n >= 1 {
      SplitJoin(addrs, ',');
    }
  }
}
