/**
 * The author directory and the samplers of pkg/sim/samplers.go.
 *
 * Randomness is an input: a draw from `rng` is a `nat` argument, and the
 * random source read by the content sampler is the function `read`, whose
 * argument is the attempt number.
 */
module Samplers {
  import opened Results
  import opened SimTypes

  /** Number of goroutines that build the directory's authors. */
  const NDirectoryWorkers := 8

  /** Number of keys each new keychain is created with (`nInitialKeys`). */
  const NInitialKeys := 8

  /** Number of reads the content sampler tries before it gives up. */
  const MaxContentReads := 3

  /** Go's `int32(n)`: two's-complement truncation to 32 bits. */
  function Int32(n: nat): (r: int)
    ensures -0x8000_0000 <= r < 0x8000_0000
    ensures 0 < r ==> r <= n
    ensures n < 0x8000_0000 ==> r == n
    ensures (r - n) % 0x1_0000_0000 == 0
  {
    var low := n % 0x1_0000_0000;
    if low < 0x8000_0000 then low else low - 0x1_0000_0000
  }

  // ---------------------------------------------------------------- directory

  /**
   * What one `sample` call draws: `rng.Int31n(int32(len(authors)))` picks the
   * index (the draw `draw` reduced into range), then the keychain at that
   * index samples a key (the draw `keyDraw` reduced into range).
   */
  function Pick(authors: seq<Author>, keys: seq<Keychain>, draw: nat, keyDraw: nat): (r: Result<(Author, PublicKey), Panic>)
    requires |authors| == |keys|
    ensures r.Ok? ==> exists i :: 0 <= i < |authors| && r.value.0 == authors[i] && r.value.1 in keys[i].keys
    ensures |authors| == 0 ==> r == Err(NonPositiveBound)
    ensures 0 < |authors| < 0x8000_0000 && (forall i :: 0 <= i < |keys| ==> keys[i].keys != []) ==> r.Ok?
  {
    var bound := Int32(|authors|);
    if bound <= 0 then Err(NonPositiveBound)
    else
      var i := draw % bound;
      var chain := keys[i].keys;
      if chain == [] then Err(EmptyKeychain)
      else Ok((authors[i], chain[keyDraw % |chain|]))
  }

  /** The successive picks of a run of `sample` calls, or the first panic among them. */
  function Picks(authors: seq<Author>, keys: seq<Keychain>, draws: seq<(nat, nat)>): (r: Result<seq<(Author, PublicKey)>, Panic>)
    requires |authors| == |keys|
    ensures r.Ok? ==> |r.value| == |draws|
  {
    if draws == [] then Ok([])
    else
      var last := draws[|draws| - 1];
      match Picks(authors, keys, draws[..|draws| - 1])
      case Err(e) => Err(e)
      case Ok(earlier) =>
        match Pick(authors, keys, last.0, last.1)
        case Err(e) => Err(e)
        case Ok(p) => Ok(earlier + [p])
  }

  /** A run of `sample` calls succeeds exactly when each of its picks does, and yields those picks in order. */
  lemma {:induction false} PicksAreEachPick(authors: seq<Author>, keys: seq<Keychain>, draws: seq<(nat, nat)>)
    requires |authors| == |keys|
    ensures Picks(authors, keys, draws).Ok? <==> forall i :: 0 <= i < |draws| ==> Pick(authors, keys, draws[i].0, draws[i].1).Ok?
    ensures Picks(authors, keys, draws).Ok? ==>
      forall i :: 0 <= i < |draws| ==> Pick(authors, keys, draws[i].0, draws[i].1) == Ok(Picks(authors, keys, draws).value[i])
  {
    if draws != [] {
      var earlier := draws[..|draws| - 1];
      PicksAreEachPick(authors, keys, earlier);
      assert forall i :: 0 <= i < |earlier| ==> earlier[i] == draws[i];
    }
  }

  /** The reverse map `authorPubs` after recording `records` in order into an empty map. */
  function Replay(records: seq<(string, Author)>): map<string, Author>
  {
    if records == [] then map[]
    else
      var last := records[|records| - 1];
      Replay(records[..|records| - 1])[last.0 := last.1]
  }

  /** The author most recently recorded under `hex`, if any. */
  function LastRecorded(records: seq<(string, Author)>, hex: string): Option<Author>
  {
    if records == [] then None
    else if records[|records| - 1].0 == hex then Some(records[|records| - 1].1)
    else LastRecorded(records[..|records| - 1], hex)
  }

  /** Looking a key hex up in the replayed map finds the latest record for it. */
  lemma {:induction false} ReplayFindsLastRecorded(records: seq<(string, Author)>, hex: string)
    ensures hex in Replay(records) <==> LastRecorded(records, hex).Some?
    ensures hex in Replay(records) ==> LastRecorded(records, hex) == Some(Replay(records)[hex])
  {
    if records != [] {
      ReplayFindsLastRecorded(records[..|records| - 1], hex);
    }
  }

  /** The record at index `i` is what a lookup finds, as long as no later record reuses its key hex. */
  lemma {:induction false} LastRecordedIsLatest(records: seq<(string, Author)>, i: nat)
    requires i < |records|
    requires forall j :: i < j < |records| ==> records[j].0 != records[i].0
    ensures LastRecorded(records, records[i].0) == Some(records[i].1)
  {
    if i < |records| - 1 {
      LastRecordedIsLatest(records[..|records| - 1], i);
    }
  }

  /** A key hex that was never recorded is not found. */
  lemma {:induction false} NeverRecordedIsAbsent(records: seq<(string, Author)>, hex: string)
    ensures (forall j :: 0 <= j < |records| ==> records[j].0 != hex) <==> LastRecorded(records, hex) == None
  {
    if records != [] {
      NeverRecordedIsAbsent(records[..|records| - 1], hex);
    }
  }

  /** Every recorded key hex is in the replayed map. */
  lemma RecordedIsInReplay(records: seq<(string, Author)>, j: nat)
    requires j < |records|
    ensures records[j].0 in Replay(records)
  {
    NeverRecordedIsAbsent(records, records[j].0);
    ReplayFindsLastRecorded(records, records[j].0);
  }

  /** Recording more entries never removes a key hex from the map. */
  lemma ReplayKeysGrow(earlier: seq<(string, Author)>, later: seq<(string, Author)>)
    ensures Replay(earlier).Keys <= Replay(earlier + later).Keys
  {
    forall hex | hex in Replay(earlier) ensures hex in Replay(earlier + later) {
      ReplayFindsLastRecorded(earlier, hex);
      NeverRecordedIsAbsent(earlier, hex);
      var j :| 0 <= j < |earlier| && earlier[j].0 == hex;
      assert (earlier + later)[j] == earlier[j];
      RecordedIsInReplay(earlier + later, j);
    }
  }

  /** Whether index `j` is initialised once workers below `d` have finished and worker `d` has reached `i`. */
  predicate StrideDone(j: nat, d: nat, i: nat) {
    j % NDirectoryWorkers < d || (j % NDirectoryWorkers == d && j < i)
  }

  /** Worker `d` advancing from index `i` to the next in its stride initialises just `i`. */
  lemma StrideStep(d: nat, i: nat)
    requires i % NDirectoryWorkers == d
    ensures forall j: nat :: StrideDone(j, d, i + NDirectoryWorkers) <==> StrideDone(j, d, i) || j == i
  {
    forall j: nat ensures StrideDone(j, d, i + NDirectoryWorkers) <==> StrideDone(j, d, i) || j == i {
      if j % NDirectoryWorkers == d && i <= j < i + NDirectoryWorkers {
        var q, p := j / NDirectoryWorkers, i / NDirectoryWorkers;
        assert j == NDirectoryWorkers * q + d && i == NDirectoryWorkers * p + d;
      }
    }
  }

  /**
   * newDirectory's author construction: worker `d` of the eight initialises
   * indices d, d+8, d+16, ...; the workers run one after another here, which
   * is equivalent since their index sets are disjoint. `inits[i]` counts how
   * often index `i` was initialised.
   */
  method StridedInit(nAuthors: nat, newAuthor: nat -> Author, newKeychain: nat -> Keychain)
    returns (authors: seq<Author>, keys: seq<Keychain>, ghost inits: seq<nat>)
    ensures |authors| == nAuthors && |keys| == nAuthors && |inits| == nAuthors
    ensures forall i :: 0 <= i < nAuthors ==> authors[i] == newAuthor(i) && keys[i] == newKeychain(i)
    ensures forall i :: 0 <= i < nAuthors ==> inits[i] == 1
  {
    var authorArr := new Author[nAuthors];
    var keyArr := new Keychain[nAuthors];
    inits := seq(nAuthors, _ => 0);
    for d := 0 to NDirectoryWorkers
      invariant |inits| == nAuthors
      invariant forall j :: 0 <= j < nAuthors ==> inits[j] == (if StrideDone(j, d, 0) then 1 else 0)
      invariant forall j :: 0 <= j < nAuthors && StrideDone(j, d, 0) ==>
        authorArr[j] == newAuthor(j) && keyArr[j] == newKeychain(j)
    {
      var i := d;
      while i < nAuthors
        invariant d <= i && i % NDirectoryWorkers == d
        invariant |inits| == nAuthors
        invariant forall j :: 0 <= j < nAuthors ==> inits[j] == (if StrideDone(j, d, i) then 1 else 0)
        invariant forall j :: 0 <= j < nAuthors && StrideDone(j, d, i) ==>
          authorArr[j] == newAuthor(j) && keyArr[j] == newKeychain(j)
      {
        keyArr[i] := newKeychain(i);
        authorArr[i] := newAuthor(i);
        inits := inits[i := inits[i] + 1];
        StrideStep(d, i);
        i := i + NDirectoryWorkers;
      }
    }
    authors, keys := authorArr[..], keyArr[..];
  }

  /**
   * The author directory: a fixed population of authors with their
   * keychains, and the reverse map from a public key's hex encoding to the
   * author it was last sampled for. `keyHex` is `pubKeyHex`.
   */
  class Directory {
    const authors: seq<Author>
    const keys: seq<Keychain>
    const keyHex: PublicKey -> string
    var authorPubs: map<string, Author>
    ghost var recorded: seq<(string, Author)>

    ghost predicate Valid()
      reads this
    {
      |authors| == |keys| && authorPubs == Replay(recorded)
    }

    /** Every keychain holds the keys it was created with; it never changes, as `keys` is constant. */
    predicate FullKeychains() {
      forall i :: 0 <= i < |keys| ==> |keys[i].keys| == NInitialKeys
    }

    /**
     * newDirectory: `newAuthor(i)` and `newKeychain(i)` stand for the author
     * and keychain created for index `i`; `keychain.New(nInitialKeys)`
     * always creates eight keys.
     */
    constructor (nAuthors: nat, newAuthor: nat -> Author, newKeychain: nat -> Keychain, keyHex: PublicKey -> string)
      requires forall i: nat :: |newKeychain(i).keys| == NInitialKeys
      ensures Valid() && FullKeychains()
      ensures |authors| == nAuthors
      ensures forall i :: 0 <= i < nAuthors ==> authors[i] == newAuthor(i) && keys[i] == newKeychain(i)
      ensures this.keyHex == keyHex && authorPubs == map[] && recorded == []
    {
      var initialAuthors, initialKeys;
      ghost var inits;
      initialAuthors, initialKeys, inits := StridedInit(nAuthors, newAuthor, newKeychain);
      authors := initialAuthors;
      keys := initialKeys;
      this.keyHex := keyHex;
      authorPubs := map[];
      recorded := [];
    }

    /** sample: draw an author and one of its keys, and record the key's hex as that author's. */
    method Sample(draw: nat, keyDraw: nat) returns (r: Result<(Author, PublicKey), Panic>)
      requires Valid() && FullKeychains()
      modifies this
      ensures Valid()
      ensures r == Pick(authors, keys, draw, keyDraw)
      ensures r.Ok? ==> recorded == old(recorded) + [(keyHex(r.value.1), r.value.0)]
      ensures r.Ok? ==> authorPubs == old(authorPubs)[keyHex(r.value.1) := r.value.0]
      ensures r.Err? ==> recorded == old(recorded) && authorPubs == old(authorPubs)
      ensures r.Ok? ==> LastRecorded(recorded, keyHex(r.value.1)) == Some(r.value.0)
      ensures r.Err? ==> r.error == NonPositiveBound
      ensures 0 < |authors| < 0x8000_0000 ==> r.Ok?
    {
      r := Pick(authors, keys, draw, keyDraw);
      if r.Ok? {
        var (auth, pub) := r.value;
        authorPubs := authorPubs[keyHex(pub) := auth];
        recorded := recorded + [(keyHex(pub), auth)];
        assert recorded[..|recorded| - 1] == old(recorded);
      }
    }

    /** get: the author last recorded for the key's hex, or nil if there is none. */
    method Get(pub: PublicKey) returns (a: Option<Author>)
      requires Valid()
      ensures a == LastRecorded(recorded, keyHex(pub))
      ensures a.None? <==> forall j :: 0 <= j < |recorded| ==> recorded[j].0 != keyHex(pub)
    {
      ReplayFindsLastRecorded(recorded, keyHex(pub));
      NeverRecordedIsAbsent(recorded, keyHex(pub));
      var hex := keyHex(pub);
      a := if hex in authorPubs then Some(authorPubs[hex]) else None;
    }
  }

  // ----------------------------------------------------------------- content

  /** The outcome of one `rng.Read(content)`: an error, or the bytes it wrote. */
  datatype ReadOutcome = ReadError | ReadBytes(data: seq<byte>)

  /** What the content sampler returns once reads before `attempt` have all come up short. */
  function ContentOutcome(size: nat, read: nat -> ReadOutcome, attempt: nat): (r: Result<seq<byte>, Panic>)
    requires attempt <= MaxContentReads
    ensures r.Ok? ==> |r.value| == size
    ensures r.Err? ==> r.error == ReadFailed || r.error == ShortReads(size)
    decreases MaxContentReads - attempt
  {
    if attempt == MaxContentReads then Err(ShortReads(size))
    else
      match read(attempt)
      case ReadError => Err(ReadFailed)
      case ReadBytes(data) =>
        if |data| >= size then Ok(data[..size]) else ContentOutcome(size, read, attempt + 1)
  }

  /** Read number `c` filled the whole buffer, and every read before it returned short without error. */
  predicate FirstFullRead(size: nat, read: nat -> ReadOutcome, c: nat) {
    && c < MaxContentReads
    && read(c).ReadBytes? && |read(c).data| >= size
    && forall k :: 0 <= k < c ==> read(k).ReadBytes? && |read(k).data| < size
  }

  /**
   * The content sampler succeeds exactly when some read among the first
   * three fills the buffer before any read fails, and then returns what that
   * read wrote; it reports short reads exactly when all three came up short.
   */
  lemma {:induction false} ContentOutcomeCharacterised(size: nat, read: nat -> ReadOutcome, attempt: nat)
    requires attempt <= MaxContentReads
    requires forall k :: 0 <= k < attempt ==> read(k).ReadBytes? && |read(k).data| < size
    ensures ContentOutcome(size, read, attempt).Ok? <==> exists c :: attempt <= c && FirstFullRead(size, read, c)
    ensures forall c :: attempt <= c && FirstFullRead(size, read, c) ==>
      ContentOutcome(size, read, attempt) == Ok(read(c).data[..size])
    ensures ContentOutcome(size, read, attempt) == Err(ShortReads(size)) <==>
      forall k :: 0 <= k < MaxContentReads ==> read(k).ReadBytes? && |read(k).data| < size
    decreases MaxContentReads - attempt
  {
    if attempt < MaxContentReads {
      match read(attempt)
      case ReadError =>
      case ReadBytes(data) =>
        if |data| >= size {
          assert FirstFullRead(size, read, attempt);
          forall c | attempt <= c && FirstFullRead(size, read, c) ensures c == attempt {}
        } else {
          ContentOutcomeCharacterised(size, read, attempt + 1);
        }
    }
  }

  /** gammaContentSampler.sample, for a size already drawn from the gamma distribution. */
  method SampleContent(size: nat, read: nat -> ReadOutcome) returns (r: Result<seq<byte>, Panic>)
    ensures r == ContentOutcome(size, read, 0)
  {
    var content := new byte[size];
    for c := 0 to MaxContentReads
      invariant ContentOutcome(size, read, c) == ContentOutcome(size, read, 0)
    {
      match read(c) {
        case ReadError =>
          return Err(ReadFailed);
        case ReadBytes(data) =>
          var n := if |data| < size then |data| else size;
          forall k | 0 <= k < n {
            content[k] := data[k];
          }
          if n == size {
            assert content[..] == data[..size];
            return Ok(content[..]);
          }
      }
    }
    return Err(ShortReads(size));
  }

  // ------------------------------------------------------------ upload event

  /** The key-hex records that a run of successful picks leaves, in order. */
  function PickRecords(picks: seq<(Author, PublicKey)>, keyHex: PublicKey -> string): seq<(string, Author)>
  {
    seq(|picks|, i requires 0 <= i < |picks| => (keyHex(picks[i].1), picks[i].0))
  }

  /** After recording a run of picks, every earlier key hex and every picked key's hex is in the map. */
  lemma PickRecordsResolve(earlier: seq<(string, Author)>, picks: seq<(Author, PublicKey)>, keyHex: PublicKey -> string)
    ensures Replay(earlier).Keys <= Replay(earlier + PickRecords(picks, keyHex)).Keys
    ensures forall k :: 0 <= k < |picks| ==> keyHex(picks[k].1) in Replay(earlier + PickRecords(picks, keyHex))
  {
    var records := earlier + PickRecords(picks, keyHex);
    ReplayKeysGrow(earlier, PickRecords(picks, keyHex));
    forall k | 0 <= k < |picks| ensures keyHex(picks[k].1) in Replay(records) {
      assert records[|earlier| + k] == (keyHex(picks[k].1), picks[k].0);
      RecordedIsInReplay(records, |earlier| + k);
    }
  }

  lemma PicksExtend(authors: seq<Author>, keys: seq<Keychain>, draws: seq<(nat, nat)>, k: nat,
                    earlier: seq<(Author, PublicKey)>, p: (Author, PublicKey))
    requires |authors| == |keys| && k < |draws|
    requires Picks(authors, keys, draws[..k]) == Ok(earlier)
    requires Pick(authors, keys, draws[k].0, draws[k].1) == Ok(p)
    ensures Picks(authors, keys, draws[..k + 1]) == Ok(earlier + [p])
  {
    assert draws[..k + 1][..k] == draws[..k];
  }

  lemma {:induction false} PicksPrefixFails(authors: seq<Author>, keys: seq<Keychain>, draws: seq<(nat, nat)>, k: nat)
    requires |authors| == |keys| && k <= |draws|
    requires Picks(authors, keys, draws[..k]).Err?
    ensures Picks(authors, keys, draws).Err?
    decreases |draws|
  {
    if k < |draws| {
      var shorter := draws[..|draws| - 1];
      assert shorter[..k] == draws[..k];
      PicksPrefixFails(authors, keys, shorter, k);
    } else {
      assert draws[..k] == draws;
    }
  }

  lemma PicksFailsAt(authors: seq<Author>, keys: seq<Keychain>, draws: seq<(nat, nat)>, k: nat)
    requires |authors| == |keys| && k < |draws|
    requires Picks(authors, keys, draws[..k]).Ok?
    requires Pick(authors, keys, draws[k].0, draws[k].1).Err?
    ensures Picks(authors, keys, draws).Err?
  {
    assert draws[..k + 1][..k] == draws[..k];
    PicksPrefixFails(authors, keys, draws, k + 1);
  }

  lemma PickRecordsExtend(picks: seq<(Author, PublicKey)>, p: (Author, PublicKey), keyHex: PublicKey -> string)
    ensures PickRecords(picks + [p], keyHex) == PickRecords(picks, keyHex) + [(keyHex(p.1), p.0)]
  {
  }

  /** Splitting off the first `sample` call of a run. */
  lemma {:induction false} PicksFirst(authors: seq<Author>, keys: seq<Keychain>, draws: seq<(nat, nat)>)
    requires |authors| == |keys| && |draws| >= 1
    ensures Picks(authors, keys, draws).Ok? <==>
      Pick(authors, keys, draws[0].0, draws[0].1).Ok? && Picks(authors, keys, draws[1..]).Ok?
    ensures Picks(authors, keys, draws).Ok? ==>
      Picks(authors, keys, draws).value == [Pick(authors, keys, draws[0].0, draws[0].1).value] + Picks(authors, keys, draws[1..]).value
  {
    if |draws| > 1 {
      var earlier := draws[..|draws| - 1];
      PicksFirst(authors, keys, earlier);
      assert earlier[1..] == draws[1..][..|draws| - 2];
    } else {
      assert draws[..0] == [] && draws[1..] == [];
    }
  }

  /** Recording the sender's pick, then the recipients', records the whole run of picks. */
  lemma SenderThenRecipients(earlier: seq<(string, Author)>, p: (Author, PublicKey), picks: seq<(Author, PublicKey)>,
                             keyHex: PublicKey -> string)
    ensures earlier + [(keyHex(p.1), p.0)] + PickRecords(picks, keyHex) == earlier + PickRecords([p] + picks, keyHex)
  {
    assert PickRecords([p] + picks, keyHex) == [(keyHex(p.1), p.0)] + PickRecords(picks, keyHex);
  }

  /**
   * `ev` is the upload event the draws and the content reads yield: every
   * directory draw and the content sampler succeed, the sender is the first
   * draw's author, the recipients are the later draws' keys in order, and the
   * content is what the content sampler returned.
   */
  ghost predicate IsSampledEvent(ev: UploadEvent, authors: seq<Author>, keys: seq<Keychain>,
                                 draws: seq<(nat, nat)>, size: nat, read: nat -> ReadOutcome)
    requires |authors| == |keys|
  {
    var picks := Picks(authors, keys, draws);
    && |draws| >= 1 && picks.Ok? && ContentOutcome(size, read, 0).Ok?
    && ev.from == picks.value[0].0
    && |ev.shareWith| == |draws| - 1
    && (forall i :: 0 <= i < |ev.shareWith| ==> ev.shareWith[i] == picks.value[i + 1].1)
    && ev.content == ContentOutcome(size, read, 0).value
  }

  /** The loop of uploadEventSamplerImpl.sample: one directory draw per recipient, keeping the key. */
  method SampleRecipients(dir: Directory, draws: seq<(nat, nat)>) returns (r: Result<seq<PublicKey>, Panic>)
    requires dir.Valid() && dir.FullKeychains()
    modifies dir
    ensures dir.Valid()
    ensures old(dir.authorPubs).Keys <= dir.authorPubs.Keys
    ensures old(dir.recorded) <= dir.recorded
    ensures r.Ok? <==> Picks(dir.authors, dir.keys, draws).Ok?
    ensures r.Ok? ==>
      var picks := Picks(dir.authors, dir.keys, draws).value;
      && |r.value| == |draws|
      && (forall i :: 0 <= i < |draws| ==> r.value[i] == picks[i].1)
      && dir.recorded == old(dir.recorded) + PickRecords(picks, dir.keyHex)
    ensures r.Ok? ==> forall i :: 0 <= i < |r.value| ==> dir.keyHex(r.value[i]) in dir.authorPubs
  {
    var shareWith := new PublicKey[|draws|];
    ghost var picks: seq<(Author, PublicKey)> := [];
    for i := 0 to |draws|
      invariant dir.Valid()
      invariant Picks(dir.authors, dir.keys, draws[..i]) == Ok(picks)
      invariant |picks| == i
      invariant forall k :: 0 <= k < i ==> shareWith[k] == picks[k].1
      invariant dir.recorded == old(dir.recorded) + PickRecords(picks, dir.keyHex)
    {
      var recipient := dir.Sample(draws[i].0, draws[i].1);
      if recipient.Err? {
        PicksFailsAt(dir.authors, dir.keys, draws, i);
        PickRecordsResolve(old(dir.recorded), picks, dir.keyHex);
        return Err(recipient.error);
      }
      shareWith[i] := recipient.value.1;
      assert forall k :: 0 <= k < i ==> shareWith[k] == picks[k].1;
      PicksExtend(dir.authors, dir.keys, draws, i, picks, recipient.value);
      PickRecordsExtend(picks, recipient.value, dir.keyHex);
      picks := picks + [recipient.value];
    }
    assert draws[..|draws|] == draws;
    PickRecordsResolve(old(dir.recorded), picks, dir.keyHex);
    r := Ok(shareWith[..]);
  }

  /**
   * uploadEventSamplerImpl.sample: one directory draw for the sender, then
   * one per recipient, then the content. `draws[0]` is the sender's draw and
   * `draws[i + 1]` the draw for recipient `i`.
   */
  method SampleUploadEvent(dir: Directory, nShares: nat, draws: seq<(nat, nat)>, size: nat, read: nat -> ReadOutcome)
    returns (r: Result<UploadEvent, Panic>)
    requires dir.Valid() && dir.FullKeychains() && |draws| == nShares + 1
    modifies dir
    ensures dir.Valid()
    ensures old(dir.authorPubs).Keys <= dir.authorPubs.Keys
    ensures old(dir.recorded) <= dir.recorded
    ensures r.Ok? <==> Picks(dir.authors, dir.keys, draws).Ok? && ContentOutcome(size, read, 0).Ok?
    ensures r.Ok? ==> IsSampledEvent(r.value, dir.authors, dir.keys, draws, size, read)
    ensures r.Ok? ==> dir.recorded == old(dir.recorded) + PickRecords(Picks(dir.authors, dir.keys, draws).value, dir.keyHex)
    ensures r.Ok? ==> forall i :: 0 <= i < |r.value.shareWith| ==> dir.keyHex(r.value.shareWith[i]) in dir.authorPubs
  {
    PicksFirst(dir.authors, dir.keys, draws);
    var picked := dir.Sample(draws[0].0, draws[0].1);
    if picked.Err? {
      return Err(picked.error);
    }
    var from := picked.value.0;
    ghost var afterSender := dir.recorded;
    var shareWith := SampleRecipients(dir, draws[1..]);
    if shareWith.Err? {
      return Err(shareWith.error);
    }
    ghost var rest := Picks(dir.authors, dir.keys, draws[1..]).value;
    ghost var picks := [picked.value] + rest;
    assert Picks(dir.authors, dir.keys, draws) == Ok(picks);
    SenderThenRecipients(old(dir.recorded), picked.value, rest, dir.keyHex);
    PickRecordsResolve(old(dir.recorded), picks, dir.keyHex);
    assert dir.recorded == old(dir.recorded) + PickRecords(picks, dir.keyHex);
    var content := SampleContent(size, read);
    if content.Err? {
      return Err(content.error);
    }
    r := Ok(UploadEvent(content.value, from, shareWith.value));
    assert forall i :: 0 <= i < nShares ==> r.value.shareWith[i] == picks[i + 1].1;
  }
}
