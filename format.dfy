/**
 * The parts of Go's `fmt` and `strings` packages that the modelled code uses:
 * `%d` of integers, `%f` of a fixed-point quantity and `strings.Join` on a
 * one-character separator; plus `Split` and substring search, which only the
 * lemmas use.
 */
module Format {

  predicate IsDigit(c: char) {
    '0' <= c <= '9'
  }

  predicate AllDigits(s: string) {
    forall k :: 0 <= k < |s| ==> IsDigit(s[k])
  }

  function DigitChar(d: nat): (c: char)
    requires d < 10
    ensures IsDigit(c) && DigitValue(c) == d
  {
    "0123456789"[d]
  }

  function DigitValue(c: char): nat
    requires IsDigit(c)
  {
    c as int - '0' as int
  }

  /** Go's `%d` of a non-negative integer: the shortest decimal numeral. */
  function NatToString(n: nat): (s: string)
    ensures |s| >= 1 && AllDigits(s)
    ensures |s| > 1 ==> s[0] != '0'
  {
    if n < 10 then [DigitChar(n)] else NatToString(n / 10) + [DigitChar(n % 10)]
  }

  /** The value of a decimal numeral, the inverse of `NatToString`. */
  function ParseDigits(s: string): nat
    requires AllDigits(s)
  {
    if s == [] then 0 else 10 * ParseDigits(s[..|s| - 1]) + DigitValue(s[|s| - 1])
  }

  lemma {:induction false} ParseNatToString(n: nat)
    ensures ParseDigits(NatToString(n)) == n
  {
    var s := NatToString(n);
    if n >= 10 {
      ParseNatToString(n / 10);
      assert s[..|s| - 1] == NatToString(n / 10);
    }
  }

  /** Distinct numbers print as distinct numerals. */
  lemma NatToStringInjective(a: nat, b: nat)
    ensures NatToString(a) == NatToString(b) ==> a == b
  {
    ParseNatToString(a);
    ParseNatToString(b);
  }

  lemma PrefixCancel(p: string, x: string, y: string)
    requires p + x == p + y
    ensures x == y
  {
    assert x == (p + x)[|p|..] && y == (p + y)[|p|..];
  }

  /** In `a + x`, with `a` all digits and `x` starting with a non-digit, the digits stop at `|a|`. */
  lemma DigitRunEnds(a: string, x: string)
    requires AllDigits(a) && |x| > 0 && !IsDigit(x[0])
    ensures forall k :: 0 <= k < |a| ==> IsDigit((a + x)[k])
    ensures !IsDigit((a + x)[|a|])
  {
  }

  /** A numeral followed by a non-digit is read back unambiguously. */
  lemma NumeralPrefixUnique(a: string, x: string, b: string, y: string)
    requires AllDigits(a) && |x| > 0 && !IsDigit(x[0])
    requires AllDigits(b) && |y| > 0 && !IsDigit(y[0])
    requires a + x == b + y
    ensures a == b && x == y
  {
    DigitRunEnds(a, x);
    DigitRunEnds(b, y);
    assert |a| == |b|;
    assert a == (a + x)[..|a|] && b == (b + y)[..|b|];
    assert x == (a + x)[|a|..] && y == (b + y)[|b|..];
  }

  /** Go's `%d` of a signed integer: a minus sign, then the magnitude. */
  function IntToString(i: int): (s: string)
    ensures |s| >= 1 && (s[0] == '-' <==> i < 0)
    ensures forall k :: 1 <= k < |s| ==> IsDigit(s[k])
  {
    if i < 0 then "-" + NatToString(-i) else NatToString(i)
  }

  /** Reading back the numeral after the optional minus sign gives the magnitude. */
  lemma IntToStringParses(i: int)
    ensures var s := IntToString(i);
      && (i < 0 ==> AllDigits(s[1..]) && ParseDigits(s[1..]) == -i)
      && (i >= 0 ==> AllDigits(s) && ParseDigits(s) == i)
  {
    var s := IntToString(i);
    if i < 0 {
      assert s[1..] == NatToString(-i);
      ParseNatToString(-i);
    } else {
      ParseNatToString(i);
    }
  }

  /** The low `width` decimal digits of `n`, zero-padded on the left. */
  function FixedDigits(n: nat, width: nat): (s: string)
    ensures |s| == width && AllDigits(s)
  {
    if width == 0 then "" else FixedDigits(n / 10, width - 1) + [DigitChar(n % 10)]
  }

  function Pow10(k: nat): (p: nat)
    ensures p >= 1
  {
    if k == 0 then 1 else 10 * Pow10(k - 1)
  }

  /** Zero-padding to `width` digits keeps a number below `10^width`: the digits read back as it. */
  lemma {:induction false} ParseFixedDigits(n: nat, width: nat)
    requires n < Pow10(width)
    ensures ParseDigits(FixedDigits(n, width)) == n
  {
    if width > 0 {
      var s := FixedDigits(n, width);
      ParseFixedDigits(n / 10, width - 1);
      assert s[..|s| - 1] == FixedDigits(n / 10, width - 1);
    }
  }

  /**
   * Go's `%f` (six decimals) of the non-negative number `micros / 1000000`,
   * a value given in millionths so that it prints exactly.
   */
  function MicrosToFixed(micros: nat): (s: string)
    ensures |s| >= 8 && s[|s| - 7] == '.' && AllDigits(s[..|s| - 7]) && AllDigits(s[|s| - 6..])
  {
    NatToString(micros / 1000000) + "." + FixedDigits(micros % 1000000, 6)
  }

  /**
   * `%f` loses nothing: the whole part before the point and the six
   * decimals after it read back as the number of millionths.
   */
  lemma MicrosToFixedParses(micros: nat)
    ensures var s := MicrosToFixed(micros);
      && AllDigits(s[..|s| - 7]) && AllDigits(s[|s| - 6..])
      && ParseDigits(s[..|s| - 7]) * 1000000 + ParseDigits(s[|s| - 6..]) == micros
  {
    var s := MicrosToFixed(micros);
    assert s[..|s| - 7] == NatToString(micros / 1000000);
    assert s[|s| - 6..] == FixedDigits(micros % 1000000, 6);
    ParseNatToString(micros / 1000000);
    ParseFixedDigits(micros % 1000000, 6);
    assert Pow10(6) == 1000000;
  }

  /** Go's `strings.Join` with a one-character separator. */
  function Join(parts: seq<string>, sep: char): string
  {
    if |parts| == 0 then ""
    else if |parts| == 1 then parts[0]
    else parts[0] + [sep] + Join(parts[1..], sep)
  }

  /**
   * Go's `strings.Split` with a one-character separator: the pieces between
   * separators, so the empty string splits into one empty piece.
   */
  function Split(s: string, sep: char): (pieces: seq<string>)
    ensures |pieces| >= 1
  {
    if s == [] then [""]
    else
      var rest := Split(s[1..], sep);
      if s[0] == sep then [""] + rest else [[s[0]] + rest[0]] + rest[1..]
  }

  lemma {:induction false} SplitWithoutSeparator(a: string, sep: char)
    requires sep !in a
    ensures Split(a, sep) == [a]
  {
    if a != [] {
      SplitWithoutSeparator(a[1..], sep);
      assert [a[0]] + a[1..] == a;
    }
  }

  lemma {:induction false} SplitAtFirstSeparator(a: string, sep: char, b: string)
    requires sep !in a
    ensures Split(a + [sep] + b, sep) == [a] + Split(b, sep)
  {
    if a == [] {
      assert a + [sep] + b == [sep] + b;
      assert ([sep] + b)[1..] == b;
    } else {
      SplitAtFirstSeparator(a[1..], sep, b);
      assert (a + [sep] + b)[1..] == a[1..] + [sep] + b;
      assert [a[0]] + a[1..] == a;
    }
  }

  /** Joining pieces free of the separator and splitting again gives the pieces back. */
  lemma {:induction false} SplitJoin(parts: seq<string>, sep: char)
    requires |parts| >= 1
    requires forall k :: 0 <= k < |parts| ==> sep !in parts[k]
    ensures Split(Join(parts, sep), sep) == parts
  {
    if |parts| == 1 {
      SplitWithoutSeparator(parts[0], sep);
    } else {
      SplitJoin(parts[1..], sep);
      SplitAtFirstSeparator(parts[0], sep, Join(parts[1..], sep));
      assert [parts[0]] + parts[1..] == parts;
    }
  }

  /** `sub` occurs in `s` starting at index `i`. */
  predicate OccursAt(s: string, sub: string, i: nat) {
    i + |sub| <= |s| && s[i..i + |sub|] == sub
  }

  /** `sub` occurs somewhere in `s`. */
  predicate Contains(s: string, sub: string) {
    exists i: nat :: i <= |s| && OccursAt(s, sub, i)
  }

  lemma ContainsInside(a: string, sub: string, b: string)
    ensures Contains(a + sub + b, sub)
  {
    var s := a + sub + b;
    assert OccursAt(s, sub, |a|);
  }

  lemma ContainsSuffix(a: string, sub: string)
    ensures Contains(a + sub, sub)
  {
    assert OccursAt(a + sub, sub, |a|);
  }

  /** Text that contains `sub` still does once more is appended to it. */
  lemma ContainsExtend(s: string, sub: string, b: string)
    requires Contains(s, sub)
    ensures Contains(s + b, sub)
  {
    var i: nat :| i <= |s| && OccursAt(s, sub, i);
    assert (s + b)[i..i + |sub|] == s[i..i + |sub|];
    assert OccursAt(s + b, sub, i);
  }

  /** In `a + [sep] + x` with `sep` absent from `x`, position `|a|` holds the last separator. */
  lemma LastSeparatorAt(a: string, sep: char, x: string)
    requires sep !in x
    ensures (a + [sep] + x)[|a|] == sep
    ensures forall k :: |a| < k < |a| + 1 + |x| ==> (a + [sep] + x)[k] != sep
  {
    var s := a + [sep] + x;
    forall k | |a| < k < |a| + 1 + |x|
      ensures s[k] != sep
    {
      assert s[k] == x[k - |a| - 1];
    }
  }

  /**
   * Two equal strings that each end in a separator followed by a tail free of
   * it split at the same place.
   */
  lemma SplitAtLastSeparator(a: string, x: string, b: string, y: string, sep: char)
    requires sep !in x && sep !in y
    requires a + [sep] + x == b + [sep] + y
    ensures a == b && x == y
  {
    var s := a + [sep] + x;
    LastSeparatorAt(a, sep, x);
    LastSeparatorAt(b, sep, y);
    assert |a| == |b|;
    assert a == s[..|a|] && b == s[..|b|];
    assert x == s[|a| + 1..] && y == s[|b| + 1..];
  }
}
