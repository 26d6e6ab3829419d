/** Decimal rendering and padding, the pieces of Rust's `format!` that the
    record formatter relies on: `{}` of an unsigned integer, `{:02}` and
    `{:>w}`.  Widths are counted in characters, as Rust counts them. */
module Text {

  function Max(a: nat, b: nat): nat { if a < b then b else a }

  predicate IsDigit(c: char) { '0' <= c <= '9' }

  predicate AllDigits(s: string) { forall i :: 0 <= i < |s| ==> IsDigit(s[i]) }

  function DigitChar(d: nat): (c: char)
    requires d < 10
    ensures IsDigit(c) && DigitValue(c) == d
  {
    ('0' as int + d) as char
  }

  /** The value of a decimal digit; other characters count as zero. */
  function DigitValue(c: char): nat
  {
    if IsDigit(c) then c as int - '0' as int else 0
  }

  /** `{}` of a non-negative integer: its shortest decimal numeral. */
  function Decimal(n: nat): (r: string)
    ensures |r| > 0 && AllDigits(r)
    ensures r[0] == '0' ==> r == "0"
    decreases n
  {
    if n < 10 then [DigitChar(n)] else Decimal(n / 10) + [DigitChar(n % 10)]
  }

  /** The value of a numeral, leading zeros allowed. */
  function Value(s: string): nat
  {
    if s == [] then 0 else 10 * Value(s[..|s| - 1]) + DigitValue(s[|s| - 1])
  }

  /** Reading back what `Decimal` wrote gives the number. */
  lemma {:induction false} ValueOfDecimal(n: nat)
    ensures Value(Decimal(n)) == n
    decreases n
  {
    if n >= 10 {
      var s := Decimal(n);
      assert s[..|s| - 1] == Decimal(n / 10);
      ValueOfDecimal(n / 10);
    }
  }

  /** Different numbers get different numerals. */
  lemma DecimalInjective(a: nat, b: nat)
    requires Decimal(a) == Decimal(b)
    ensures a == b
  {
    ValueOfDecimal(a);
    ValueOfDecimal(b);
  }

  /** A number below 10^k needs at most k digits. */
  lemma {:induction false} DecimalLength(n: nat, k: nat)
    requires 0 < k && n < Pow10(k)
    ensures |Decimal(n)| <= k
    decreases k
  {
    if n >= 10 {
      assert k > 1 && n / 10 < Pow10(k - 1);
      DecimalLength(n / 10, k - 1);
    }
  }

  function Pow10(k: nat): (p: nat)
    ensures p > 0
  {
    if k == 0 then 1 else 10 * Pow10(k - 1)
  }

  function Repeat(c: char, k: nat): (r: string)
    ensures |r| == k && forall i :: 0 <= i < k ==> r[i] == c
  {
    seq(k, _ => c)
  }

  /** Right alignment in a field of at least `width` characters, filled on
      the left with `fill`: `{:>w}` uses a space, `{:0w}` a zero. */
  function PadLeftWith(fill: char, s: string, width: nat): (r: string)
    ensures |r| == Max(width, |s|)
    ensures r[|r| - |s|..] == s
    ensures forall i :: 0 <= i < |r| - |s| ==> r[i] == fill
  {
    Repeat(fill, if |s| < width then width - |s| else 0) + s
  }

  /** `{:>width}` of a string. */
  function PadLeft(s: string, width: nat): (r: string)
    ensures |r| == Max(width, |s|)
    ensures r[|r| - |s|..] == s
    ensures forall i :: 0 <= i < |r| - |s| ==> r[i] == ' '
  {
    PadLeftWith(' ', s, width)
  }

  /** `{:02}` of a non-negative integer. */
  function Pad2(n: nat): (r: string)
    ensures AllDigits(r) && Value(r) == n && |r| >= 2
    ensures n < 100 ==> |r| == 2
    ensures n >= 10 ==> r == Decimal(n)
  {
    Pad2Facts(n);
    PadLeftWith('0', Decimal(n), 2)
  }

  lemma Pad2Facts(n: nat)
    ensures var r := PadLeftWith('0', Decimal(n), 2);
      Value(r) == n && (n < 100 ==> |r| == 2) && (n >= 10 ==> r == Decimal(n))
  {
    var d := Decimal(n);
    var r := PadLeftWith('0', d, 2);
    ValueOfDecimal(n);
    if n < 100 { DecimalLength(n, 2); }
    if n >= 10 {
      assert |d| >= 2;
      assert r == d;
    }
    assert r[|r| - |d|..] == d;
    ZerosDoNotCount(r, |r| - |d|);
  }

  /** Leading zeros add nothing to a numeral's value. */
  lemma {:induction false} ZerosDoNotCount(s: string, k: nat)
    requires AllDigits(s) && k <= |s|
    requires forall i :: 0 <= i < k ==> s[i] == '0'
    ensures Value(s) == Value(s[k..])
    decreases |s|
  {
    if k < |s| {
      var t := s[..|s| - 1];
      assert t[k..] == s[k..][..|s[k..]| - 1];
      ZerosDoNotCount(t, k);
    } else {
      assert s[k..] == [];
      if s != [] {
        var t := s[..|s| - 1];
        ZerosDoNotCount(t, k - 1);
        assert t[k - 1..] == [];
      }
    }
  }

  /** The number of leading digits of `s`. */
  function SpanDigits(s: string): (k: nat)
    ensures k <= |s| && AllDigits(s[..k])
    ensures k < |s| ==> !IsDigit(s[k])
  {
    if s == [] || !IsDigit(s[0]) then 0
    else
      var k := 1 + SpanDigits(s[1..]);
      assert s[..k] == [s[0]] + s[1..][..k - 1];
      k
  }

  /** A numeral followed by a non-digit is read as a whole. */
  lemma {:induction false} SpanDigitsOf(d: string, rest: string)
    requires AllDigits(d)
    requires rest == [] || !IsDigit(rest[0])
    ensures SpanDigits(d + rest) == |d|
    decreases |d|
  {
    if d != [] {
      assert (d + rest)[1..] == d[1..] + rest;
      SpanDigitsOf(d[1..], rest);
    } else {
      assert d + rest == rest;
    }
  }
}
