/** The numeric value of a message timestamp, the key the parser orders messages by
    (`parseFloat(ts)`). Export timestamps are decimal strings such as
    "1717771234.000200"; their value is read exactly, as a real. */
module Timestamp {

  predicate IsDigit(c: char) {
    '0' <= c <= '9'
  }

  predicate AllDigits(s: string) {
    forall i :: 0 <= i < |s| ==> IsDigit(s[i])
  }

  function DigitValue(c: char): (d: nat)
    requires IsDigit(c)
    ensures d < 10
  {
    (c as int) - ('0' as int)
  }

  function Pow10(n: nat): (p: nat)
    ensures p >= 1
  {
    if n == 0 then 1 else 10 * Pow10(n - 1)
  }

  /** Length of the run of decimal digits at the start of `s`. */
  function DigitRun(s: string): (n: nat)
    ensures n <= |s| && AllDigits(s[..n])
    ensures n < |s| ==> !IsDigit(s[n])
  {
    if s == [] || !IsDigit(s[0]) then 0 else 1 + DigitRun(s[1..])
  }

  /** The natural number a string of decimal digits spells, most significant first. */
  function DigitsValue(d: string): (v: nat)
    requires AllDigits(d)
    ensures v < Pow10(|d|)
  {
    if d == [] then 0 else DigitsValue(d[..|d| - 1]) * 10 + DigitValue(d[|d| - 1])
  }

  /** The value of the longest prefix of `ts` of the form digits, optionally followed
      by a point and more digits; 0 when there are no digits at all. */
  function TsValue(ts: string): real {
    var n := DigitRun(ts);
    var whole := DigitsValue(ts[..n]) as real;
    if n < |ts| && ts[n] == '.' then
      var frac := ts[n + 1..];
      var m := DigitRun(frac);
      whole + DigitsValue(frac[..m]) as real / Pow10(m) as real
    else
      whole
  }

  /** A digit string is read whole, up to the first character that is not a digit. */
  lemma {:induction false} DigitRunOfDigits(d: string, rest: string)
    requires AllDigits(d)
    requires rest == [] || !IsDigit(rest[0])
    ensures DigitRun(d + rest) == |d|
  {
    if d != [] {
      assert (d + rest)[1..] == d[1..] + rest;
      DigitRunOfDigits(d[1..], rest);
    }
  }

  /** The value of a well-formed timestamp "W.F" is W + F / 10^|F|. */
  lemma {:induction false} DecimalValue(whole: string, frac: string)
    requires AllDigits(whole) && AllDigits(frac)
    ensures TsValue(whole + "." + frac) ==
            DigitsValue(whole) as real + DigitsValue(frac) as real / Pow10(|frac|) as real
  {
    var ts := whole + "." + frac;
    assert ts == whole + ("." + frac);
    DigitRunOfDigits(whole, "." + frac);
    assert ts[..|whole|] == whole;
    assert ts[|whole|] == '.';
    assert ts[|whole| + 1..] == frac;
    DigitRunOfDigits(frac, []);
    assert frac + [] == frac;
    assert DigitRun(frac) == |frac|;
    assert frac[..|frac|] == frac;
  }

  /** The fractional part never reaches the next whole second, so timestamps with
      different whole parts are ordered by their whole parts. */
  lemma {:induction false} WholePartDominates(w1: string, f1: string, w2: string, f2: string)
    requires AllDigits(w1) && AllDigits(f1) && AllDigits(w2) && AllDigits(f2)
    requires DigitsValue(w1) < DigitsValue(w2)
    ensures TsValue(w1 + "." + f1) < TsValue(w2 + "." + f2)
  {
    DecimalValue(w1, f1);
    DecimalValue(w2, f2);
    FractionBelowOne(DigitsValue(f1), Pow10(|f1|));
    FractionBelowOne(DigitsValue(f2), Pow10(|f2|));
  }

  lemma FractionBelowOne(x: nat, p: nat)
    requires x < p
    ensures 0.0 <= x as real / p as real < 1.0
  {
    var q := x as real / p as real;
    assert q * p as real == x as real;
  }

  /** The value of a well-formed timestamp written as a literal. */
  lemma {:induction false} ValueOfLiteral(whole: string, frac: string, ts: string, v: real)
    requires AllDigits(whole) && AllDigits(frac) && ts == whole + "." + frac
    requires v == DigitsValue(whole) as real + DigitsValue(frac) as real / Pow10(|frac|) as real
    ensures TsValue(ts) == v
  {
    DecimalValue(whole, frac);
  }

  /** Ordering is numeric, not lexicographic: "99.5" sorts before "100.0", which sorts
      before "100.001", although a string comparison would put "100.0" first (its first
      character is the smaller one). */
  lemma NumericNotLexicographic(a: string, b: string, c: string)
    requires a == "99.5" && b == "100.0" && c == "100.001"
    ensures TsValue(a) < TsValue(b) < TsValue(c)
    ensures b[0] < a[0]
  {
    ValueOf995(a);
    ValueOf1000(b);
    ValueOf100001(c);
  }

  lemma ValueOf995(a: string)
    requires a == "99.5"
    ensures TsValue(a) == 99.5
  {
    assert DigitsValue("99") == 99 && DigitsValue("5") == 5;
    ValueOfLiteral("99", "5", a, 99.5);
  }

  lemma ValueOf1000(b: string)
    requires b == "100.0"
    ensures TsValue(b) == 100.0
  {
    assert DigitsValue("100") == 100 && DigitsValue("0") == 0;
    ValueOfLiteral("100", "0", b, 100.0);
  }

  lemma ValueOf100001(c: string)
    requires c == "100.001"
    ensures TsValue(c) == 100.001
  {
    assert DigitsValue("100") == 100 && DigitsValue("001") == 1;
    ValueOfLiteral("100", "001", c, 100.001);
  }
}
