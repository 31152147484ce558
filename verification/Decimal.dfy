/** Decimal numerals as strings: what they are worth, and the forms the amount code gives them. */
module Decimal {
  import opened Digits
  import opened Wrappers

  predicate IsDigit(c: char) {
    '0' <= c <= '9'
  }

  predicate AllDigits(s: string) {
    forall i :: 0 <= i < |s| ==> IsDigit(s[i])
  }

  function DigitsOf(s: string): (ds: seq<nat>)
    requires AllDigits(s)
    ensures |ds| == |s| && IsDigits(ds, 10)
    ensures forall i :: 0 <= i < |s| ==> ds[i] == s[i] as int - '0' as int
  {
    seq(|s|, i requires 0 <= i < |s| => s[i] as int - '0' as int)
  }

  function Chars(ds: seq<nat>): (s: string)
    requires IsDigits(ds, 10)
    ensures |s| == |ds| && AllDigits(s) && DigitsOf(s) == ds
  {
    seq(|ds|, i requires 0 <= i < |ds| => (ds[i] + '0' as int) as char)
  }

  /** The number a string of digits spells. */
  function Worth(s: string): nat
    requires AllDigits(s)
  {
    Value(DigitsOf(s), 10)
  }

  function ZeroChars(n: nat): (s: string)
    ensures |s| == n && AllDigits(s) && DigitsOf(s) == Zeros(n)
    ensures forall i :: 0 <= i < n ==> s[i] == '0'
  {
    seq(n, _ => '0')
  }

  lemma SameDigits(s: string, t: string)
    requires AllDigits(s) && AllDigits(t) && DigitsOf(s) == DigitsOf(t)
    ensures s == t
  {
    forall i | 0 <= i < |s| ensures s[i] == t[i] {
      assert DigitsOf(s)[i] == DigitsOf(t)[i];
    }
  }

  lemma WorthAppend(s: string, t: string)
    requires AllDigits(s) && AllDigits(t)
    ensures AllDigits(s + t) && Worth(s + t) == Worth(s) * Pow(10, |t|) + Worth(t)
    ensures Worth(t) < Pow(10, |t|)
  {
    ValueAppend(DigitsOf(s), DigitsOf(t), 10);
    ValueBound(DigitsOf(t), 10);
    assert DigitsOf(s + t) == DigitsOf(s) + DigitsOf(t);
  }

  lemma WorthZeros(n: nat)
    ensures Worth(ZeroChars(n)) == 0
  {
    ValueZeros(n, 10);
  }

  lemma WorthlessIsZeros(s: string)
    requires AllDigits(s) && Worth(s) == 0
    ensures s == ZeroChars(|s|)
  {
    ValueZeros(|s|, 10);
    SameLengthUnique(DigitsOf(s), Zeros(|s|), 10);
    SameDigits(s, ZeroChars(|s|));
  }

  // ---- the two strippings ------------------------------------------------------------------------

  /** replace(/^0+(?=\d)/, ''). */
  function StripFront(s: string): string {
    if |s| > 1 && s[0] == '0' && IsDigit(s[1]) then StripFront(s[1..]) else s
  }

  /** replace(/0+$/, ''). */
  function StripBack(s: string): string {
    if s != [] && s[|s| - 1] == '0' then StripBack(s[..|s| - 1]) else s
  }

  predicate FrontStripped(s: string) {
    s != [] && AllDigits(s) && (|s| > 1 ==> s[0] != '0')
  }

  predicate BackStripped(s: string) {
    AllDigits(s) && (s != [] ==> s[|s| - 1] != '0')
  }

  lemma LeadingZero(s: string)
    requires s != "" && AllDigits(s) && s[0] == '0'
    ensures AllDigits(s[1..]) && Worth(s[1..]) == Worth(s)
  {
    var zero := ZeroChars(1);
    assert s == zero + s[1..];
    WorthAppend(zero, s[1..]);
    WorthZeros(1);
  }

  lemma {:induction false} StripFrontKeeps(s: string)
    requires s != [] && AllDigits(s)
    ensures FrontStripped(StripFront(s)) && Worth(StripFront(s)) == Worth(s)
    ensures FrontStripped(s) ==> StripFront(s) == s
  {
    if |s| > 1 && s[0] == '0' {
      LeadingZero(s);
      StripFrontKeeps(s[1..]);
    }
  }

  lemma {:induction false} StripBackKeeps(s: string)
    requires AllDigits(s)
    ensures |StripBack(s)| <= |s| && BackStripped(StripBack(s))
    ensures s == StripBack(s) + ZeroChars(|s| - |StripBack(s)|)
  {
    if s != [] && s[|s| - 1] == '0' {
      var t := s[..|s| - 1];
      StripBackKeeps(t);
      assert ZeroChars(|t| - |StripBack(t)|) + "0" == ZeroChars(|s| - |StripBack(t)|);
      assert s == t + "0";
    }
  }

  lemma FrontForm(s: string)
    requires FrontStripped(s) && s != "0"
    ensures FromNat(Worth(s), 10) == DigitsOf(s) && s[0] != '0'
  {
    var ds := DigitsOf(s);
    assert ds[0] != 0;
    assert LeadingZeros(ds) == 0;
    FromNatOfValue(ds, 10);
  }

  lemma FrontZero(s: string)
    requires FrontStripped(s)
    ensures Worth(s) == 0 <==> s == "0"
  {
    if s == "0" {
      assert s == ZeroChars(1);
      WorthZeros(1);
    } else {
      FrontForm(s);
      assert FromNat(0, 10) == [];
    }
  }

  /** Whole parts without superfluous zeros are determined by their worth. */
  lemma FrontUnique(s: string, t: string)
    requires FrontStripped(s) && FrontStripped(t) && Worth(s) == Worth(t)
    ensures s == t
  {
    FrontZero(s);
    FrontZero(t);
    if s != "0" && t != "0" {
      FrontForm(s);
      FrontForm(t);
      SameDigits(s, t);
    }
  }

  lemma NotShorter(s: string, t: string, m: nat, n: nat)
    requires BackStripped(t) && s + ZeroChars(m) == t + ZeroChars(n)
    ensures |t| <= |s|
  {
    if t != [] {
      var k := |t| - 1;
      assert (s + ZeroChars(m))[k] == (t + ZeroChars(n))[k] == t[k];
    }
  }

  /** Fractions that agree once filled up with zeros agree once stripped. */
  lemma BackUnique(s: string, t: string, m: nat, n: nat)
    requires BackStripped(s) && BackStripped(t) && |s| + m == |t| + n
    requires Worth(s + ZeroChars(m)) == Worth(t + ZeroChars(n))
    ensures s == t
  {
    var x, y := s + ZeroChars(m), t + ZeroChars(n);
    SameLengthUnique(DigitsOf(x), DigitsOf(y), 10);
    SameDigits(x, y);
    NotShorter(s, t, m, n);
    NotShorter(t, s, n, m);
    assert x[..|s|] == s && y[..|t|] == t;
  }
}
