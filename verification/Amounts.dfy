/** Decimal amounts: normalizeAmountString and amountsMatch of chainIndexer.ts, baseUnitsToHuman of
    goldrush.ts, formatUnitsSafe of paymentTxVerifier.ts and parse_amount_stroops of pool_ops.rs. */
module Amounts {
  import opened Decimal
  import opened Digits
  import opened Text
  import opened Wrappers

  // ---- decimal numbers and how they are written ----------------------------------------------------

  datatype Dec = Dec(neg: bool, whole: string, frac: string)

  predicate WellFormed(d: Dec) {
    d.whole != "" && AllDigits(d.whole) && AllDigits(d.frac)
  }

  function Unsigned(whole: string, frac: string): string {
    if frac == "" then whole else whole + "." + frac
  }

  function Written(d: Dec): string {
    (if d.neg then "-" else "") + Unsigned(d.whole, d.frac)
  }

  function DigitRun(s: string): (n: nat)
    ensures n <= |s| && AllDigits(s[..n])
    ensures n < |s| ==> !IsDigit(s[n])
  {
    if s != "" && IsDigit(s[0]) then
      var n := DigitRun(s[1..]);
      assert s[..n + 1] == s[..1] + s[1..][..n];
      n + 1
    else 0
  }

  function Body(s: string): string {
    if s != "" && s[0] == '-' then s[1..] else s
  }

  predicate IsNegative(s: string) {
    s != "" && s[0] == '-'
  }

  /** Matches ^-?\d+(\.\d+)?$ and takes the match apart. */
  function Parse(s: string): Option<Dec> {
    var body := Body(s);
    var k := DigitRun(body);
    if k == 0 then None
    else if k == |body| then Some(Dec(IsNegative(s), body, ""))
    else if body[k] == '.' && k + 1 < |body| && AllDigits(body[k + 1..]) then
      Some(Dec(IsNegative(s), body[..k], body[k + 1..]))
    else None
  }

  lemma ParseSound(s: string)
    requires Parse(s).Some?
    ensures WellFormed(Parse(s).value) && Written(Parse(s).value) == s
  {
    var body := Body(s);
    var k := DigitRun(body);
    if k == |body| {
      assert body[..k] == body;
    } else {
      assert body == body[..k] + "." + body[k + 1..];
    }
    assert s == (if IsNegative(s) then "-" else "") + body;
  }

  lemma {:induction false} DigitRunOf(whole: string, rest: string)
    requires AllDigits(whole) && (rest != "" ==> !IsDigit(rest[0]))
    ensures DigitRun(whole + rest) == |whole|
  {
    if whole == "" {
      assert whole + rest == rest;
    } else {
      DigitRunOf(whole[1..], rest);
      assert (whole + rest)[1..] == whole[1..] + rest;
    }
  }

  lemma BodyOfWritten(d: Dec)
    requires WellFormed(d)
    ensures Body(Written(d)) == Unsigned(d.whole, d.frac) && IsNegative(Written(d)) == d.neg
  {
    assert Unsigned(d.whole, d.frac)[0] == d.whole[0];
  }

  lemma ParseWhole(s: string, whole: string)
    requires Body(s) == whole && whole != "" && AllDigits(whole)
    ensures Parse(s) == Some(Dec(IsNegative(s), whole, ""))
  {
    DigitRunOf(whole, "");
    assert whole + "" == whole;
  }

  lemma ParseFraction(s: string, whole: string, frac: string)
    requires Body(s) == whole + "." + frac && whole != "" && frac != "" && AllDigits(whole) && AllDigits(frac)
    ensures Parse(s) == Some(Dec(IsNegative(s), whole, frac))
  {
    var rest := "." + frac;
    assert Body(s) == whole + rest;
    DigitRunOf(whole, rest);
    assert Body(s)[|whole| + 1..] == frac && Body(s)[..|whole|] == whole;
  }

  /** Parsing inverts writing. */
  lemma ParseWritten(d: Dec)
    requires WellFormed(d)
    ensures Parse(Written(d)) == Some(d)
  {
    BodyOfWritten(d);
    if d.frac == "" {
      ParseWhole(Written(d), d.whole);
    } else {
      ParseFraction(Written(d), d.whole, d.frac);
    }
  }

  // ---- what a decimal denotes ------------------------------------------------------------------------

  /** The digits of d with k places after the point, as one whole number. */
  function Magnitude(d: Dec, k: nat): nat
    requires WellFormed(d) && |d.frac| <= k
  {
    Worth(d.whole + (d.frac + ZeroChars(k - |d.frac|)))
  }

  function Signed(neg: bool, n: nat): int {
    (if neg then -1 else 1) * n
  }

  function Units(d: Dec, k: nat): int
    requires WellFormed(d) && |d.frac| <= k
  {
    Signed(d.neg, Magnitude(d, k))
  }

  /** u / 10^k. */
  function Ratio(u: int, k: nat): real {
    u as real / Pow(10, k) as real
  }

  /** The rational number d stands for. */
  function Denoted(d: Dec): real
    requires WellFormed(d)
  {
    Ratio(Units(d, |d.frac|), |d.frac|)
  }

  lemma CancelRight(a: real, p: real, q: real)
    requires p != 0.0 && q != 0.0 && p * q != 0.0
    ensures (a * q) / (p * q) == a / p
  {
    var r := a / p;
    assert a == r * p;
    assert a * q == r * (p * q);
  }

  lemma CastProduct(a: int, b: int)
    ensures (a * b) as real == a as real * b as real
  {
  }

  lemma ScaledRatio(u: int, p: nat, q: nat, pq: nat)
    requires p >= 1 && q >= 1 && pq == p * q && pq >= 1
    ensures (u * q) as real / pq as real == u as real / p as real
  {
    CastProduct(u, q);
    CastProduct(p, q);
    CancelRight(u as real, p as real, q as real);
  }

  lemma RatioScale(u: int, k: nat, j: nat)
    ensures Ratio(u * Pow(10, j), k + j) == Ratio(u, k)
  {
    PowAdd(10, k, j);
    ScaledRatio(u, Pow(10, k), Pow(10, j), Pow(10, k + j));
  }

  lemma RatioInjective(u: int, v: int, k: nat)
    requires Ratio(u, k) == Ratio(v, k)
    ensures u == v
  {
    var p := Pow(10, k) as real;
    assert u as real / p * p == u as real && v as real / p * p == v as real;
  }

  lemma SignedScale(neg: bool, n: nat, p: nat)
    ensures Signed(neg, n * p) == Signed(neg, n) * p
  {
  }

  lemma MagnitudeScale(d: Dec, k: nat)
    requires WellFormed(d) && |d.frac| <= k
    ensures Magnitude(d, k) == Magnitude(d, |d.frac|) * Pow(10, k - |d.frac|)
  {
    var z := ZeroChars(k - |d.frac|);
    WorthAppend(d.whole + d.frac, z);
    WorthZeros(|z|);
    assert d.frac + ZeroChars(0) == d.frac;
    assert d.whole + (d.frac + z) == d.whole + d.frac + z;
  }

  lemma AtScale(d: Dec, k: nat)
    requires WellFormed(d) && |d.frac| <= k
    ensures Denoted(d) == Ratio(Units(d, k), k)
  {
    MagnitudeScale(d, k);
    SignedScale(d.neg, Magnitude(d, |d.frac|), Pow(10, k - |d.frac|));
    RatioScale(Units(d, |d.frac|), |d.frac|, k - |d.frac|);
  }

  lemma MagnitudeParts(d: Dec, k: nat)
    requires WellFormed(d) && |d.frac| <= k
    ensures var tail := d.frac + ZeroChars(k - |d.frac|);
      Magnitude(d, k) == Worth(d.whole) * Pow(10, k) + Worth(tail) && Worth(tail) < Pow(10, k)
  {
    var tail := d.frac + ZeroChars(k - |d.frac|);
    assert |tail| == k;
    WorthAppend(d.whole, tail);
  }

  /** What the digits mean: a digit at the end of a numeral counts its own value, the others ten times
      theirs. */
  lemma WorthPush(s: string, c: char)
    requires AllDigits(s) && IsDigit(c)
    ensures AllDigits(s + [c]) && Worth(s + [c]) == 10 * Worth(s) + IndexInDigits(c)
  {
    WorthAppend(s, [c]);
    assert DigitsOf([c]) == [c as int - '0' as int];
    assert Pow(10, 1) == 10;
  }

  /** The position of a digit in 0123456789. */
  function IndexInDigits(c: char): nat {
    match c
    case '0' => 0 case '1' => 1 case '2' => 2 case '3' => 3 case '4' => 4
    case '5' => 5 case '6' => 6 case '7' => 7 case '8' => 8 case '9' => 9
    case _ => 0
  }

  lemma PlainMagnitude(d: Dec)
    requires WellFormed(d)
    ensures AllDigits(d.whole + d.frac) && Magnitude(d, |d.frac|) == Worth(d.whole + d.frac)
  {
    assert d.frac + ZeroChars(0) == d.frac;
  }

  lemma MagnitudePush(d: Dec, c: char)
    requires WellFormed(d) && IsDigit(c)
    ensures var e := Dec(d.neg, d.whole, d.frac + [c]);
      Magnitude(e, |d.frac| + 1) == Magnitude(d, |d.frac| + 1) + IndexInDigits(c)
  {
    var e := Dec(d.neg, d.whole, d.frac + [c]);
    PlainMagnitude(d);
    PlainMagnitude(e);
    WorthPush(d.whole + d.frac, c);
    assert d.whole + e.frac == d.whole + d.frac + [c];
    MagnitudeScale(d, |d.frac| + 1);
    assert Pow(10, 1) == 10;
  }

  /** And what the places mean: a digit behind the point counts a tenth as much at each place. */
  lemma DenotedPush(d: Dec, c: char)
    requires WellFormed(d) && IsDigit(c)
    ensures Denoted(Dec(d.neg, d.whole, d.frac + [c])) ==
      Denoted(d) + Ratio(Signed(d.neg, IndexInDigits(c)), |d.frac| + 1)
  {
    var k := |d.frac| + 1;
    MagnitudePush(d, c);
    AtScale(d, k);
    SumOverTen(Signed(d.neg, Magnitude(d, k)), Signed(d.neg, IndexInDigits(c)), k);
  }

  lemma SumOverTen(u: int, v: int, k: nat)
    ensures Ratio(u + v, k) == Ratio(u, k) + Ratio(v, k)
  {
    SumOver(u as real, v as real, Pow(10, k) as real);
    assert (u + v) as real == u as real + v as real;
  }

  lemma SumOver(a: real, b: real, p: real)
    requires p != 0.0
    ensures (a + b) / p == a / p + b / p
  {
    var x, y := a / p, b / p;
    assert a == x * p && b == y * p;
    assert a + b == (x + y) * p;
  }

  /** A whole number denotes itself, with its sign. */
  lemma DenotedWhole(neg: bool, whole: string)
    requires whole != "" && AllDigits(whole)
    ensures Denoted(Dec(neg, whole, "")) == (if neg then -1.0 else 1.0) * Worth(whole) as real
  {
    assert "" + ZeroChars(0) == "" && whole + "" == whole;
  }

  // ---- the canonical form ------------------------------------------------------------------------------

  function Canon(d: Dec): Dec {
    var w, f := StripFront(d.whole), StripBack(d.frac);
    Dec(d.neg && Unsigned(w, f) != "0", w, f)
  }

  predicate IsCanon(d: Dec) {
    FrontStripped(d.whole) && BackStripped(d.frac) && (d.neg ==> Unsigned(d.whole, d.frac) != "0")
  }

  lemma CanonKeeps(d: Dec)
    requires WellFormed(d)
    ensures IsCanon(Canon(d)) && Denoted(Canon(d)) == Denoted(d)
  {
    var c, k := Canon(d), |d.frac|;
    StripFrontKeeps(d.whole);
    StripBackKeeps(d.frac);
    MagnitudeParts(d, k);
    MagnitudeParts(c, k);
    assert d.frac + ZeroChars(0) == d.frac;
    assert Magnitude(c, k) == Magnitude(d, k);
    if c.neg != d.neg {
      ZeroMagnitude(c, k);
    }
    AtScale(c, k);
  }

  lemma ZeroMagnitude(c: Dec, k: nat)
    requires FrontStripped(c.whole) && BackStripped(c.frac) && |c.frac| <= k
    ensures Magnitude(c, k) == 0 <==> Unsigned(c.whole, c.frac) == "0"
  {
    MagnitudeParts(c, k);
    FrontZero(c.whole);
    FractionZero(c.frac, k - |c.frac|);
    if c.frac != "" {
      assert Unsigned(c.whole, c.frac)[|c.whole|] == '.';
    }
    ZeroSum(Worth(c.whole), Pow(10, k), Worth(c.frac + ZeroChars(k - |c.frac|)));
  }

  lemma ZeroSum(w: nat, p: nat, f: nat)
    requires p >= 1
    ensures w * p + f == 0 <==> w == 0 && f == 0
  {
    MulMono(1, p, w);
  }

  lemma FractionZero(f: string, n: nat)
    requires BackStripped(f)
    ensures Worth(f + ZeroChars(n)) == 0 <==> f == ""
  {
    if f == "" {
      assert f + ZeroChars(n) == ZeroChars(n);
      WorthZeros(n);
    } else if Worth(f + ZeroChars(n)) == 0 {
      NoFraction(f, n);
    }
  }

  lemma NoFraction(f: string, n: nat)
    requires BackStripped(f) && Worth(f + ZeroChars(n)) == 0
    ensures f == ""
  {
    var x := f + ZeroChars(n);
    assert f != "" ==> x[|f| - 1] == f[|f| - 1];
    WorthlessIsZeros(x);
  }

  lemma PartsUnique(d: Dec, e: Dec, k: nat)
    requires IsCanon(d) && IsCanon(e) && |d.frac| <= k && |e.frac| <= k && Magnitude(d, k) == Magnitude(e, k)
    ensures d.whole == e.whole && d.frac == e.frac
  {
    MagnitudeParts(d, k);
    MagnitudeParts(e, k);
    SameParts(d.whole, d.frac, k - |d.frac|, e.whole, e.frac, k - |e.frac|, Pow(10, k));
  }

  lemma SameParts(v: string, s: string, m: nat, w: string, t: string, n: nat, p: nat)
    requires FrontStripped(v) && FrontStripped(w) && BackStripped(s) && BackStripped(t) && |s| + m == |t| + n
    requires Worth(s + ZeroChars(m)) < p && Worth(t + ZeroChars(n)) < p
    requires Worth(v) * p + Worth(s + ZeroChars(m)) == Worth(w) * p + Worth(t + ZeroChars(n))
    ensures v == w && s == t
  {
    QuotientUnique(Worth(v), Worth(s + ZeroChars(m)), Worth(w), Worth(t + ZeroChars(n)), p);
    FrontUnique(v, w);
    BackUnique(s, t, m, n);
  }

  /** One canonical form per rational number. */
  lemma CanonUnique(d: Dec, e: Dec)
    requires IsCanon(d) && IsCanon(e) && Denoted(d) == Denoted(e)
    ensures d == e
  {
    var k := |d.frac| + |e.frac|;
    AtScale(d, k);
    AtScale(e, k);
    RatioInjective(Units(d, k), Units(e, k), k);
    ZeroMagnitude(d, k);
    ZeroMagnitude(e, k);
    PartsUnique(d, e, k);
  }

  // ---- the indexer's comparison --------------------------------------------------------------------------

  /** normalizeAmountString; null and undefined are None, a number is its String(). */
  function Normalize(raw: Option<string>): string {
    if raw.None? then "0"
    else
      var s := Trim(JsSpace, raw.value);
      if s == "" then "0"
      else match Parse(s)
        case None => Lower(s)
        case Some(d) =>
          var out := Unsigned(StripFront(d.whole), StripBack(d.frac));
          if d.neg && out != "0" then "-" + out else out
  }

  function AmountsMatch(a: Option<string>, b: Option<string>): bool {
    Normalize(a) == Normalize(b)
  }

  /** What an amount says: a rational number, or a word that is not a plain decimal. */
  datatype Meaning = Number(value: real) | Word(text: string)

  function MeaningOf(raw: Option<string>): Meaning {
    if raw.None? then Number(0.0)
    else
      var s := Trim(JsSpace, raw.value);
      if s == "" then Number(0.0)
      else if Parse(s).Some? then ParseSound(s); Number(Denoted(Parse(s).value))
      else Word(Lower(s))
  }

  const NOUGHT := Dec(false, "0", "")

  lemma NoughtDenotes()
    ensures IsCanon(NOUGHT) && Denoted(NOUGHT) == 0.0 && Written(NOUGHT) == "0"
  {
    ZeroMagnitude(NOUGHT, 0);
  }

  /** The canonical decimal an amount is turned into, when it is a number. */
  lemma NormalizeWrites(raw: Option<string>) returns (c: Dec)
    requires MeaningOf(raw).Number?
    ensures IsCanon(c) && WellFormed(c) && Normalize(raw) == Written(c) && MeaningOf(raw) == Number(Denoted(c))
  {
    NoughtDenotes();
    if raw.None? || Trim(JsSpace, raw.value) == "" {
      c := NOUGHT;
    } else {
      var d := Parse(Trim(JsSpace, raw.value)).value;
      ParseSound(Trim(JsSpace, raw.value));
      CanonKeeps(d);
      c := Canon(d);
    }
  }

  lemma LowerChars(c: char)
    ensures IsDigit(LowerChar(c)) == IsDigit(c) && (LowerChar(c) == '-' <==> c == '-') && (LowerChar(c) == '.' <==> c == '.')
    ensures JsSpace(LowerChar(c)) == JsSpace(c) && LowerChar(LowerChar(c)) == LowerChar(c)
  {
  }

  lemma {:induction false} DigitRunLower(s: string)
    ensures DigitRun(Lower(s)) == DigitRun(s)
  {
    if s != "" {
      LowerChars(s[0]);
      assert Lower(s)[1..] == Lower(s[1..]);
      DigitRunLower(s[1..]);
    }
  }

  /** Lower case makes no number out of a word. */
  lemma ParseLower(s: string)
    ensures Parse(Lower(s)).None? <==> Parse(s).None?
  {
    if s != "" {
      LowerChars(s[0]);
    }
    var body, low := Body(s), Body(Lower(s));
    assert low == Lower(body);
    DigitRunLower(body);
    var k := DigitRun(body);
    if 0 < k < |body| {
      LowerChars(body[k]);
      assert low[k + 1..] == Lower(body[k + 1..]);
      AllDigitsLower(body[k + 1..]);
    }
  }

  lemma AllDigitsLower(s: string)
    ensures AllDigits(Lower(s)) <==> AllDigits(s)
  {
    forall i | 0 <= i < |s| ensures IsDigit(Lower(s)[i]) == IsDigit(s[i]) {
      LowerChars(s[i]);
    }
    if !AllDigits(s) {
      var i :| 0 <= i < |s| && !IsDigit(s[i]);
      assert !IsDigit(Lower(s)[i]);
    }
  }

  lemma DigitIsNotSpace(c: char)
    requires IsDigit(c) || c == '-' || c == '.'
    ensures !JsSpace(c) && !RustSpace(c)
  {
  }

  lemma WrittenEnds(d: Dec)
    requires WellFormed(d)
    ensures Written(d) != "" && (IsDigit(Written(d)[0]) || Written(d)[0] == '-') && IsDigit(Written(d)[|Written(d)| - 1])
  {
    var u := Unsigned(d.whole, d.frac);
    assert u[|u| - 1] == if d.frac == "" then d.whole[|d.whole| - 1] else d.frac[|d.frac| - 1];
    assert Written(d)[|Written(d)| - 1] == u[|u| - 1];
    assert u[0] == d.whole[0];
  }

  lemma WrittenIsTrimmed(d: Dec)
    requires WellFormed(d)
    ensures Trim(JsSpace, Written(d)) == Written(d) && Trim(RustSpace, Written(d)) == Written(d) && Written(d) != ""
  {
    WrittenEnds(d);
    DigitIsNotSpace(Written(d)[0]);
    DigitIsNotSpace(Written(d)[|Written(d)| - 1]);
  }

  /** Two amounts match exactly when they say the same: the same rational number, or the same word
      up to case. */
  lemma AmountsMatchIff(a: Option<string>, b: Option<string>)
    ensures AmountsMatch(a, b) <==> MeaningOf(a) == MeaningOf(b)
  {
    if MeaningOf(a).Number? && MeaningOf(b).Number? {
      var c := NormalizeWrites(a);
      var d := NormalizeWrites(b);
      ParseWritten(c);
      ParseWritten(d);
      if Denoted(c) == Denoted(d) {
        CanonUnique(c, d);
      }
    } else if MeaningOf(a).Number? {
      NumberIsNotWord(a, b);
    } else if MeaningOf(b).Number? {
      NumberIsNotWord(b, a);
    }
  }

  lemma NumberIsNotWord(a: Option<string>, b: Option<string>)
    requires MeaningOf(a).Number? && MeaningOf(b).Word?
    ensures Normalize(a) != Normalize(b)
  {
    var c := NormalizeWrites(a);
    ParseWritten(c);
    ParseLower(Trim(JsSpace, b.value));
  }

  lemma {:induction false} TrimStartTrims(white: char -> bool, s: string)
    ensures var t := TrimStart(white, s); t != "" ==> !white(t[0])
  {
    if s != "" && white(s[0]) {
      TrimStartTrims(white, s[1..]);
    }
  }

  lemma {:induction false} TrimEndTrims(white: char -> bool, s: string)
    ensures var t := TrimEnd(white, s); t <= s && (t != "" ==> !white(t[|t| - 1]))
  {
    if s != "" && white(s[|s| - 1]) {
      TrimEndTrims(white, s[..|s| - 1]);
    }
  }

  lemma TrimTrims(white: char -> bool, s: string)
    ensures var t := Trim(white, s); t != "" ==> !white(t[0]) && !white(t[|t| - 1])
  {
    TrimStartTrims(white, s);
    TrimEndTrims(white, TrimStart(white, s));
  }

  lemma WordIsTrimmed(s: string)
    requires s != "" && !JsSpace(s[0]) && !JsSpace(s[|s| - 1])
    ensures Trim(JsSpace, Lower(s)) == Lower(s)
  {
    LowerChars(s[0]);
    LowerChars(s[|s| - 1]);
  }

  lemma LowerTwice(s: string)
    ensures Lower(Lower(s)) == Lower(s)
  {
    forall i | 0 <= i < |s| ensures Lower(Lower(s))[i] == Lower(s)[i] {
      LowerChars(s[i]);
    }
  }

  /** Normalizing keeps the meaning, so it is idempotent. */
  lemma NormalizeKeepsMeaning(a: Option<string>)
    ensures MeaningOf(Some(Normalize(a))) == MeaningOf(a)
    ensures Normalize(Some(Normalize(a))) == Normalize(a)
  {
    if MeaningOf(a).Number? {
      var c := NormalizeWrites(a);
      ParseWritten(c);
      WrittenIsTrimmed(c);
    } else {
      var s := Trim(JsSpace, a.value);
      TrimTrims(JsSpace, a.value);
      WordIsTrimmed(s);
      ParseLower(s);
      LowerTwice(s);
    }
    AmountsMatchIff(Some(Normalize(a)), a);
  }

  // ---- the scalers --------------------------------------------------------------------------------------

  function Abs(n: int): nat {
    if n < 0 then -n else n
  }

  /** The digits of a natural number, as toString writes them. */
  function Numeral(n: nat): (s: string)
    ensures FrontStripped(s) && Worth(s) == n
  {
    FromNatCorrect(n, 10);
    if n == 0 then
      WorthZeros(1);
      assert ZeroChars(1) == "0";
      "0"
    else
      Chars(FromNat(n, 10))
  }

  /** BigInt toString. */
  function IntText(n: int): string {
    (if n < 0 then "-" else "") + Numeral(Abs(n))
  }

  function PadStart(s: string, n: nat): string {
    if |s| < n then ZeroChars(n - |s|) + s else s
  }

  /** formatUnitsSafe. */
  function FormatUnits(value: int, decimals: int): string {
    if decimals <= 0 then IntText(value)
    else
      var s := PadStart(Numeral(Abs(value)), decimals + 1);
      var whole := s[..|s| - decimals];
      var frac := StripBack(s[|s| - decimals..]);
      if value < 0 then "-" + Unsigned(whole, frac) else Unsigned(whole, frac)
  }

  /** Matches ^-?\d+$. */
  predicate IsInteger(s: string) {
    Body(s) != "" && AllDigits(Body(s))
  }

  /** baseUnitsToHuman, for a number of decimals that is an integer. */
  function BaseUnitsToHuman(raw: string, decimals: int): string {
    var cleaned := Trim(JsSpace, raw);
    if cleaned == "" || cleaned == "0" then "0"
    else if '.' in cleaned then cleaned
    else if !IsInteger(cleaned) then cleaned
    else if decimals <= 0 then StripFront(cleaned)
    else Scaled(IsNegative(cleaned), StripFront(Body(cleaned)), decimals)
  }

  /** Cutting a padded numeral d places from the right. */
  function Cut(num: string, d: nat): (string, string) {
    var s := PadStart(num, d + 1);
    (s[..|s| - d], s[|s| - d..])
  }

  function WithSign(neg: bool, w: string, g: string): string {
    if neg && Unsigned(w, g) != "0" then "-" + Unsigned(w, g) else Unsigned(w, g)
  }

  /** A numeral with a point set `decimals` places from the right. */
  function Scaled(neg: bool, num: string, decimals: nat): string {
    var (whole, frac) := Cut(num, decimals);
    WithSign(neg, whole, StripBack(frac))
  }

  /** A text that is not an integer comes back as it is, without its outer white space. */
  lemma OtherTextsStay(raw: string, decimals: int)
    requires !IsInteger(Trim(JsSpace, raw))
    ensures BaseUnitsToHuman(raw, decimals) == if Trim(JsSpace, raw) == "" then "0" else Trim(JsSpace, raw)
  {
  }

  lemma PaddedWorth(s: string, w: nat)
    requires AllDigits(s)
    ensures AllDigits(PadStart(s, w)) && Worth(PadStart(s, w)) == Worth(s)
  {
    if |s| < w {
      WorthAppend(ZeroChars(w - |s|), s);
      WorthZeros(w - |s|);
    }
  }

  lemma CutForm(num: string, d: nat)
    requires FrontStripped(num)
    ensures var (w, f) := Cut(num, d);
      FrontStripped(w) && AllDigits(f) && |f| == d && w + f == PadStart(num, d + 1)
  {
    var (w, f) := Cut(num, d);
    if |num| <= d {
      assert w == "0";
    } else {
      assert w[0] == num[0];
    }
  }

  lemma CutWorth(num: string, d: nat)
    requires FrontStripped(num)
    ensures var (w, f) := Cut(num, d);
      FrontStripped(w) && AllDigits(f) && |f| == d && AllDigits(w + f) && Worth(w + f) == Worth(num)
  {
    CutForm(num, d);
    PaddedWorth(num, d + 1);
  }

  /** The decimal that formatUnitsSafe writes. */
  function Formatted(value: int, decimals: int): Dec {
    if decimals <= 0 then Dec(value < 0, Numeral(Abs(value)), "")
    else
      var (w, f) := Cut(Numeral(Abs(value)), decimals);
      Dec(value < 0, w, StripBack(f))
  }

  lemma SignOfAbs(n: int)
    ensures Signed(n < 0, Abs(n)) == n
  {
  }

  lemma StripTail(neg: bool, w: string, f: string)
    requires FrontStripped(w) && AllDigits(f)
    ensures var x := Dec(neg, w, StripBack(f));
      BackStripped(x.frac) && |x.frac| <= |f| && AllDigits(w + f) && Magnitude(x, |f|) == Worth(w + f)
  {
    StripBackKeeps(f);
  }

  lemma CutUnits(neg: bool, num: string, d: nat)
    requires FrontStripped(num)
    ensures var (w, f) := Cut(num, d);
      var x := Dec(neg, w, StripBack(f));
      FrontStripped(w) && BackStripped(x.frac) && |x.frac| <= d && Magnitude(x, d) == Worth(num)
  {
    CutWorth(num, d);
    StripTail(neg, Cut(num, d).0, Cut(num, d).1);
  }

  lemma FormattedUnits(value: int, d: nat)
    requires d > 0
    ensures var x := Formatted(value, d);
      FrontStripped(x.whole) && BackStripped(x.frac) && |x.frac| <= d && Magnitude(x, d) == Abs(value)
  {
    CutUnits(value < 0, Numeral(Abs(value)), d);
  }

  lemma FormattedWhole(value: int)
    ensures var x := Dec(value < 0, Numeral(Abs(value)), "");
      IsCanon(x) && Denoted(x) == Ratio(value, 0)
  {
    var x := Dec(value < 0, Numeral(Abs(value)), "");
    assert x.whole + ("" + ZeroChars(0)) == x.whole;
    SignOfAbs(value);
    ZeroMagnitude(x, 0);
  }

  lemma FormattedFraction(value: int, d: nat)
    requires d > 0
    ensures IsCanon(Formatted(value, d)) && Denoted(Formatted(value, d)) == Ratio(value, d)
  {
    var x := Formatted(value, d);
    FormattedUnits(value, d);
    SignOfAbs(value);
    ZeroMagnitude(x, d);
    AtScale(x, d);
  }

  lemma WrittenWithSign(neg: bool, w: string, g: string)
    ensures Written(Dec(neg, w, g)) == if neg then "-" + Unsigned(w, g) else Unsigned(w, g)
  {
  }

  lemma FormatUnitsWrites(value: int, decimals: int)
    ensures FormatUnits(value, decimals) == Written(Formatted(value, decimals))
  {
    if decimals > 0 {
      var x := Formatted(value, decimals);
      WrittenWithSign(x.neg, x.whole, x.frac);
    }
  }

  /** formatUnitsSafe writes exactly value / 10^decimals, in canonical form; a negative number of
      decimals counts as zero. */
  lemma FormatUnitsDenotes(value: int, decimals: int)
    ensures var x := Formatted(value, decimals);
      && FormatUnits(value, decimals) == Written(x) && IsCanon(x)
      && Denoted(x) == Ratio(value, if decimals < 0 then 0 else decimals)
  {
    FormatUnitsWrites(value, decimals);
    if decimals <= 0 {
      FormattedWhole(value);
    } else {
      FormattedFraction(value, decimals);
    }
  }

  lemma IntTextIsWritten(value: int)
    ensures WellFormed(Dec(value < 0, Numeral(Abs(value)), ""))
    ensures IntText(value) == Written(Dec(value < 0, Numeral(Abs(value)), ""))
  {
  }

  lemma IntTextParts(value: int)
    ensures var s := IntText(value);
      && IsInteger(s) && Body(s) == Numeral(Abs(value)) && (IsNegative(s) <==> value < 0)
  {
    IntTextIsWritten(value);
    BodyOfWritten(Dec(value < 0, Numeral(Abs(value)), ""));
  }

  lemma IntTextIsZero(value: int)
    ensures IntText(value) == "0" <==> value == 0
  {
    IntTextParts(value);
    FrontZero(Numeral(Abs(value)));
    assert Body("0") == "0" && !IsNegative("0");
  }

  lemma IntTextForm(value: int)
    ensures var s := IntText(value);
      && Trim(JsSpace, s) == s && s != "" && '.' !in s && IsInteger(s)
      && Body(s) == Numeral(Abs(value)) && (IsNegative(s) <==> value < 0)
      && (s == "0" <==> value == 0)
  {
    IntTextIsWritten(value);
    WrittenIsTrimmed(Dec(value < 0, Numeral(Abs(value)), ""));
    IntTextParts(value);
    IntegerIsNotFraction(IntText(value));
    IntTextIsZero(value);
  }

  lemma FormatZero(decimals: int)
    ensures FormatUnits(0, decimals) == "0"
  {
    FormatUnitsDenotes(0, decimals);
    var x := Formatted(0, decimals);
    if decimals > 0 {
      FormattedUnits(0, decimals);
      ZeroMagnitude(x, decimals);
    }
  }

  lemma FormatNonZero(value: int, d: nat)
    requires value != 0 && d > 0
    ensures Unsigned(Formatted(value, d).whole, Formatted(value, d).frac) != "0"
  {
    FormattedUnits(value, d);
    ZeroMagnitude(Formatted(value, d), d);
  }

  lemma NoDot(s: string)
    requires AllDigits(s)
    ensures '.' !in s && '-' !in s
  {
  }

  lemma IntegerIsNotFraction(s: string)
    requires IsInteger(s)
    ensures '.' !in s
  {
    NoDot(Body(s));
    assert s == (if IsNegative(s) then "-" else "") + Body(s);
  }

  lemma BaseUnitsScaled(raw: string, s: string, decimals: nat)
    requires s == Trim(JsSpace, raw) && IsInteger(s) && s != "0" && decimals > 0
    ensures BaseUnitsToHuman(raw, decimals) == Scaled(IsNegative(s), StripFront(Body(s)), decimals)
  {
    IntegerIsNotFraction(s);
  }

  lemma BaseUnitsOfText(value: int, decimals: nat)
    requires value != 0 && decimals > 0
    ensures BaseUnitsToHuman(IntText(value), decimals) == Written(Formatted(value, decimals))
  {
    IntTextForm(value);
    StripFrontKeeps(Numeral(Abs(value)));
    FormatNonZero(value, decimals);
    BaseUnitsScaled(IntText(value), IntText(value), decimals);
  }

  lemma BaseUnitsWhole(value: int, decimals: int)
    requires value != 0 && decimals <= 0
    ensures BaseUnitsToHuman(IntText(value), decimals) == IntText(value)
  {
    IntTextForm(value);
    StripFrontOfText(value);
  }

  /** The two scalers agree on every integer and every number of decimals. */
  lemma ScalersAgree(value: int, decimals: int)
    ensures BaseUnitsToHuman(IntText(value), decimals) == FormatUnits(value, decimals)
  {
    FormatUnitsDenotes(value, decimals);
    if value == 0 {
      IntTextForm(value);
      FormatZero(decimals);
    } else if decimals <= 0 {
      BaseUnitsWhole(value, decimals);
    } else {
      BaseUnitsOfText(value, decimals);
    }
  }

  lemma StripFrontOfText(value: int)
    ensures StripFront(IntText(value)) == IntText(value)
  {
    StripFrontKeeps(Numeral(Abs(value)));
  }

  lemma MeaningOfWritten(d: Dec)
    requires WellFormed(d)
    ensures MeaningOf(Some(Written(d))) == Number(Denoted(d))
  {
    WrittenIsTrimmed(d);
    ParseWritten(d);
  }

  function Sane(neg: bool, w: string, g: string): Dec {
    Dec(neg && Unsigned(w, g) != "0", w, g)
  }

  /** Dropping the sign of zero changes nothing. */
  lemma SaneUnits(neg: bool, w: string, g: string, d: nat)
    requires FrontStripped(w) && BackStripped(g) && |g| <= d
    ensures Units(Sane(neg, w, g), d) == Signed(neg, Magnitude(Dec(neg, w, g), d))
  {
    ZeroMagnitude(Dec(neg, w, g), d);
    assert Magnitude(Sane(neg, w, g), d) == Magnitude(Dec(neg, w, g), d);
  }

  lemma WithSignDenotes(neg: bool, w: string, g: string, d: nat)
    requires FrontStripped(w) && BackStripped(g) && |g| <= d
    ensures MeaningOf(Some(WithSign(neg, w, g))) == Number(Ratio(Units(Sane(neg, w, g), d), d))
  {
    AtScale(Sane(neg, w, g), d);
    MeaningOfWritten(Sane(neg, w, g));
    assert WithSign(neg, w, g) == Written(Sane(neg, w, g));
  }

  /** A scaled numeral denotes its worth divided by 10^decimals. */
  lemma ScaledDenotes(neg: bool, num: string, decimals: nat)
    requires FrontStripped(num) && decimals > 0
    ensures MeaningOf(Some(Scaled(neg, num, decimals))) == Number(Ratio(Signed(neg, Worth(num)), decimals))
  {
    CutUnits(neg, num, decimals);
    SaneUnits(neg, Cut(num, decimals).0, StripBack(Cut(num, decimals).1), decimals);
    WithSignDenotes(neg, Cut(num, decimals).0, StripBack(Cut(num, decimals).1), decimals);
  }

  lemma RatioZero(k: nat)
    ensures Ratio(0, k) == 0.0
  {
    assert 0.0 / Pow(10, k) as real == 0.0;
  }

  lemma ZeroText(k: nat)
    ensures MeaningOf(Some("0")) == Number(Ratio(Signed(IsNegative("0"), Worth(Body("0"))), k))
  {
    NoughtDenotes();
    MeaningOfWritten(NOUGHT);
    assert "0" == ZeroChars(1);
    WorthZeros(1);
    RatioZero(k);
  }

  /** Every integer text, with or without a sign or superfluous zeros, is rendered as a text that
      denotes it divided by 10^decimals. */
  lemma BaseUnitsDenotes(raw: string, decimals: int)
    requires IsInteger(Trim(JsSpace, raw))
    ensures var s := Trim(JsSpace, raw);
      MeaningOf(Some(BaseUnitsToHuman(raw, decimals))) ==
      Number(Ratio(Signed(IsNegative(s), Worth(Body(s))), if decimals < 0 then 0 else decimals))
  {
    var s := Trim(JsSpace, raw);
    if s == "0" {
      ZeroText(if decimals < 0 then 0 else decimals);
    } else if decimals <= 0 {
      IntegerIsNotFraction(s);
      WholeDenotes(s);
    } else {
      StripFrontKeeps(Body(s));
      BaseUnitsScaled(raw, s, decimals);
      ScaledDenotes(IsNegative(s), StripFront(Body(s)), decimals);
    }
  }

  lemma WholeDenotes(s: string)
    requires IsInteger(s)
    ensures MeaningOf(Some(StripFront(s))) == Number(Ratio(Signed(IsNegative(s), Worth(Body(s))), 0))
  {
    var d := Dec(IsNegative(s), if IsNegative(s) then Body(s) else StripFront(s), "");
    StripFrontKeeps(Body(s));
    assert Written(d) == StripFront(s);
    assert d.whole + ("" + ZeroChars(0)) == d.whole;
    MeaningOfWritten(d);
  }

  /** The amount the verifier records matches a claimed amount exactly when the claim denotes the
      transferred base units divided by 10^decimals. */
  lemma RecordedAmountMatches(value: int, decimals: nat, claim: Option<string>)
    ensures AmountsMatch(Some(FormatUnits(value, decimals)), claim) <==> MeaningOf(claim) == Number(Ratio(value, decimals))
  {
    var x := Formatted(value, decimals);
    FormatUnitsDenotes(value, decimals);
    ParseWritten(x);
    WrittenIsTrimmed(x);
    AmountsMatchIff(Some(FormatUnits(value, decimals)), claim);
  }

  // ---- the Rust parser ----------------------------------------------------------------------------------

  const XLM_DECIMALS: nat := 7
  const STROOPS_PER_XLM: nat := 10_000_000
  const U128_SIZE: nat := 0x1_0000_0000_0000_0000_0000_0000_0000_0000

  datatype AmountError =
    | AmountIsEmpty
    | AmountMustBePositive
    | InvalidFormat
    | InvalidWhole
    | TooManyDecimals
    | InvalidFraction
    | AmountTooLarge

  /** The length of a string in UTF-8, as str::len counts. */
  function Utf8Length(s: string): (n: nat)
    ensures n >= |s|
    ensures AllDigits(s) ==> n == |s|
  {
    if s == "" then 0
    else
      var c := s[0] as int;
      (if c < 0x80 then 1 else if c < 0x800 then 2 else if c < 0x10000 then 3 else 4) + Utf8Length(s[1..])
  }

  /** The number of bytes of a character, section 3 of RFC 3629. */
  lemma Utf8OfChar(c: char, s: string)
    ensures Utf8Length([c] + s) == Utf8Length(s) +
      if c <= '\U{7F}' then 1 else if c <= '\U{7FF}' then 2 else if c <= '\U{FFFF}' then 3 else 4
  {
    assert ([c] + s)[1..] == s;
  }

  /** Splits at the first dot; the second part is what follows it, if there is one. */
  function SplitDot(s: string): (r: (string, Option<string>))
    ensures '.' !in r.0
    ensures s == r.0 + if r.1.Some? then "." + r.1.value else ""
  {
    if s == "" then ("", None)
    else if s[0] == '.' then ("", Some(s[1..]))
    else
      var (a, b) := SplitDot(s[1..]);
      (s[..1] + a, b)
  }

  function PadEnd(s: string, n: nat): string {
    if |s| < n then s + ZeroChars(n - |s|) else s
  }

  /** The checked arithmetic at its end. */
  function CheckedStroops(whole: string, frac: string): Result<nat, AmountError>
    requires AllDigits(whole) && AllDigits(frac)
  {
    if Worth(whole) >= U128_SIZE then Err(AmountTooLarge)
    else
      assert AllDigits(PadEnd(frac, XLM_DECIMALS));
      var product := Worth(whole) * STROOPS_PER_XLM;
      var sum := product + Worth(PadEnd(frac, XLM_DECIMALS));
      if product >= U128_SIZE || sum >= U128_SIZE || sum == 0 then Err(AmountMustBePositive)
      else Ok(sum)
  }

  /** parse_amount_stroops. */
  function ParseStroops(amount: string): Result<nat, AmountError> {
    var s := Trim(RustSpace, amount);
    if s == "" then Err(AmountIsEmpty)
    else if s[0] == '-' then Err(AmountMustBePositive)
    else
      var (whole, rest) := SplitDot(s);
      if rest.Some? && '.' in rest.value then Err(InvalidFormat)
      else if whole == "" || !AllDigits(whole) then Err(InvalidWhole)
      else
        var frac := if rest.Some? then rest.value else "";
        if Utf8Length(frac) > XLM_DECIMALS then Err(TooManyDecimals)
        else if !AllDigits(frac) then Err(InvalidFraction)
        else CheckedStroops(whole, frac)
  }

  /** The string is digits, or digits, a dot and up to seven digits, possibly none. */
  predicate IsAmount(s: string, d: Dec) {
    && WellFormed(d) && !d.neg && |d.frac| <= XLM_DECIMALS
    && ((d.frac == "" && s == d.whole) || s == d.whole + "." + d.frac)
  }

  lemma {:induction false} SplitWithDot(whole: string, frac: string)
    requires '.' !in whole
    ensures SplitDot(whole + "." + frac) == (whole, Some(frac))
  {
    var s := whole + "." + frac;
    if whole == "" {
      assert s[1..] == frac;
    } else {
      SplitWithDot(whole[1..], frac);
      assert s[1..] == whole[1..] + "." + frac && s[0] == whole[0];
      assert whole == s[..1] + whole[1..];
    }
  }

  lemma {:induction false} SplitWithout(whole: string)
    requires '.' !in whole
    ensures SplitDot(whole) == (whole, None)
  {
    if whole != "" {
      SplitWithout(whole[1..]);
      assert whole == whole[..1] + whole[1..];
    }
  }

  lemma SplitAtDot(whole: string, frac: string)
    requires '.' !in whole
    ensures SplitDot(whole + "." + frac) == (whole, Some(frac)) && SplitDot(whole) == (whole, None)
  {
    SplitWithDot(whole, frac);
    SplitWithout(whole);
  }

  /** The number of stroops an amount stands for. */
  function Stroops(d: Dec): nat
    requires WellFormed(d) && |d.frac| <= XLM_DECIMALS
  {
    Magnitude(d, XLM_DECIMALS)
  }

  lemma StroopsParts(d: Dec)
    requires WellFormed(d) && |d.frac| <= XLM_DECIMALS
    ensures AllDigits(PadEnd(d.frac, XLM_DECIMALS))
    ensures Stroops(d) == Worth(d.whole) * STROOPS_PER_XLM + Worth(PadEnd(d.frac, XLM_DECIMALS))
  {
    MagnitudeParts(d, XLM_DECIMALS);
    SevenPlaces();
    assert PadEnd(d.frac, XLM_DECIMALS) == d.frac + ZeroChars(XLM_DECIMALS - |d.frac|);
  }

  lemma SevenPlaces()
    ensures Pow(10, XLM_DECIMALS) == STROOPS_PER_XLM
  {
    PowAdd(10, 3, 4);
    assert Pow(10, 3) == 1000 && Pow(10, 4) == 10000;
  }

  lemma SplitOfAmount(s: string, d: Dec)
    requires IsAmount(s, d)
    ensures s != "" && s[0] != '-' && SplitDot(s).0 == d.whole
    ensures var rest := SplitDot(s).1; if rest.Some? then rest.value == d.frac && '.' !in rest.value else d.frac == ""
  {
    NoDot(d.whole);
    NoDot(d.frac);
    SplitAtDot(d.whole, d.frac);
    assert s[0] == d.whole[0];
  }

  /** What the parser answers on every amount it can read. */
  lemma ParseOfAmount(amount: string, d: Dec)
    requires IsAmount(Trim(RustSpace, amount), d)
    ensures ParseStroops(amount) ==
      if Worth(d.whole) >= U128_SIZE then Err(AmountTooLarge)
      else if Stroops(d) == 0 || Stroops(d) >= U128_SIZE then Err(AmountMustBePositive)
      else Ok(Stroops(d))
  {
    SplitOfAmount(Trim(RustSpace, amount), d);
    ChecksOut(d);
    assert ParseStroops(amount) == CheckedStroops(d.whole, d.frac);
  }

  lemma ChecksOut(d: Dec)
    requires WellFormed(d) && |d.frac| <= XLM_DECIMALS
    ensures CheckedStroops(d.whole, d.frac) ==
      if Worth(d.whole) >= U128_SIZE then Err(AmountTooLarge)
      else if Stroops(d) == 0 || Stroops(d) >= U128_SIZE then Err(AmountMustBePositive)
      else Ok(Stroops(d))
  {
    StroopsParts(d);
  }

  /** What a string is that gets past the format checks. */
  lemma ReadableIsAmount(amount: string)
    requires ParseStroops(amount).Ok? || ParseStroops(amount) == Err(AmountTooLarge)
    ensures exists d :: IsAmount(Trim(RustSpace, amount), d)
  {
    var s := Trim(RustSpace, amount);
    var (whole, rest) := SplitDot(s);
    var d := Dec(false, whole, if rest.Some? then rest.value else "");
    assert IsAmount(s, d);
  }

  /** Accepted are exactly the amounts with at most seven decimals that are worth at least one
      stroop and fit in 128 bits. */
  lemma ParseStroopsIff(amount: string, v: nat)
    ensures ParseStroops(amount) == Ok(v) <==>
      0 < v < U128_SIZE && exists d :: IsAmount(Trim(RustSpace, amount), d) && Stroops(d) == v
  {
    if ParseStroops(amount) == Ok(v) {
      ReadableIsAmount(amount);
      var d :| IsAmount(Trim(RustSpace, amount), d);
      ParseOfAmount(amount, d);
    }
    forall d | IsAmount(Trim(RustSpace, amount), d) && Stroops(d) == v && 0 < v < U128_SIZE
      ensures ParseStroops(amount) == Ok(v)
    {
      StroopsBoundWhole(d);
      ParseOfAmount(amount, d);
    }
  }

  lemma StroopsBoundWhole(d: Dec)
    requires WellFormed(d) && |d.frac| <= XLM_DECIMALS
    ensures Worth(d.whole) <= Stroops(d)
  {
    StroopsParts(d);
  }

  /** An accepted amount denotes exactly the parsed stroops divided by 10^7. */
  lemma ParsedDenotes(amount: string, d: Dec)
    requires IsAmount(Trim(RustSpace, amount), d) && ParseStroops(amount).Ok?
    ensures Denoted(d) == Ratio(ParseStroops(amount).value, 7)
  {
    ParseOfAmount(amount, d);
    AtScale(d, XLM_DECIMALS);
  }

  /** Parsing the seven-decimal rendering of any positive 128-bit number of stroops gives it back,
      whichever of the two scalers rendered it. */
  lemma StroopsRoundTrip(n: nat)
    requires 0 < n < U128_SIZE
    ensures ParseStroops(FormatUnits(n, 7)) == Ok(n)
    ensures ParseStroops(BaseUnitsToHuman(IntText(n), 7)) == Ok(n)
  {
    var d := Formatted(n, XLM_DECIMALS);
    FormatUnitsDenotes(n, XLM_DECIMALS);
    FormattedUnits(n, XLM_DECIMALS);
    WrittenIsTrimmed(d);
    assert IsAmount(FormatUnits(n, XLM_DECIMALS), d);
    StroopsBoundWhole(d);
    ParseOfAmount(FormatUnits(n, XLM_DECIMALS), d);
    ScalersAgree(n, XLM_DECIMALS);
  }

  lemma PowDoubles(k: nat, v: nat)
    requires Pow(2, k) == v
    ensures Pow(2, 2 * k) == v * v
  {
    PowAdd(2, k, k);
  }

  lemma U128IsPow()
    ensures Pow(2, 128) == U128_SIZE
  {
    assert Pow(2, 4) == 16;
    PowDoubles(4, 16);
    PowDoubles(8, 0x100);
    PowDoubles(16, 0x1_0000);
    PowDoubles(32, 0x1_0000_0000);
    PowDoubles(64, 0x1_0000_0000_0000_0000);
  }

  lemma SplitOf(s: string, whole: string, frac: Option<string>)
    requires '.' !in whole && s == if frac.Some? then whole + "." + frac.value else whole
    ensures SplitDot(s) == (whole, frac)
    ensures whole != "" ==> s != "" && s[0] == whole[0]
    ensures whole == "" && frac.Some? ==> s != "" && s[0] == '.'
    ensures whole == "" && frac.None? ==> s == ""
  {
    SplitAtDot(whole, if frac.Some? then frac.value else "");
  }

  lemma NotAllDigits(s: string)
    ensures AllDigits(s) <==> !exists i :: 0 <= i < |s| && !IsDigit(s[i])
  {
  }

  lemma DigitsHaveNoDot(s: string)
    requires AllDigits(s)
    ensures '.' !in s && (s != "" ==> s[0] != '-')
  {
  }

  /** Which error is given: for a text that is, but for outer white space, `whole` alone or `whole`, its
      first dot and `frac`, the first of these reasons that applies. */
  lemma WhyRefused(amount: string, whole: string, frac: Option<string>)
    requires '.' !in whole
    requires Trim(RustSpace, amount) == if frac.Some? then whole + "." + frac.value else whole
    ensures var f := if frac.Some? then frac.value else "";
      ParseStroops(amount) ==
        if whole == "" && frac.None? then Err(AmountIsEmpty)
        else if whole != "" && whole[0] == '-' then Err(AmountMustBePositive)
        else if '.' in f then Err(InvalidFormat)
        else if whole == "" || exists i :: 0 <= i < |whole| && !IsDigit(whole[i]) then Err(InvalidWhole)
        else if Utf8Length(f) > 7 then Err(TooManyDecimals)
        else if exists i :: 0 <= i < |f| && !IsDigit(f[i]) then Err(InvalidFraction)
        else if Worth(whole) >= Pow(2, 128) then Err(AmountTooLarge)
        else if !(0 < Stroops(Dec(false, whole, f)) < Pow(2, 128)) then Err(AmountMustBePositive)
        else Ok(Stroops(Dec(false, whole, f)))
  {
    var f := if frac.Some? then frac.value else "";
    SplitOf(Trim(RustSpace, amount), whole, frac);
    NotAllDigits(whole);
    NotAllDigits(f);
    U128IsPow();
    if whole != "" && AllDigits(whole) && AllDigits(f) && |f| <= 7 {
      DigitsHaveNoDot(whole);
      DigitsHaveNoDot(f);
      assert IsAmount(Trim(RustSpace, amount), Dec(false, whole, f));
      ParseOfAmount(amount, Dec(false, whole, f));
    }
  }

  /** The message "must be positive" is also the answer to an amount that is too large only after
      scaling: among the readable amounts it is given exactly to zero and to those. */
  lemma NotPositiveIff(amount: string, d: Dec)
    requires IsAmount(Trim(RustSpace, amount), d)
    ensures ParseStroops(amount) == Err(AmountMustBePositive) <==>
      Stroops(d) == 0 || (Stroops(d) >= U128_SIZE && Worth(d.whole) < U128_SIZE)
  {
    StroopsBoundWhole(d);
    ParseOfAmount(amount, d);
  }

  lemma WholeAmount(n: nat)
    ensures var d := Dec(false, Numeral(n), "");
      IsAmount(Trim(RustSpace, IntText(n)), d) && Worth(d.whole) == n && Stroops(d) == n * STROOPS_PER_XLM
  {
    var d := Dec(false, Numeral(n), "");
    WrittenIsTrimmed(d);
    StroopsParts(d);
    WorthZeros(XLM_DECIMALS);
    assert PadEnd("", XLM_DECIMALS) == ZeroChars(XLM_DECIMALS);
  }

  /** The largest 128-bit number is one such amount: positive, and refused as not positive. */
  lemma LargestIsNotPositive()
    ensures ParseStroops(IntText(U128_SIZE - 1)) == Err(AmountMustBePositive)
  {
    WholeAmount(U128_SIZE - 1);
    NotPositiveIff(IntText(U128_SIZE - 1), Dec(false, Numeral(U128_SIZE - 1), ""));
  }
}
