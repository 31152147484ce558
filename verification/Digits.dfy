/** Positional numerals, most significant digit first, in any base of at least two.
    Shared by the base-58 and the decimal modules. */
module Digits {

  function Pow(b: nat, n: nat): (p: nat)
    ensures b >= 1 ==> p >= 1
  {
    if n == 0 then 1
    else
      assert b >= 1 ==> b * Pow(b, n - 1) >= 1 by { if b >= 1 { MulMono(1, b, Pow(b, n - 1)); } }
      b * Pow(b, n - 1)
  }

  predicate IsDigits(ds: seq<nat>, b: nat) {
    forall i :: 0 <= i < |ds| ==> ds[i] < b
  }

  function Value(ds: seq<nat>, b: nat): nat {
    if ds == [] then 0 else Value(ds[..|ds| - 1], b) * b + ds[|ds| - 1]
  }

  function Zeros(n: nat): (zs: seq<nat>)
    ensures |zs| == n && forall i :: 0 <= i < n ==> zs[i] == 0
  {
    seq(n, _ => 0)
  }

  /** The number of zeros in front. */
  function LeadingZeros(ds: seq<nat>): (n: nat)
    ensures n <= |ds|
    ensures forall i :: 0 <= i < n ==> ds[i] == 0
    ensures n < |ds| ==> ds[n] != 0
  {
    if ds != [] && ds[0] == 0 then 1 + LeadingZeros(ds[1..]) else 0
  }

  function Strip(ds: seq<nat>): (r: seq<nat>)
    ensures Canonical(r)
    ensures ds == Zeros(LeadingZeros(ds)) + r
  {
    ds[LeadingZeros(ds)..]
  }

  /** No zero in front; the canonical numeral of zero is the empty one. */
  predicate Canonical(ds: seq<nat>) {
    ds != [] ==> ds[0] != 0
  }

  /** The canonical numeral of n. */
  function FromNat(n: nat, b: nat): seq<nat>
    requires b >= 2
    decreases n
  {
    if n == 0 then [] else DivShrinks(n, b); FromNat(n / b, b) + [n % b]
  }

  lemma DivShrinks(n: nat, b: nat)
    requires b >= 2 && n > 0
    ensures 0 <= n / b < n && n == (n / b) * b + n % b && 0 <= n % b < b
  {
    var q := n / b;
    assert n == b * q + n % b;
    MulMono(2, b, q);
  }

  lemma MulMono(x: nat, y: nat, z: nat)
    requires x <= y
    ensures x * z <= y * z && z * x <= z * y
  {
    assert (y - x) * z >= 0;
  }

  lemma MulAssociates(x: nat, y: nat, z: nat)
    ensures x * (y * z) == (x * y) * z
  {
  }

  lemma {:induction false} PowAdd(b: nat, m: nat, n: nat)
    ensures Pow(b, m + n) == Pow(b, m) * Pow(b, n)
  {
    if m > 0 {
      PowAdd(b, m - 1, n);
      MulAssociates(b, Pow(b, m - 1), Pow(b, n));
    }
  }

  lemma {:induction false} ValueAppend(x: seq<nat>, y: seq<nat>, b: nat)
    ensures Value(x + y, b) == Value(x, b) * Pow(b, |y|) + Value(y, b)
  {
    if y == [] {
      assert x + y == x;
    } else {
      var y', d := y[..|y| - 1], y[|y| - 1];
      ValueAppend(x, y', b);
      ValueSnoc(x + y', d, b);
      assert x + y == x + y' + [d];
      Regroup(Value(x, b), Pow(b, |y'|), Value(y', b), b);
    }
  }

  lemma ValueSnoc(x: seq<nat>, d: nat, b: nat)
    ensures Value(x + [d], b) == Value(x, b) * b + d
  {
    assert (x + [d])[..|x|] == x;
  }

  lemma Regroup(u: nat, p: nat, v: nat, b: nat)
    ensures (u * p + v) * b == u * (b * p) + v * b
  {
    assert (u * p) * b == u * (b * p);
  }

  lemma ValueZeros(n: nat, b: nat)
    ensures Value(Zeros(n), b) == 0
  {
    if n > 0 {
      assert Zeros(n)[..n - 1] == Zeros(n - 1);
      ValueZeros(n - 1, b);
    }
  }

  lemma ValueStrip(ds: seq<nat>, b: nat)
    ensures Value(Strip(ds), b) == Value(ds, b)
  {
    var z := LeadingZeros(ds);
    ValueAppend(Zeros(z), Strip(ds), b);
    ValueZeros(z, b);
  }

  lemma {:induction false} ValueBound(ds: seq<nat>, b: nat)
    requires b >= 1 && IsDigits(ds, b)
    ensures Value(ds, b) < Pow(b, |ds|)
  {
    if ds != [] {
      ValueBound(ds[..|ds| - 1], b);
      MulMono(Value(ds[..|ds| - 1], b) + 1, Pow(b, |ds| - 1), b);
    }
  }

  lemma QuotientUnique(q: nat, r: nat, q': nat, r': nat, b: nat)
    requires r < b && r' < b && q * b + r == q' * b + r'
    ensures q == q' && r == r'
  {
    if q < q' { MulMono(q + 1, q', b); }
    if q' < q { MulMono(q' + 1, q, b); }
  }

  /** Numerals of one length are determined by their value. */
  lemma {:induction false} SameLengthUnique(x: seq<nat>, y: seq<nat>, b: nat)
    requires IsDigits(x, b) && IsDigits(y, b) && |x| == |y|
    requires Value(x, b) == Value(y, b)
    ensures x == y
  {
    if x != [] {
      var n := |x| - 1;
      QuotientUnique(Value(x[..n], b), x[n], Value(y[..n], b), y[n], b);
      SameLengthUnique(x[..n], y[..n], b);
      assert x == x[..n] + [x[n]] && y == y[..n] + [y[n]];
    }
  }

  /** Canonical numerals are determined by their value. */
  lemma CanonicalUnique(x: seq<nat>, y: seq<nat>, b: nat)
    requires b >= 2 && IsDigits(x, b) && IsDigits(y, b) && Canonical(x) && Canonical(y)
    requires Value(x, b) == Value(y, b)
    ensures x == y
  {
    if |x| > |y| { PadsAlike(y, x, b); } else { PadsAlike(x, y, b); }
  }

  lemma PadsAlike(x: seq<nat>, y: seq<nat>, b: nat)
    requires b >= 2 && IsDigits(x, b) && IsDigits(y, b) && Canonical(y) && |x| <= |y|
    requires Value(x, b) == Value(y, b)
    ensures x == y
  {
    var z := Zeros(|y| - |x|);
    ValueAppend(z, x, b);
    ValueZeros(|z|, b);
    var x' := z + x;
    assert IsDigits(x', b) by {
      assert forall i :: 0 <= i < |x'| ==> x'[i] == if i < |z| then 0 else x[i - |z|];
    }
    assert z != [] ==> x'[0] == 0;
    SameLengthUnique(x', y, b);
  }

  lemma {:induction false} FromNatCorrect(n: nat, b: nat)
    requires b >= 2
    ensures Value(FromNat(n, b), b) == n
    ensures IsDigits(FromNat(n, b), b) && Canonical(FromNat(n, b))
    decreases n
  {
    if n > 0 {
      DivShrinks(n, b);
      FromNatCorrect(n / b, b);
      assert FromNat(n, b)[..|FromNat(n, b)| - 1] == FromNat(n / b, b);
      if FromNat(n / b, b) == [] { assert n / b == 0; }
    }
  }

  lemma StripUnique(ds: seq<nat>, m: seq<nat>, b: nat)
    requires b >= 2 && IsDigits(ds, b) && IsDigits(m, b) && Canonical(m) && Value(m, b) == Value(ds, b)
    ensures m == Strip(ds)
  {
    ValueStrip(ds, b);
    CanonicalUnique(m, Strip(ds), b);
  }

  lemma FromNatOfValue(ds: seq<nat>, b: nat)
    requires b >= 2 && IsDigits(ds, b)
    ensures FromNat(Value(ds, b), b) == Strip(ds)
  {
    FromNatCorrect(Value(ds, b), b);
    StripUnique(ds, FromNat(Value(ds, b), b), b);
  }

  /** Changes the base from b to c and keeps the count of leading zeros, as base-58
      encoders and decoders do. */
  function Rebase(ds: seq<nat>, b: nat, c: nat): seq<nat>
    requires c >= 2
  {
    Zeros(LeadingZeros(ds)) + FromNat(Value(ds, b), c)
  }

  lemma PaddedNumeral(z: nat, m: seq<nat>, c: nat)
    requires Canonical(m) && IsDigits(m, c) && c >= 1
    ensures IsDigits(Zeros(z) + m, c) && LeadingZeros(Zeros(z) + m) == z && Value(Zeros(z) + m, c) == Value(m, c)
  {
    ValueAppend(Zeros(z), m, c);
    ValueZeros(z, c);
    LeadingZerosOfPadded(z, m);
  }

  lemma RebaseRoundTrip(ds: seq<nat>, b: nat, c: nat)
    requires b >= 2 && c >= 2 && IsDigits(ds, b)
    ensures IsDigits(Rebase(ds, b, c), c)
    ensures Rebase(Rebase(ds, b, c), c, b) == ds
  {
    FromNatCorrect(Value(ds, b), c);
    PaddedNumeral(LeadingZeros(ds), FromNat(Value(ds, b), c), c);
    FromNatOfValue(ds, b);
  }

  lemma LeadingZerosOfPadded(z: nat, m: seq<nat>)
    requires Canonical(m)
    ensures LeadingZeros(Zeros(z) + m) == z
  {
    var r := Zeros(z) + m;
    var k := LeadingZeros(r);
    assert forall i :: 0 <= i < z ==> r[i] == 0;
    assert m != [] ==> r[z] == m[0] != 0;
  }

  // ---- numerals with the least significant digit first -----------------------------

  function Reversed(ds: seq<nat>): (r: seq<nat>)
    ensures |r| == |ds|
    ensures forall i :: 0 <= i < |ds| ==> r[i] == ds[|ds| - 1 - i]
  {
    seq(|ds|, i requires 0 <= i < |ds| => ds[|ds| - 1 - i])
  }

  function LowFirst(ds: seq<nat>, b: nat): nat {
    Value(Reversed(ds), b)
  }

  lemma ValueOne(d: nat, b: nat)
    ensures Value([d], b) == d
  {
    ValueSnoc([], d, b);
    assert [] + [d] == [d];
  }

  lemma ReversedSnoc(ds: seq<nat>, d: nat)
    ensures Reversed(ds + [d]) == [d] + Reversed(ds)
  {
  }

  lemma LowFirstSnoc(ds: seq<nat>, d: nat, b: nat)
    ensures LowFirst(ds + [d], b) == LowFirst(ds, b) + d * Pow(b, |ds|)
  {
    ReversedSnoc(ds, d);
    ValueAppend([d], Reversed(ds), b);
    ValueOne(d, b);
  }

  lemma LowFirstEmpty(b: nat)
    ensures LowFirst([], b) == 0
  {
    assert Reversed([]) == [];
  }

  lemma ReversedPad(ds: seq<nat>, k: nat)
    ensures Reversed(ds + Zeros(k)) == Zeros(k) + Reversed(ds)
  {
  }

  /** A little-endian numeral that is worth at least its top power of the base has no
      superfluous digit. */
  lemma ShortestForm(ds: seq<nat>, b: nat)
    requires b >= 2 && IsDigits(ds, b)
    requires ds != [] ==> LowFirst(ds, b) >= Pow(b, |ds| - 1)
    ensures Reversed(ds) == FromNat(LowFirst(ds, b), b)
  {
    var r := Reversed(ds);
    FromNatOfValue(r, b);
    if r != [] { WorthItsLength(r, b); }
    assert Canonical(r) ==> Strip(r) == r;
  }

  lemma WorthItsLength(r: seq<nat>, b: nat)
    requires b >= 2 && IsDigits(r, b) && r != [] && Value(r, b) >= Pow(b, |r| - 1)
    ensures Canonical(r)
  {
    var rest := r[1..];
    assert r == [r[0]] + rest;
    ValueAppend([r[0]], rest, b);
    ValueOne(r[0], b);
    assert r[0] == 0 ==> Value(r, b) == Value(rest, b);
    ValueBound(rest, b);
  }
}
