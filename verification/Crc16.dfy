/** CRC16-XModem of apps/backend/src/utils/publicKey.ts. */
module Crc16 {
  import Base32

  type Bytes = seq<bv8>

  // ---- folding any register over any data --------------------------------------------------

  function Fold<R, B>(f: (R, B) -> R, start: R, data: seq<B>): R {
    if data == [] then start else f(Fold(f, start, data[..|data| - 1]), data[|data| - 1])
  }

  lemma {:induction false} FoldAppend<R, B>(f: (R, B) -> R, start: R, x: seq<B>, y: seq<B>)
    ensures Fold(f, start, x + y) == Fold(f, Fold(f, start, x), y)
    decreases |y|
  {
    if y == [] {
      assert x + y == x;
    } else {
      var n := |y| - 1;
      FoldAppend(f, start, x, y[..n]);
      assert (x + y)[..|x| + n] == x + y[..n];
    }
  }

  lemma {:induction false} FoldInjective<R, B>(f: (R, B) -> R, r: R, s: R, data: seq<B>)
    requires forall p, q, b :: f(p, b) == f(q, b) ==> p == q
    requires Fold(f, r, data) == Fold(f, s, data)
    ensures r == s
    decreases |data|
  {
    if data != [] { FoldInjective(f, r, s, data[..|data| - 1]); }
  }

  function Zip<B>(plus: (B, B) -> B, x: seq<B>, y: seq<B>): (z: seq<B>)
    requires |x| == |y|
    ensures |z| == |x| && forall i :: 0 <= i < |x| ==> z[i] == plus(x[i], y[i])
  {
    seq(|x|, i requires 0 <= i < |x| => plus(x[i], y[i]))
  }

  /** A step that is a homomorphism makes the whole fold one. */
  lemma {:induction false} FoldHomomorphic<R, B>(f: (R, B) -> R, add: (R, R) -> R, plus: (B, B) -> B,
                                                 r: R, s: R, x: seq<B>, y: seq<B>)
    requires forall p, q, b, c :: f(add(p, q), plus(b, c)) == add(f(p, b), f(q, c))
    requires |x| == |y|
    ensures Fold(f, add(r, s), Zip(plus, x, y)) == add(Fold(f, r, x), Fold(f, s, y))
    decreases |x|
  {
    if x != [] {
      var n := |x| - 1;
      FoldHomomorphic(f, add, plus, r, s, x[..n], y[..n]);
      assert Zip(plus, x, y)[..n] == Zip(plus, x[..n], y[..n]);
    }
  }

  // ---- the register -------------------------------------------------------------------------

  /** x^16 reduced by the polynomial x^16 + x^12 + x^5 + 1, times a single bit. */
  function Feedback(bit: bv16): bv16 {
    bit ^ (bit << 5) ^ (bit << 12)
  }

  /** Multiplication by x modulo the polynomial: one shift of the register. */
  function Shift(crc: bv16): bv16 {
    (crc << 1) ^ Feedback(crc >> 15)
  }

  function Shifts(crc: bv16, n: nat): bv16 {
    if n == 0 then crc else Shift(Shifts(crc, n - 1))
  }

  function High(b: bv8): bv16 {
    (b as bv16) << 8
  }

  /** A byte enters at the top of the register. */
  function Load(crc: bv16, b: bv8): bv16 {
    crc ^ High(b)
  }

  function Absorb(crc: bv16, b: bv8): bv16 {
    Shifts(Load(crc, b), 8)
  }

  function Crc(data: Bytes): bv16 {
    Fold(Absorb, 0, data)
  }

  /** crc16xmodem. */
  method Compute(data: Bytes) returns (crc: bv16)
    ensures crc == Crc(data)
  {
    crc := 0;
    for i := 0 to |data|
      invariant crc == Crc(data[..i])
    {
      assert data[..i + 1][..i] == data[..i];
      crc := crc ^ ((data[i] as bv16) << 8);
      ghost var start := crc;
      for b := 0 to 8
        invariant crc == Shifts(start, b)
      {
        BranchIsShift(crc);
        if crc & 0x8000 != 0 {
          crc := (crc << 1) ^ 0x1021;
        } else {
          crc := crc << 1;
        }
      }
    }
    assert data[..|data|] == data;
  }

  /** The branch on the top bit is the shift of the polynomial register. */
  lemma BranchIsShift(crc: bv16)
    ensures crc & 0x8000 != 0 ==> Shift(crc) == (crc << 1) ^ 0x1021
    ensures crc & 0x8000 == 0 ==> Shift(crc) == crc << 1
  {
    TopBit(crc);
  }

  lemma TopBit(crc: bv16)
    ensures crc & 0x8000 != 0 ==> crc >> 15 == 1
    ensures crc & 0x8000 == 0 ==> crc >> 15 == 0
  {
  }

  lemma ShiftLinear(a: bv16, b: bv16)
    ensures Shift(XorWord(a, b)) == XorWord(Shift(a), Shift(b))
  {
    ShiftXor(a, b);
  }

  lemma ShiftXor(a: bv16, b: bv16)
    ensures Shift(a ^ b) == Shift(a) ^ Shift(b)
  {
  }

  lemma {:induction false} ShiftsLinear(a: bv16, b: bv16, sum: bv16, n: nat)
    requires sum == XorWord(a, b)
    ensures Shifts(sum, n) == XorWord(Shifts(a, n), Shifts(b, n))
  {
    if n > 0 {
      ShiftsLinear(a, b, sum, n - 1);
      ShiftLinear(Shifts(a, n - 1), Shifts(b, n - 1));
    }
  }

  function Unshift(crc: bv16): bv16 {
    ((crc ^ Feedback(crc & 1)) >> 1) | ((crc & 1) << 15)
  }

  lemma UnshiftShift(crc: bv16)
    ensures Unshift(Shift(crc)) == crc
  {
  }

  lemma {:induction false} ShiftsInjective(a: bv16, b: bv16, n: nat)
    requires Shifts(a, n) == Shifts(b, n)
    ensures a == b
  {
    if n > 0 {
      UnshiftShift(Shifts(a, n - 1));
      UnshiftShift(Shifts(b, n - 1));
      ShiftsInjective(a, b, n - 1);
    }
  }

  function XorWord(a: bv16, b: bv16): bv16 { a ^ b }

  function XorByte(a: bv8, b: bv8): bv8 { a ^ b }

  lemma LoadLinear(c: bv16, d: bv16, x: bv8, y: bv8)
    ensures Load(XorWord(c, d), XorByte(x, y)) == XorWord(Load(c, x), Load(d, y))
  {
  }

  lemma AbsorbLinear(c: bv16, d: bv16, x: bv8, y: bv8)
    ensures Absorb(XorWord(c, d), XorByte(x, y)) == XorWord(Absorb(c, x), Absorb(d, y))
  {
    LoadLinear(c, d, x, y);
    ShiftsLinear(Load(c, x), Load(d, y), Load(XorWord(c, d), XorByte(x, y)), 8);
  }

  /** The CRC is linear over GF(2). */
  lemma CrcLinear(x: Bytes, y: Bytes)
    requires |x| == |y|
    ensures Crc(Zip(XorByte, x, y)) == Crc(x) ^ Crc(y)
  {
    forall p, q, b, c ensures Absorb(XorWord(p, q), XorByte(b, c)) == XorWord(Absorb(p, b), Absorb(q, c)) {
      AbsorbLinear(p, q, b, c);
    }
    FoldHomomorphic(Absorb, XorWord, XorByte, 0, 0, x, y);
  }

  lemma LoadInjective(c: bv16, d: bv16, x: bv8)
    requires Load(c, x) == Load(d, x)
    ensures c == d
  {
  }

  lemma AbsorbInjective(c: bv16, d: bv16, x: bv8)
    requires Absorb(c, x) == Absorb(d, x)
    ensures c == d
  {
    ShiftsInjective(Load(c, x), Load(d, x), 8);
    LoadInjective(c, d, x);
  }

  // ---- bursts ----------------------------------------------------------------------------------

  /** A low byte shifts to the top without touching the polynomial. */
  lemma LowByteShifts(b: bv8)
    ensures Shifts(b as bv16, 8) == High(b)
  {
    var x := b as bv16;
    PlainShifts(x);
    assert Shifts(x, 1) == Shift(Shifts(x, 0));
    assert Shifts(x, 2) == Shift(Shifts(x, 1));
    assert Shifts(x, 3) == Shift(Shifts(x, 2));
    assert Shifts(x, 4) == Shift(Shifts(x, 3));
    assert Shifts(x, 5) == Shift(Shifts(x, 4));
    assert Shifts(x, 6) == Shift(Shifts(x, 5));
    assert Shifts(x, 7) == Shift(Shifts(x, 6));
  }

  lemma PlainShifts(x: bv16)
    requires x < 256
    ensures Shift(x) == x << 1 && Shift(x << 1) == x << 2 && Shift(x << 2) == x << 3 && Shift(x << 3) == x << 4
    ensures Shift(x << 4) == x << 5 && Shift(x << 5) == x << 6 && Shift(x << 6) == x << 7 && Shift(x << 7) == x << 8
  {
  }

  /** A byte-sized difference never cancels against the next byte. */
  lemma NoCancellation(e: bv16, f: bv8)
    requires e & 0x00ff == 0 && Shifts(e, 8) == High(f)
    ensures e == 0 && f == 0
  {
    LowByteShifts(f);
    ShiftsInjective(e, f as bv16, 8);
  }

  lemma LoadDifference(s: bv16, a: bv8, c: bv8)
    ensures XorWord(Load(s, a), Load(s, c)) & 0x00ff == 0
    ensures XorWord(Load(s, a), Load(s, c)) == 0 ==> a == c
  {
  }

  lemma ByteXor(b: bv8, d: bv8)
    ensures XorByte(b, d) == 0 ==> b == d
  {
  }

  lemma SecondDifference(p: bv16, q: bv16, b: bv8, d: bv8)
    requires Load(p, b) == Load(q, d)
    ensures XorWord(p, q) == High(XorByte(b, d))
  {
    ByHalves(p, q, b, d);
    FromHalves(p, q, b, d);
  }

  lemma ByHalves(p: bv16, q: bv16, b: bv8, d: bv8)
    requires Load(p, b) == Load(q, d)
    ensures XorWord(p, q) & 0xff == 0 && XorByte((p >> 8) as bv8, b) == XorByte((q >> 8) as bv8, d)
  {
  }

  lemma FromHalves(p: bv16, q: bv16, b: bv8, d: bv8)
    requires XorWord(p, q) & 0xff == 0 && XorByte((p >> 8) as bv8, b) == XorByte((q >> 8) as bv8, d)
    ensures XorWord(p, q) == High(XorByte(b, d))
  {
  }

  lemma TwoBytesInjective(s: bv16, a: bv8, b: bv8, c: bv8, d: bv8)
    requires Absorb(Absorb(s, a), b) == Absorb(Absorb(s, c), d)
    ensures a == c && b == d
  {
    ShiftsInjective(Load(Absorb(s, a), b), Load(Absorb(s, c), d), 8);
    SecondDifference(Absorb(s, a), Absorb(s, c), b, d);
    DifferenceCancels(Load(s, a), Load(s, c), XorWord(Load(s, a), Load(s, c)), XorByte(b, d)) by {
      LoadDifference(s, a, c);
    }
    LoadDifference(s, a, c);
    ByteXor(b, d);
  }

  lemma DifferenceCancels(u: bv16, v: bv16, e: bv16, f: bv8)
    requires e == XorWord(u, v) && XorWord(Shifts(u, 8), Shifts(v, 8)) == High(f)
    requires e & 0x00ff == 0
    ensures e == 0 && f == 0
  {
    ShiftsLinear(u, v, e, 8);
    NoCancellation(e, f);
  }

  lemma FoldPair<R, B>(f: (R, B) -> R, start: R, data: seq<B>, k: nat)
    requires k + 2 <= |data|
    ensures Fold(f, start, data) == Fold(f, f(f(Fold(f, start, data[..k]), data[k]), data[k + 1]), data[k + 2..])
  {
    assert data == data[..k + 2] + data[k + 2..];
    FoldAppend(f, start, data[..k + 2], data[k + 2..]);
    assert data[..k + 2][..k + 1] == data[..k + 1] && data[..k + 1][..k] == data[..k];
  }

  /** Any change confined to two adjacent bytes changes the CRC. */
  lemma TwoByteBurst(x: Bytes, y: Bytes, k: nat)
    requires |x| == |y| && k + 2 <= |x|
    requires forall i :: 0 <= i < |x| && i != k && i != k + 1 ==> x[i] == y[i]
    requires Crc(x) == Crc(y)
    ensures x == y
  {
    assert x[..k] == y[..k] && x[k + 2..] == y[k + 2..];
    FoldPair(Absorb, 0, x, k);
    FoldPair(Absorb, 0, y, k);
    forall p, q, b | Absorb(p, b) == Absorb(q, b) ensures p == q { AbsorbInjective(p, q, b); }
    var s := Crc(x[..k]);
    FoldInjective(Absorb, Absorb(Absorb(s, x[k]), x[k + 1]), Absorb(Absorb(s, y[k]), y[k + 1]), x[k + 2..]);
    TwoBytesInjective(s, x[k], x[k + 1], y[k], y[k + 1]);
  }

  // ---- the register computes a remainder ----------------------------------------------------

  function One(bit: bool): bv16 {
    if bit then 1 else 0
  }

  /** One step of long division by the polynomial: bring down the next bit and reduce. */
  function BringDown(r: bv16, bit: bool): bv16 {
    XorWord(Shift(r), One(bit))
  }

  /** The remainder of a bit string, read as a polynomial over GF(2). */
  function Remainder(bits: seq<bool>): bv16 {
    Fold(BringDown, 0, bits)
  }

  lemma {:induction false} FoldZeros(r: bv16, zeros: seq<bool>)
    requires forall i :: 0 <= i < |zeros| ==> !zeros[i]
    ensures Fold(BringDown, r, zeros) == Shifts(r, |zeros|)
    decreases |zeros|
  {
    if zeros != [] {
      FoldZeros(r, zeros[..|zeros| - 1]);
      XorZero(Shift(Shifts(r, |zeros| - 1)));
    }
  }

  lemma XorZero(w: bv16)
    ensures XorWord(w, 0) == w
  {
  }

  lemma BringDownLinear(a: bv16, b: bv16, bit: bool)
    ensures BringDown(XorWord(a, b), bit) == XorWord(Shift(a), BringDown(b, bit))
  {
    ShiftLinear(a, b);
    XorAssociates(Shift(a), Shift(b), One(bit));
  }

  lemma XorAssociates(a: bv16, b: bv16, c: bv16)
    ensures XorWord(XorWord(a, b), c) == XorWord(a, XorWord(b, c))
  {
  }

  /** Division is linear in what has been read before. */
  lemma {:induction false} FoldFromZero(r: bv16, bits: seq<bool>)
    ensures Fold(BringDown, r, bits) == XorWord(Shifts(r, |bits|), Remainder(bits))
    decreases |bits|
  {
    if bits == [] {
      XorZero(r);
    } else {
      var n := |bits| - 1;
      FoldFromZero(r, bits[..n]);
      BringDownLinear(Shifts(r, n), Remainder(bits[..n]), bits[n]);
    }
  }

  lemma {:induction false} ShiftsAdd(r: bv16, m: nat, n: nat)
    ensures Shifts(r, m + n) == Shifts(Shifts(r, m), n)
  {
    if n > 0 { ShiftsAdd(r, m, n - 1); }
  }

  lemma HighSteps(b: bv8)
    ensures var w := b as bv16;
      && BringDown(0, (b >> 7) & 1 == 1) == w >> 7 && BringDown(w >> 7, (b >> 6) & 1 == 1) == w >> 6
      && BringDown(w >> 6, (b >> 5) & 1 == 1) == w >> 5 && BringDown(w >> 5, (b >> 4) & 1 == 1) == w >> 4
  {
  }

  lemma LowSteps(b: bv8)
    ensures var w := b as bv16;
      && BringDown(w >> 4, (b >> 3) & 1 == 1) == w >> 3 && BringDown(w >> 3, (b >> 2) & 1 == 1) == w >> 2
      && BringDown(w >> 2, (b >> 1) & 1 == 1) == w >> 1 && BringDown(w >> 1, b & 1 == 1) == w
  {
  }

  lemma RemainderOfByte(b: bv8)
    ensures Remainder(Base32.BitsOfByte(b)) == b as bv16
  {
    var p := Base32.BitsOfByte(b);
    HighSteps(b);
    LowSteps(b);
    assert p[..8] == p && p[..8][..7] == p[..7] && p[..7][..6] == p[..6] && p[..6][..5] == p[..5];
    assert p[..5][..4] == p[..4] && p[..4][..3] == p[..3] && p[..3][..2] == p[..2] && p[..2][..1] == p[..1] && p[..1][..0] == [];
    assert Remainder(p[..1][..0]) == 0;
    assert Remainder(p[..1]) == BringDown(Remainder(p[..1][..0]), p[0]);
    assert Remainder(p[..2]) == BringDown(Remainder(p[..1]), p[1]);
    assert Remainder(p[..3]) == BringDown(Remainder(p[..2]), p[2]);
    assert Remainder(p[..4]) == BringDown(Remainder(p[..3]), p[3]);
    assert Remainder(p[..5]) == BringDown(Remainder(p[..4]), p[4]);
    assert Remainder(p[..6]) == BringDown(Remainder(p[..5]), p[5]);
    assert Remainder(p[..7]) == BringDown(Remainder(p[..6]), p[6]);
  }

  lemma RemainderNext(bits: seq<bool>, b: bv8, d: bv16)
    requires d == Remainder(bits)
    ensures Remainder(bits + Base32.BitsOfByte(b)) == XorWord(Shifts(d, 8), b as bv16)
  {
    FoldAppend(BringDown, 0, bits, Base32.BitsOfByte(b));
    FoldFromZero(d, Base32.BitsOfByte(b));
    RemainderOfByte(b);
  }

  lemma ShiftsCommute(d: bv16, m: nat, n: nat)
    ensures Shifts(Shifts(d, m), n) == Shifts(Shifts(d, n), m)
  {
    ShiftsAdd(d, m, n);
    ShiftsAdd(d, n, m);
    assert m + n == n + m;
  }

  lemma LoadIsSum(crc: bv16, b: bv8)
    ensures Load(crc, b) == XorWord(crc, High(b))
  {
  }

  lemma AbsorbSplits(crc: bv16, b: bv8, n: nat)
    requires n == 8
    ensures Absorb(crc, b) == XorWord(Shifts(crc, n), Shifts(High(b), n))
  {
    LoadIsSum(crc, b);
    ShiftsLinear(crc, High(b), Load(crc, b), n);
  }

  lemma DivisionSplits(a: bv16, low: bv16, m: nat, n: nat)
    ensures Shifts(XorWord(a, low), m + n) == XorWord(Shifts(a, m + n), Shifts(Shifts(low, m), n))
  {
    ShiftsLinear(a, low, XorWord(a, low), m + n);
    ShiftsAdd(low, m, n);
  }

  lemma AbsorbIsDivision(crc: bv16, d: bv16, b: bv8, n: nat, m: nat)
    requires n == 8 && m == 16 && crc == Shifts(d, m)
    ensures Absorb(crc, b) == Shifts(XorWord(Shifts(d, n), b as bv16), m)
  {
    AbsorbSplits(crc, b, n);
    ShiftsCommute(d, m, n);
    LowByteShifts(b);
    DivisionSplits(Shifts(d, n), b as bv16, n, n);
  }

  /** The CRC is the remainder of the data, sixteen zero bits appended, by the polynomial. */
  lemma {:induction false} CrcIsRemainder(data: Bytes)
    ensures Crc(data) == Remainder(Base32.BitsOfBytes(data) + Sixteen())
    decreases |data|
  {
    CrcShiftsRemainder(data);
    FoldAppend(BringDown, 0, Base32.BitsOfBytes(data), Sixteen());
    FoldZeros(Remainder(Base32.BitsOfBytes(data)), Sixteen());
  }

  function Sixteen(): (zeros: seq<bool>)
    ensures |zeros| == 16 && forall i :: 0 <= i < 16 ==> !zeros[i]
  {
    seq(16, _ => false)
  }

  lemma {:induction false} CrcShiftsRemainder(data: Bytes)
    ensures Crc(data) == Shifts(Remainder(Base32.BitsOfBytes(data)), 16)
    decreases |data|
  {
    if data == [] {
      ZeroStaysZero(16);
    } else {
      var n := |data| - 1;
      CrcShiftsRemainder(data[..n]);
      Base32.BitsOfBytesSnoc(data[..n], data[n]);
      assert data == data[..n] + [data[n]];
      NextByte(Crc(data[..n]), Base32.BitsOfBytes(data[..n]), data[n]);
    }
  }

  lemma NextByte(crc: bv16, bits: seq<bool>, b: bv8)
    requires crc == Shifts(Remainder(bits), 16)
    ensures Absorb(crc, b) == Shifts(Remainder(bits + Base32.BitsOfByte(b)), 16)
  {
    RemainderNext(bits, b, Remainder(bits));
    AbsorbIsDivision(crc, Remainder(bits), b, 8, 16);
  }

  lemma {:induction false} ZeroStaysZero(n: nat)
    ensures Shifts(0, n) == 0
  {
    if n > 0 { ZeroStaysZero(n - 1); }
  }
}
