/** The Poseidon stand-in of apps/consumer-app/__mocks__/circomlibjs.ts: mixing modulo 2^256. */
module PoseidonMock {
  import opened Digits

  const HALF: nat := 0x1_0000_0000_0000_0000_0000_0000_0000_0000
  const M: nat := 0x1_0000_0000_0000_0000_0000_0000_0000_0000_0000_0000_0000_0000_0000_0000_0000_0000
  const A: nat := 0x9e3779b97f4a7c15f39cc0605cedc835
  const B: nat := 0x6a09e667f3bcc908b2fb1366ea957d3e
  const SEED: nat := 0x243f6a8885a308d313198a2e03707344
  const ODD: nat := 0x100000001b3

  /** The inverse of ODD modulo 2^256, and the quotient that shows it. */
  const ODD_INVERSE: nat := 0x4377_41e2_195c_5b0c_cee8_1149_3c6b_aaa0_8e55_0d11_2e25_7acb_ce96_5057_aff6_957b
  const QUOTIENT: nat := 0x0043_7741_e28c

  // ---- exclusive or on natural numbers --------------------------------------------------------------

  function Xor(a: nat, b: nat): nat
    decreases a + b
  {
    if a == 0 && b == 0 then 0 else 2 * Xor(a / 2, b / 2) + (a + b) % 2
  }

  lemma XorUnfold(a: nat, b: nat)
    ensures Xor(a, b) == 2 * Xor(a / 2, b / 2) + (a + b) % 2
  {
  }

  lemma LowBit(x: nat, a: nat, b: nat)
    ensures (2 * x + (a + b) % 2) / 2 == x && (2 * x + (a + b) % 2 + b) % 2 == a % 2
  {
  }

  lemma {:induction false} XorTwice(a: nat, b: nat)
    ensures Xor(Xor(a, b), b) == a
    decreases a + b
  {
    if a != 0 || b != 0 {
      XorTwice(a / 2, b / 2);
      XorUnfold(a, b);
      LowBit(Xor(a / 2, b / 2), a, b);
      XorUnfold(Xor(a, b), b);
    }
  }

  lemma {:induction false} XorZero(a: nat)
    ensures Xor(a, 0) == a
  {
    if a != 0 {
      XorZero(a / 2);
    }
  }

  lemma {:induction false} XorBound(a: nat, b: nat, k: nat)
    requires a < Pow(2, k) && b < Pow(2, k)
    ensures Xor(a, b) < Pow(2, k)
  {
    if k > 0 {
      XorBound(a / 2, b / 2, k - 1);
    }
  }

  lemma EvenPart(t: nat, lo: nat, x: nat)
    ensures (2 * t + lo) / 2 == t + lo / 2 && (2 * t + lo + x) % 2 == (lo + x) % 2
  {
  }

  /** h << k. */
  function Shifted(h: nat, k: nat): nat {
    if k == 0 then h else 2 * Shifted(h, k - 1)
  }

  /** Exclusive or with a k-bit number leaves the bits above k alone. */
  lemma {:induction false} XorLow(h: nat, lo: nat, x: nat, k: nat)
    requires lo < Pow(2, k) && x < Pow(2, k)
    ensures Xor(Shifted(h, k) + lo, x) == Shifted(h, k) + Xor(lo, x)
  {
    if k == 0 {
      XorZero(h);
    } else {
      XorLow(h, lo / 2, x / 2, k - 1);
      XorHalves(Shifted(h, k - 1), lo, x);
    }
  }

  lemma XorHalves(t: nat, lo: nat, x: nat)
    requires Xor(t + lo / 2, x / 2) == t + Xor(lo / 2, x / 2)
    ensures Xor(2 * t + lo, x) == 2 * t + Xor(lo, x)
  {
    EvenPart(t, lo, x);
    XorSameLowBit(2 * t + lo, lo, x, t);
  }

  lemma XorSameLowBit(a: nat, b: nat, x: nat, t: nat)
    requires Xor(a / 2, x / 2) == t + Xor(b / 2, x / 2) && (a + x) % 2 == (b + x) % 2
    ensures Xor(a, x) == 2 * t + Xor(b, x)
  {
    XorUnfold(a, x);
    XorUnfold(b, x);
  }

  lemma {:induction false} ShiftedIsProduct(h: nat, k: nat)
    ensures Shifted(h, k) == h * Pow(2, k)
  {
    if k > 0 {
      ShiftedIsProduct(h, k - 1);
      assert 2 * (h * Pow(2, k - 1)) == h * (2 * Pow(2, k - 1));
    }
  }

  lemma Squared(k: nat, n: nat, v: nat)
    requires n == 2 * k && Pow(2, k) == v
    ensures Pow(2, n) == v * v
  {
    PowAdd(2, k, k);
  }

  lemma HalfIsPow()
    ensures Pow(2, 128) == HALF
  {
    assert Pow(2, 2) == 4;
    Squared(2, 4, 4);
    Squared(4, 8, 16);
    Squared(8, 16, 256);
    Squared(16, 32, 65536);
    Squared(32, 64, 0x1_0000_0000);
    Squared(64, 128, 0x1_0000_0000_0000_0000);
  }

  // ---- the avalanche -----------------------------------------------------------------------------------

  /** h ^ (h >> 128). */
  function Avalanche(h: nat): nat {
    Xor(h, h / HALF)
  }

  /** On 256-bit numbers: the high half stays, the low half is xored with it. */
  lemma AvalancheHalves(hi: nat, lo: nat, p: nat, k: nat)
    requires p == Pow(2, k) && hi < p && lo < p
    ensures Xor(hi * p + lo, hi) == hi * p + Xor(lo, hi) && Xor(lo, hi) < p
  {
    ShiftedIsProduct(hi, k);
    XorLow(hi, lo, hi, k);
    XorBound(lo, hi, k);
  }

  lemma XorOfHalves(hi: nat, lo: nat)
    requires hi < HALF && lo < HALF
    ensures Xor(hi * HALF + lo, hi) == hi * HALF + Xor(lo, hi) && Xor(lo, hi) < HALF
  {
    HalfIsPow();
    AvalancheHalves(hi, lo, HALF, 128);
  }

  lemma AvalancheJoined(hi: nat, lo: nat)
    requires hi < HALF && lo < HALF
    ensures Avalanche(hi * HALF + lo) == hi * HALF + Xor(lo, hi) && Xor(lo, hi) < HALF
  {
    JoinHalves(hi, lo);
    XorOfHalves(hi, lo);
  }

  lemma SplitHalves(h: nat)
    requires h < M
    ensures h / HALF < HALF && h == (h / HALF) * HALF + h % HALF && h % HALF < HALF
  {
  }

  lemma JoinHalves(hi: nat, lo: nat)
    requires hi < HALF && lo < HALF
    ensures (hi * HALF + lo) / HALF == hi && hi * HALF + lo < M
  {
  }

  /** The avalanche is its own inverse on 256-bit numbers. */
  lemma AvalancheTwice(h: nat)
    requires h < M
    ensures Avalanche(h) < M && Avalanche(Avalanche(h)) == h
  {
    var hi, lo := h / HALF, h % HALF;
    SplitHalves(h);
    AvalancheJoined(hi, lo);
    AvalancheJoined(hi, Xor(lo, hi));
    JoinHalves(hi, Xor(lo, hi));
    XorTwice(lo, hi);
  }

  // ---- arithmetic modulo m ---------------------------------------------------------------------------------

  lemma ModUnique(x: int, q: int, r: nat, m: nat)
    requires m >= 1 && x == q * m + r && r < m
    ensures x % m == r
  {
    var d := x / m - q;
    assert x == m * (x / m) + x % m;
    assert m * (x / m) - q * m == d * m;
    if d >= 1 {
      assert d * m >= m by { MulAtLeast(d, m); }
    } else if d <= -1 {
      assert -d * m >= m by { MulAtLeast(-d, m); }
    }
  }

  lemma MulAtLeast(d: int, m: nat)
    requires d >= 1
    ensures d * m >= m
  {
    assert (d - 1) * m >= 0;
  }

  /** Multiplying by q and then by r, with q * r == 1 + j * m, gives back every h below m. */
  lemma InverseProduct(h: nat, q: nat, r: nat, j: nat, m: nat)
    requires m >= 1 && h < m && q * r == 1 + j * m
    ensures ((h * q) % m * r) % m == h
  {
    var k := (h * q) / m;
    assert (h * q) % m == h * q - k * m by {
      assert h * q == m * k + (h * q) % m;
    }
    Rearranged(h, q, r, j, m, k);
    ModUnique((h * q - k * m) * r, h * j - k * r, h, m);
  }

  lemma Rearranged(h: int, q: int, r: int, j: int, m: int, k: int)
    requires q * r == 1 + j * m
    ensures (h * q - k * m) * r == (h * j - k * r) * m + h
  {
    assert (h * q - k * m) * r == h * (q * r) - (k * r) * m;
    assert h * (1 + j * m) == h + (h * j) * m;
  }

  lemma ModShift(x: int, k: int, m: nat)
    requires m >= 1
    ensures (x + k * m) % m == x % m
  {
    assert x == m * (x / m) + x % m;
    assert x + k * m == (x / m + k) * m + x % m;
    ModUnique(x + k * m, x / m + k, x % m, m);
  }

  // ---- the hash ----------------------------------------------------------------------------------------------

  /** One round of the loop; inputs may be any integers, & MASK takes the residue. */
  function Mix(h: int, input: int): nat {
    (h * A + B + input) % M
  }

  function Accumulate(inputs: seq<int>): (h: nat)
    ensures h < M
  {
    if inputs == [] then SEED else Mix(Accumulate(inputs[..|inputs| - 1]), inputs[|inputs| - 1])
  }

  function Finish(h: nat): nat {
    (Avalanche(h) * ODD) % M
  }

  function Hash(inputs: seq<int>): nat {
    Finish(Accumulate(inputs))
  }

  method Poseidon(inputs: seq<int>) returns (h: nat)
    ensures h == Hash(inputs)
  {
    h := SEED;
    for i := 0 to |inputs|
      invariant h == Accumulate(inputs[..i])
    {
      assert inputs[..i + 1][..i] == inputs[..i];
      h := (h * A + B + inputs[i]) % M;
    }
    assert inputs[..|inputs|] == inputs;
    h := Xor(h, h / HALF);
    h := (h * ODD) % M;
  }

  function Unfinish(y: nat): nat {
    Avalanche((y * ODD_INVERSE) % M)
  }

  lemma OddIsInvertible()
    ensures ODD * ODD_INVERSE == 1 + QUOTIENT * M && ODD_INVERSE * ODD == 1 + QUOTIENT * M
  {
  }

  /** The finish is a bijection of the 256-bit numbers. */
  lemma FinishIsInvertible(h: nat)
    requires h < M
    ensures Finish(h) < M && Unfinish(Finish(h)) == h
    ensures Unfinish(h) < M && Finish(Unfinish(h)) == h
  {
    OddIsInvertible();
    AvalancheTwice(h);
    InverseProduct(Avalanche(h), ODD, ODD_INVERSE, QUOTIENT, M);
    AvalancheTwice((h * ODD_INVERSE) % M);
    InverseProduct(h, ODD_INVERSE, ODD, QUOTIENT, M);
  }

  lemma MixShift(h: int, k: int, input: int)
    ensures Mix(h + k * M, input) == Mix(h, input)
  {
    ModShift(h * A + B + input, k * A, M);
  }

  /** What the inputs alone contribute, without any reduction. */
  function Horner(inputs: seq<int>): int {
    if inputs == [] then 0 else Horner(inputs[..|inputs| - 1]) * A + inputs[|inputs| - 1]
  }

  function Base(n: nat): nat {
    if n == 0 then SEED else Base(n - 1) * A + B
  }

  lemma {:induction false} AccumulateIsHorner(inputs: seq<int>)
    ensures Accumulate(inputs) == (Base(|inputs|) + Horner(inputs)) % M
  {
    if inputs != [] {
      var rest, x := inputs[..|inputs| - 1], inputs[|inputs| - 1];
      AccumulateIsHorner(rest);
      var u := Base(|rest|) + Horner(rest);
      var k := u / M;
      assert u % M == u + -k * M;
      MixShift(u, -k, x);
    }
  }

  lemma ResidueIff(x: int, y: int, m: nat)
    requires m >= 1
    ensures x % m == y % m <==> (x - y) % m == 0
  {
    assert x == m * (x / m) + x % m && y == m * (y / m) + y % m;
    if x % m == y % m {
      assert x - y == (x / m - y / m) * m + 0;
      ModUnique(x - y, x / m - y / m, 0, m);
    }
    if (x - y) % m == 0 {
      var q := (x - y) / m;
      assert x - y == m * q;
      ModShift(y, q, m);
    }
  }

  /** Two lists of one length collide exactly when their unreduced contributions are congruent. */
  lemma CollideIff(a: seq<int>, b: seq<int>)
    requires |a| == |b|
    ensures Hash(a) == Hash(b) <==> (Horner(a) - Horner(b)) % M == 0
  {
    FinishIsInvertible(Accumulate(a));
    FinishIsInvertible(Accumulate(b));
    AccumulateIsHorner(a);
    AccumulateIsHorner(b);
    ResidueIff(Base(|a|) + Horner(a), Base(|b|) + Horner(b), M);
  }

  lemma HornerOne(x: int)
    ensures Horner([x]) == x
  {
    assert [x][..0] == [];
  }

  /** The input that hashes to y. */
  function Unhash(y: nat): nat {
    (Unfinish(y) - SEED * A - B) % M
  }

  lemma AccumulateOne(x: int)
    ensures Accumulate([x]) == (SEED * A + B + x) % M
  {
    assert [x][..0] == [];
  }

  lemma UnhashHash(x: nat)
    requires x < M
    ensures Unhash(Hash([x])) == x
  {
    AccumulateOne(x);
    FinishIsInvertible(Accumulate([x]));
    Undo(SEED * A + B, x, M);
  }

  lemma HashUnhash(y: nat)
    requires y < M
    ensures Hash([Unhash(y)]) == y
  {
    FinishIsInvertible(y);
    AccumulateOne(Unhash(y));
    Redo(SEED * A + B, Unfinish(y), M);
  }

  /** Calls with a single input are a bijection of the 256-bit numbers, with an explicit inverse. */
  lemma SingleInputIsBijective(x: nat, y: nat)
    requires x < M && y < M
    ensures Unhash(Hash([x])) == x && Hash([Unhash(y)]) == y
  {
    UnhashHash(x);
    HashUnhash(y);
  }

  lemma Undo(c: int, x: nat, m: nat)
    requires m >= 1 && x < m
    ensures ((c + x) % m - c) % m == x
  {
    var k := (c + x) / m;
    assert (c + x) % m == c + x - m * k;
    ModUnique((c + x) % m - c, -k, x, m);
  }

  lemma Redo(c: int, u: nat, m: nat)
    requires m >= 1 && u < m
    ensures (c + (u - c) % m) % m == u
  {
    var k := (u - c) / m;
    assert (u - c) % m == u - c - m * k;
    ModUnique(c + (u - c) % m, -k, u, m);
  }

  /** Distinct single inputs, as 256-bit numbers, hash differently. */
  lemma SingleInputIsInjective(x: int, y: int)
    ensures Hash([x]) == Hash([y]) <==> (x - y) % M == 0
  {
    HornerOne(x);
    HornerOne(y);
    CollideIff([x], [y]);
  }

  lemma HornerTwo(x: int, y: int)
    ensures Horner([x, y]) == x * A + y
  {
    assert [x, y][..1] == [x];
    HornerOne(x);
  }

  /** With two inputs the documented "distinct inputs yield distinct outputs" fails: raising the
      first by one and lowering the second by A changes nothing. */
  lemma TwoInputsCollide(x: int, y: int)
    ensures Hash([x, y + A]) == Hash([x + 1, y])
  {
    HornerTwo(x, y + A);
    HornerTwo(x + 1, y);
    CollideIff([x, y + A], [x + 1, y]);
  }

  lemma ZeroFinish()
    ensures Finish(0) == 0
  {
    assert Avalanche(0) == 0;
  }

  lemma SmallMod(x: nat)
    requires x < M
    ensures x % M == x && (x < HALF ==> x / HALF == 0)
  {
  }

  /** The hash of nothing, in numbers. */
  lemma EmptyHash()
    ensures Hash([]) == 0x243f6a8885a308d313198a2e03707344 * 0x100000001b3
  {
    SmallMod(SEED);
    XorZero(SEED);
    assert Avalanche(SEED) == SEED;
    SmallMod(SEED * ODD);
  }

  /** The input that hashes to zero, in numbers. */
  lemma HashesToZero()
    ensures Hash([-(0x243f6a8885a308d313198a2e03707344 * 0x9e3779b97f4a7c15f39cc0605cedc835
                    + 0x6a09e667f3bcc908b2fb1366ea957d3e)]) == 0
  {
    var c: int := SEED * A + B;
    AccumulateOne(-c);
    assert c + -c == 0;
    assert Accumulate([-c]) == 0;
    ZeroFinish();
  }
}
