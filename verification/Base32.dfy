/** Base32 of section 6 of RFC 4648 without padding, as decoded for Stellar keys by
    apps/backend/src/utils/publicKey.ts. */
module Base32 {
  import opened Alphabet
  import opened Wrappers

  const ALPHABET32 := "ABCDEFGHIJKLMNOPQRSTUVWXYZ234567"

  type Bytes = seq<bv8>
  type Bits = seq<bool>

  // ---- bits ------------------------------------------------------------------------------

  function BitsOfIndex(i: nat): (r: Bits)
    ensures |r| == 5
  {
    [i / 16 % 2 == 1, i / 8 % 2 == 1, i / 4 % 2 == 1, i / 2 % 2 == 1, i % 2 == 1]
  }

  /** The number a bit string spells. */
  function Number(p: Bits): nat {
    if p == [] then 0 else 2 * Number(p[..|p| - 1]) + if p[|p| - 1] then 1 else 0
  }

  lemma NumberOfFive(p: Bits)
    requires |p| == 5
    ensures Number(p) < 32 && BitsOfIndex(Number(p)) == p
  {
    assert p[..4][..3] == p[..3] && p[..3][..2] == p[..2] && p[..2][..1] == p[..1] && p[..1][..0] == [];
    var n1, n2, n3, n4 := Number(p[..1]), Number(p[..2]), Number(p[..3]), Number(p[..4]);
    assert p[..1] == [p[0]];
    assert Number([p[0]]) == 2 * Number([p[0]][..0]) + if p[0] then 1 else 0;
    Halves(n1, 0, p[0]);
    Halves(n2, n1, p[1]);
    Halves(n3, n2, p[2]);
    Halves(n4, n3, p[3]);
    Halves(Number(p), n4, p[4]);
    assert Number(p) / 4 == n3 && Number(p) / 8 == n2 && Number(p) / 16 == n1;
  }

  lemma Halves(n: nat, half: nat, b: bool)
    requires n == 2 * half + if b then 1 else 0
    ensures n / 2 == half && (n % 2 == 1) == b
  {
  }

  function IndexOfBits(p: Bits): (i: nat)
    requires |p| == 5
    ensures i < 32 && BitsOfIndex(i) == p
  {
    NumberOfFive(p);
    Number(p)
  }

  lemma NumberOfIndex(i: nat)
    requires i < 32
    ensures Number(BitsOfIndex(i)) == i
  {
    var p := BitsOfIndex(i);
    var h, q, e := i / 2, i / 4, i / 8;
    assert h == i / 2 && q == h / 2 && e == q / 2 && i / 16 == e / 2;
    assert p[..4][..3] == p[..3] && p[..3][..2] == p[..2] && p[..2][..1] == p[..1] && p[..1][..0] == [];
    assert Number(p[..1]) == i / 16;
    assert Number(p[..2]) == e && Number(p[..3]) == q && Number(p[..4]) == h;
  }

  function BitsOfByte(b: bv8): (r: Bits)
    ensures |r| == 8
  {
    [(b >> 7) & 1 == 1, (b >> 6) & 1 == 1, (b >> 5) & 1 == 1, (b >> 4) & 1 == 1,
     (b >> 3) & 1 == 1, (b >> 2) & 1 == 1, (b >> 1) & 1 == 1, b & 1 == 1]
  }

  lemma SameByte(a: bv8, b: bv8)
    requires BitsOfByte(a) == BitsOfByte(b)
    ensures a == b
  {
    var p, q := BitsOfByte(a), BitsOfByte(b);
    assert p[0] == q[0] && p[1] == q[1] && p[2] == q[2] && p[3] == q[3]
        && p[4] == q[4] && p[5] == q[5] && p[6] == q[6] && p[7] == q[7];
  }

  function Bit(b: bool): (w: bv8)
    ensures w <= 1 && (w == 1 <==> b)
  {
    if b then 1 else 0
  }

  function Horner(u0: bv8, u1: bv8, u2: bv8, u3: bv8, u4: bv8, u5: bv8, u6: bv8, u7: bv8): bv8 {
    (u0 << 7) | (u1 << 6) | (u2 << 5) | (u3 << 4) | (u4 << 3) | (u5 << 2) | (u6 << 1) | u7
  }

  lemma HornerBits(u0: bv8, u1: bv8, u2: bv8, u3: bv8, u4: bv8, u5: bv8, u6: bv8, u7: bv8)
    requires u0 <= 1 && u1 <= 1 && u2 <= 1 && u3 <= 1 && u4 <= 1 && u5 <= 1 && u6 <= 1 && u7 <= 1
    ensures var w := Horner(u0, u1, u2, u3, u4, u5, u6, u7);
      && (w >> 7) & 1 == u0 && (w >> 6) & 1 == u1 && (w >> 5) & 1 == u2 && (w >> 4) & 1 == u3
      && (w >> 3) & 1 == u4 && (w >> 2) & 1 == u5 && (w >> 1) & 1 == u6 && w & 1 == u7
  {
  }

  function Word(p: Bits): bv8 {
    if p == [] then 0 else (Word(p[..|p| - 1]) << 1) | Bit(p[|p| - 1])
  }

  lemma WordOfEight(p: Bits)
    requires |p| == 8
    ensures Word(p) == Horner(Bit(p[0]), Bit(p[1]), Bit(p[2]), Bit(p[3]), Bit(p[4]), Bit(p[5]), Bit(p[6]), Bit(p[7]))
  {
    assert p[..7][..6] == p[..6] && p[..6][..5] == p[..5] && p[..5][..4] == p[..4] && p[..4][..3] == p[..3];
    assert p[..3][..2] == p[..2] && p[..2][..1] == p[..1] && p[..1][..0] == [];
    HornerSteps(Bit(p[0]), Bit(p[1]), Bit(p[2]), Bit(p[3]), Bit(p[4]), Bit(p[5]), Bit(p[6]), Bit(p[7]));
    assert Word(p[..1]) == (0 << 1) | Bit(p[0]);
    assert Word(p[..2]) == (Word(p[..1]) << 1) | Bit(p[1]);
    assert Word(p[..3]) == (Word(p[..2]) << 1) | Bit(p[2]);
    assert Word(p[..4]) == (Word(p[..3]) << 1) | Bit(p[3]);
    assert Word(p[..5]) == (Word(p[..4]) << 1) | Bit(p[4]);
    assert Word(p[..6]) == (Word(p[..5]) << 1) | Bit(p[5]);
    assert Word(p[..7]) == (Word(p[..6]) << 1) | Bit(p[6]);
  }

  lemma HornerSteps(u0: bv8, u1: bv8, u2: bv8, u3: bv8, u4: bv8, u5: bv8, u6: bv8, u7: bv8)
    ensures Horner(u0, u1, u2, u3, u4, u5, u6, u7)
      == ((((((((((((((((0 << 1) | u0) << 1) | u1) << 1) | u2) << 1) | u3) << 1) | u4) << 1) | u5) << 1) | u6) << 1) | u7)
  {
  }

  function ByteOf(p: Bits): (b: bv8)
    requires |p| == 8
    ensures BitsOfByte(b) == p
  {
    WordOfEight(p);
    HornerBits(Bit(p[0]), Bit(p[1]), Bit(p[2]), Bit(p[3]), Bit(p[4]), Bit(p[5]), Bit(p[6]), Bit(p[7]));
    Word(p)
  }

  /** The bit string of a sequence of 5-bit indices. */
  function BitsOfIndices(ds: seq<nat>): (r: Bits)
    ensures |r| == 5 * |ds|
  {
    seq(5 * |ds|, k requires 0 <= k < 5 * |ds| => BitsOfIndex(ds[k / 5])[k % 5])
  }

  function BitsOfBytes(bytes: Bytes): (r: Bits)
    ensures |r| == 8 * |bytes|
  {
    seq(8 * |bytes|, k requires 0 <= k < 8 * |bytes| => BitsOfByte(bytes[k / 8])[k % 8])
  }

  /** The whole bytes at the front of a bit string; up to seven bits at the end are dropped. */
  function Pack(bits: Bits): (r: Bytes)
    ensures |r| == |bits| / 8
    ensures forall k :: 0 <= k < |bits| / 8 ==> r[k] == ByteOf(bits[8 * k..8 * k + 8])
  {
    seq(|bits| / 8, k requires 0 <= k < |bits| / 8 => ByteOf(bits[8 * k..8 * k + 8]))
  }

  // ---- base32 ----------------------------------------------------------------------------

  /** What decoding means: the bits of all characters, read off in whole bytes. */
  function Decoded(s: string): Option<Bytes> {
    if Over(ALPHABET32, s) then Some(Pack(BitsOfIndices(IndicesOf(ALPHABET32, s)))) else None
  }

  /** Base32 of section 6 of RFC 4648: the bits in groups of five, the last group filled up
      with zeros. */
  function Groups(bytes: Bytes): (ds: seq<nat>)
    ensures |ds| == (8 * |bytes| + 4) / 5
    ensures forall k :: 0 <= k < |ds| ==> ds[k] < 32
  {
    var bits := BitsOfBytes(bytes) + [false, false, false, false];
    seq((8 * |bytes| + 4) / 5, k requires 0 <= k < (8 * |bytes| + 4) / 5 => IndexOfBits(bits[5 * k..5 * k + 5]))
  }

  function Encoded(bytes: Bytes): string {
    CharsOf(ALPHABET32, Groups(bytes))
  }

  /** (value << 5) | idx on 32-bit integers. */
  function Push(value: bv32, idx: nat): bv32
    requires idx < 32
  {
    (value << 5) | (idx as bv32)
  }

  /** (value >>> n) & 0xff. */
  function ByteAt(value: bv32, n: nat): bv8 {
    (UnsignedShr(value, n) & 0xff) as bv8
  }

  /** v >>> n. */
  function UnsignedShr(v: bv32, n: nat): bv32 {
    if n == 0 then v else UnsignedShr(v >> 1, n - 1)
  }

  /** The low hi - lo bits of v spell bits[lo..hi]. */
  predicate Spells(v: bv32, bits: Bits, lo: nat, hi: nat)
    requires lo <= hi <= |bits|
    decreases hi
  {
    lo == hi || ((v & 1 == 1) == bits[hi - 1] && Spells(v >> 1, bits, lo, hi - 1))
  }

  lemma {:induction false} SpellsShorter(v: bv32, bits: Bits, lo: nat, mid: nat, hi: nat)
    requires lo <= mid <= hi <= |bits| && Spells(v, bits, lo, hi)
    ensures Spells(UnsignedShr(v, hi - mid), bits, lo, mid) && Spells(v, bits, mid, hi)
    decreases hi
  {
    if mid < hi { SpellsShorter(v >> 1, bits, lo, mid, hi - 1); }
  }

  /** m has ones in its n low places. */
  predicate Covers(m: bv32, n: nat) {
    n == 0 || (m & 1 == 1 && Covers(m >> 1, n - 1))
  }

  lemma {:induction false} SpellsMasked(v: bv32, w: bv32, m: bv32, bits: Bits, lo: nat, hi: nat)
    requires lo <= hi <= |bits| && Spells(v, bits, lo, hi)
    requires v & m == w & m && Covers(m, hi - lo)
    ensures Spells(w, bits, lo, hi)
    decreases hi
  {
    if lo < hi {
      HalfMask(v, w, m);
      SpellsMasked(v >> 1, w >> 1, m >> 1, bits, lo, hi - 1);
    }
  }

  lemma HalfMask(v: bv32, w: bv32, m: bv32)
    requires v & m == w & m && m & 1 == 1
    ensures v & 1 == w & 1 && (v >> 1) & (m >> 1) == (w >> 1) & (m >> 1)
  {
  }

  lemma IndexWord(i: nat)
    requires i < 32
    ensures var x := i as bv32;
      && x < 32 && (x & 1 == 1) == (i % 2 == 1) && ((x >> 1) & 1 == 1) == (i / 2 % 2 == 1)
      && ((x >> 2) & 1 == 1) == (i / 4 % 2 == 1) && ((x >> 3) & 1 == 1) == (i / 8 % 2 == 1)
      && ((x >> 4) & 1 == 1) == (i / 16 % 2 == 1)
  {
  }

  lemma ShiftIn(v: bv32, x: bv32)
    requires x < 32
    ensures var w := (v << 5) | x;
      && w & 1 == x & 1 && (w >> 1) & 1 == (x >> 1) & 1 && ((w >> 1) >> 1) & 1 == (x >> 2) & 1
      && (((w >> 1) >> 1) >> 1) & 1 == (x >> 3) & 1 && ((((w >> 1) >> 1) >> 1) >> 1) & 1 == (x >> 4) & 1
      && (((((w >> 1) >> 1) >> 1) >> 1) >> 1) & 127 == v & 127
  {
  }

  lemma SevenCovered(n: nat)
    requires n <= 7
    ensures Covers(127, n)
  {
    assert Covers(1, 0) && Covers(0, 0) && Covers(3, 0) && Covers(7, 0) && Covers(15, 0);
    assert forall k :: 0 <= k <= 1 ==> Covers(1, k);
    assert forall k :: 0 <= k <= 2 ==> Covers(3, k);
    assert forall k :: 0 <= k <= 3 ==> Covers(7, k);
    assert forall k :: 0 <= k <= 4 ==> Covers(15, k);
    assert forall k :: 0 <= k <= 5 ==> Covers(31, k);
    assert forall k :: 0 <= k <= 6 ==> Covers(63, k);
  }

  lemma Peel(v: bv32, bits: Bits, lo: nat, hi: nat)
    requires lo < hi <= |bits|
    ensures Spells(v, bits, lo, hi) <==> ((v & 1 == 1) == bits[hi - 1] && Spells(v >> 1, bits, lo, hi - 1))
  {
  }

  /** Five more bits follow the pending ones. */
  lemma PushFive(w: bv32, bits: Bits, lo: nat, hi: nat)
    requires lo <= hi && hi + 5 <= |bits|
    requires Spells(((((w >> 1) >> 1) >> 1) >> 1) >> 1, bits, lo, hi)
    requires (w & 1 == 1) == bits[hi + 4] && ((w >> 1) & 1 == 1) == bits[hi + 3]
    requires (((w >> 1) >> 1) & 1 == 1) == bits[hi + 2] && ((((w >> 1) >> 1) >> 1) & 1 == 1) == bits[hi + 1]
    requires (((((w >> 1) >> 1) >> 1) >> 1) & 1 == 1) == bits[hi]
    ensures Spells(w, bits, lo, hi + 5)
  {
    Peel((((w >> 1) >> 1) >> 1) >> 1, bits, lo, hi + 1);
    Peel(((w >> 1) >> 1) >> 1, bits, lo, hi + 2);
    Peel((w >> 1) >> 1, bits, lo, hi + 3);
    Peel(w >> 1, bits, lo, hi + 4);
    Peel(w, bits, lo, hi + 5);
  }

  /** One more character: its five bits follow the pending ones. */
  lemma FiveBits(bits: Bits, at: nat, q: Bits)
    requires at + 5 <= |bits| && bits[at..at + 5] == q
    ensures q[0] == bits[at] && q[1] == bits[at + 1] && q[2] == bits[at + 2] && q[3] == bits[at + 3] && q[4] == bits[at + 4]
  {
  }

  lemma PushIndex(v: bv32, i: nat, bits: Bits, lo: nat, hi: nat)
    requires i < 32 && lo <= hi <= lo + 7 && hi + 5 <= |bits|
    requires bits[hi..hi + 5] == BitsOfIndex(i) && Spells(v, bits, lo, hi)
    ensures Spells(Push(v, i), bits, lo, hi + 5)
  {
    var w := Push(v, i);
    IndexWord(i);
    ShiftIn(v, i as bv32);
    SevenCovered(hi - lo);
    FiveBits(bits, hi, BitsOfIndex(i));
    SpellsMasked(v, ((((w >> 1) >> 1) >> 1) >> 1) >> 1, 127, bits, lo, hi);
    PushFive(w, bits, lo, hi);
  }

  lemma LowByte(w: bv32)
    ensures var b := (w & 0xff) as bv8;
      && (b & 1 == 1) == (w & 1 == 1)
      && ((b >> 1) & 1 == 1) == ((w >> 1) & 1 == 1)
      && ((b >> 2) & 1 == 1) == (((w >> 1) >> 1) & 1 == 1)
      && ((b >> 3) & 1 == 1) == ((((w >> 1) >> 1) >> 1) & 1 == 1)
      && ((b >> 4) & 1 == 1) == (((((w >> 1) >> 1) >> 1) >> 1) & 1 == 1)
      && ((b >> 5) & 1 == 1) == ((((((w >> 1) >> 1) >> 1) >> 1) >> 1) & 1 == 1)
      && ((b >> 6) & 1 == 1) == (((((((w >> 1) >> 1) >> 1) >> 1) >> 1) >> 1) & 1 == 1)
      && ((b >> 7) & 1 == 1) == ((((((((w >> 1) >> 1) >> 1) >> 1) >> 1) >> 1) >> 1) & 1 == 1)
  {
  }

  lemma EightPeeled(w: bv32, bits: Bits, lo: nat)
    requires lo + 8 <= |bits| && Spells(w, bits, lo, lo + 8)
    ensures var w3 := ((w >> 1) >> 1) >> 1;
      && (w & 1 == 1) == bits[lo + 7] && ((w >> 1) & 1 == 1) == bits[lo + 6]
      && (((w >> 1) >> 1) & 1 == 1) == bits[lo + 5] && (w3 & 1 == 1) == bits[lo + 4]
      && ((w3 >> 1) & 1 == 1) == bits[lo + 3] && (((w3 >> 1) >> 1) & 1 == 1) == bits[lo + 2]
      && ((((w3 >> 1) >> 1) >> 1) & 1 == 1) == bits[lo + 1]
      && (((((w3 >> 1) >> 1) >> 1) >> 1) & 1 == 1) == bits[lo]
  {
    Peel(w, bits, lo, lo + 8);
    Peel(w >> 1, bits, lo, lo + 7);
    Peel((w >> 1) >> 1, bits, lo, lo + 6);
    var w3 := ((w >> 1) >> 1) >> 1;
    Peel(w3, bits, lo, lo + 5);
    Peel(w3 >> 1, bits, lo, lo + 4);
    Peel((w3 >> 1) >> 1, bits, lo, lo + 3);
    Peel(((w3 >> 1) >> 1) >> 1, bits, lo, lo + 2);
    Peel((((w3 >> 1) >> 1) >> 1) >> 1, bits, lo, lo + 1);
  }

  /** Eight spelled bits are a byte. */
  lemma EmitByte(w: bv32, bits: Bits, lo: nat)
    requires lo + 8 <= |bits| && Spells(w, bits, lo, lo + 8)
    ensures (w & 0xff) as bv8 == ByteOf(bits[lo..lo + 8])
  {
    var b := (w & 0xff) as bv8;
    EightPeeled(w, bits, lo);
    LowByte(w);
    assert BitsOfByte(b) == bits[lo..lo + 8];
    SameByte(b, ByteOf(bits[lo..lo + 8]));
  }

  /** The index of every character, foreign ones counted as zero. */
  function Stream(al: string, s: string): (ds: seq<nat>)
    ensures |ds| == |s|
    ensures forall i :: 0 <= i < |s| ==> ds[i] == if s[i] in al then IndexOf(al, s[i]) else 0
  {
    seq(|s|, i requires 0 <= i < |s| => if s[i] in al then IndexOf(al, s[i]) else 0)
  }

  lemma StreamIsIndices(al: string, s: string)
    requires Over(al, s)
    ensures Stream(al, s) == IndicesOf(al, s)
  {
  }

  /** The variables of the loop. */
  datatype Acc = Acc(bits: nat, value: bv32, out: Bytes)

  /** One pass of the loop body. */
  function Feed(acc: Acc, i: nat): Acc
    requires i < 32
  {
    var next := Push(acc.value, i);
    if acc.bits + 5 >= 8 then Acc(acc.bits + 5 - 8, next, acc.out + [ByteAt(next, acc.bits + 5 - 8)])
    else Acc(acc.bits + 5, next, acc.out)
  }

  /** What the rest of the loop makes of the remaining indices. */
  function Run(ds: seq<nat>, acc: Acc): Bytes
    requires forall i :: 0 <= i < |ds| ==> ds[i] < 32
  {
    if ds == [] then acc.out else Run(ds[1..], Feed(acc, ds[0]))
  }

  /** With k bytes written and `bits` bits pending, one more index leaves the accumulator
      spelling what is pending after it, and the emitted byte is the k-th of the stream. */
  lemma NextBits(all: Bits, n: nat, i: nat, value: bv32, k: nat, bits: nat)
    requires bits < 8 && 5 * n == 8 * k + bits && 5 * n + 5 <= |all|
    requires Spells(value, all, 8 * k, 5 * n)
    requires i < 32 && all[5 * n..5 * n + 5] == BitsOfIndex(i)
    ensures bits + 5 < 8 ==> Spells(Push(value, i), all, 8 * k, 5 * n + 5)
    ensures bits + 5 >= 8 ==> Spells(Push(value, i), all, 8 * k + 8, 5 * n + 5)
    ensures bits + 5 >= 8 ==> ByteAt(Push(value, i), bits + 5 - 8) == ByteOf(all[8 * k..8 * k + 8])
  {
    var next := Push(value, i);
    PushIndex(value, i, all, 8 * k, 5 * n);
    if bits >= 3 {
      SpellsShorter(next, all, 8 * k, 8 * k + 8, 5 * n + 5);
      EmitByte(UnsignedShr(next, bits - 3), all, 8 * k);
    }
  }

  /** Whole bytes are in acc.out, the other bits of the n characters read are pending. */
  ghost predicate Pending(all: Bits, n: nat, acc: Acc) {
    && acc.bits < 8 && 5 * n == 8 * |acc.out| + acc.bits && 5 * n <= |all|
    && Spells(acc.value, all, 8 * |acc.out|, 5 * n) && acc.out == Pack(all)[..|acc.out|]
  }

  /** The remaining indices spell the remaining bits. */
  ghost predicate Remains(rest: seq<nat>, all: Bits, n: nat) {
    && |all| == 5 * (n + |rest|) && (forall m :: 0 <= m < |rest| ==> rest[m] < 32)
    && forall m :: 0 <= m < |rest| ==> all[5 * (n + m)..5 * (n + m) + 5] == BitsOfIndex(rest[m])
  }

  lemma NextRemains(rest: seq<nat>, all: Bits, n: nat)
    requires rest != [] && Remains(rest, all, n)
    ensures all[5 * n..5 * n + 5] == BitsOfIndex(rest[0]) && Remains(rest[1..], all, n + 1)
  {
    assert all[5 * (n + 0)..5 * (n + 0) + 5] == BitsOfIndex(rest[0]);
    forall m | 0 <= m < |rest[1..]|
      ensures all[5 * (n + 1 + m)..5 * (n + 1 + m) + 5] == BitsOfIndex(rest[1..][m])
    {
      assert all[5 * (n + (m + 1))..5 * (n + (m + 1)) + 5] == BitsOfIndex(rest[m + 1]);
    }
  }

  lemma FeedKeepsPending(all: Bits, n: nat, acc: Acc, i: nat)
    requires Pending(all, n, acc) && i < 32 && 5 * n + 5 <= |all| && all[5 * n..5 * n + 5] == BitsOfIndex(i)
    ensures Pending(all, n + 1, Feed(acc, i))
  {
    NextBits(all, n, i, acc.value, |acc.out|, acc.bits);
  }

  lemma PendingEnds(all: Bits, n: nat, acc: Acc)
    requires Pending(all, n, acc) && |all| == 5 * n
    ensures acc.out == Pack(all)
  {
    assert |Pack(all)| == |acc.out|;
  }

  lemma {:induction false} RunFrom(rest: seq<nat>, all: Bits, n: nat, acc: Acc)
    requires Remains(rest, all, n) && Pending(all, n, acc)
    ensures Run(rest, acc) == Pack(all)
    decreases |rest|
  {
    if rest == [] {
      PendingEnds(all, n, acc);
    } else {
      NextRemains(rest, all, n);
      FeedKeepsPending(all, n, acc, rest[0]);
      RunFrom(rest[1..], all, n + 1, Feed(acc, rest[0]));
    }
  }

  /** The wrapping accumulator computes the unbounded bit concatenation. */
  lemma RunIsPack(ds: seq<nat>)
    requires forall i :: 0 <= i < |ds| ==> ds[i] < 32
    ensures Run(ds, Acc(0, 0, [])) == Pack(BitsOfIndices(ds))
  {
    var all := BitsOfIndices(ds);
    forall m | 0 <= m < |ds| ensures all[5 * (0 + m)..5 * (0 + m) + 5] == BitsOfIndex(ds[m]) {
      FiveAt(ds, m);
    }
    RunFrom(ds, all, 0, Acc(0, 0, []));
  }

  /** base32Decode: a 32-bit accumulator whose old bits fall off at the top. */
  method Decode(input: string) returns (r: Option<Bytes>)
    ensures r == Decoded(input)
  {
    r := DecodeWith(ALPHABET32, input);
  }

  lemma RunNext(ds: seq<nat>, n: nat, acc: Acc)
    requires n < |ds| && forall i :: 0 <= i < |ds| ==> ds[i] < 32
    ensures Run(ds[n..], acc) == Run(ds[n + 1..], Feed(acc, ds[n]))
  {
    assert ds[n..][1..] == ds[n + 1..];
  }

  lemma DecodedStream(al: string, s: string)
    requires |al| == 32 && Over(al, s)
    ensures Run(Stream(al, s), Acc(0, 0, [])) == Pack(BitsOfIndices(IndicesOf(al, s)))
  {
    StreamIsIndices(al, s);
    RunIsPack(IndicesOf(al, s));
  }

  /** The body of the loop, after the index is found. */
  method FeedOne(pending: nat, accumulator: bv32, bytes: Bytes, idx: nat) returns (bits: nat, value: bv32, out: Bytes)
    requires idx < 32
    ensures Acc(bits, value, out) == Feed(Acc(pending, accumulator, bytes), idx)
  {
    value := Push(accumulator, idx);
    bits := pending + 5;
    out := bytes;
    if bits >= 8 {
      bits := bits - 8;
      out := out + [ByteAt(value, bits)];
    }
  }

  method DecodeWith(alphabet: string, input: string) returns (r: Option<Bytes>)
    requires |alphabet| == 32
    ensures r == if Over(alphabet, input) then Some(Pack(BitsOfIndices(IndicesOf(alphabet, input)))) else None
  {
    var bits: nat := 0;
    var value: bv32 := 0;
    var out: Bytes := [];
    ghost var ds := Stream(alphabet, input);
    ghost var goal := Run(ds, Acc(0, 0, []));
    assert ds[0..] == ds;
    for n := 0 to |input|
      invariant Over(alphabet, input[..n])
      invariant Run(ds[n..], Acc(bits, value, out)) == goal
    {
      var idx := IndexOf(alphabet, input[n]);
      if idx == -1 {
        return None;
      }
      RunNext(ds, n, Acc(bits, value, out));
      bits, value, out := FeedOne(bits, value, out, idx);
    }
    assert input[..|input|] == input;
    DecodedStream(alphabet, input);
    return Some(out);
  }

  lemma FiveAt(ds: seq<nat>, n: nat)
    requires n < |ds|
    ensures BitsOfIndices(ds)[5 * n..5 * n + 5] == BitsOfIndex(ds[n])
  {
  }

  lemma EightAt(bytes: Bytes, n: nat)
    requires n < |bytes|
    ensures BitsOfBytes(bytes)[8 * n..8 * n + 8] == BitsOfByte(bytes[n])
  {
  }

  lemma BitsOfBytesSnoc(bytes: Bytes, b: bv8)
    ensures BitsOfBytes(bytes + [b]) == BitsOfBytes(bytes) + BitsOfByte(b)
  {
  }

  lemma SymbolAt(i: nat)
    requires i < 32
    ensures ALPHABET32[i] == if i < 26 then 'A' + i as char else '2' + (i - 26) as char
  {
  }

  lemma Alphabet32IsDistinct()
    ensures Distinct(ALPHABET32)
  {
    forall i, j | 0 <= i < j < 32 ensures ALPHABET32[i] != ALPHABET32[j] {
      SymbolAt(i);
      SymbolAt(j);
    }
  }

  lemma GroupAt(bytes: Bytes, q: nat)
    requires q < |Groups(bytes)|
    ensures BitsOfIndex(Groups(bytes)[q]) == (BitsOfBytes(bytes) + [false, false, false, false])[5 * q..5 * q + 5]
  {
  }

  lemma BitsOfGroups(bytes: Bytes)
    ensures BitsOfIndices(Groups(bytes)) ==
      (BitsOfBytes(bytes) + [false, false, false, false])[..5 * |Groups(bytes)|]
  {
    var ds, padded := Groups(bytes), BitsOfBytes(bytes) + [false, false, false, false];
    SameFives(BitsOfIndices(ds), padded[..5 * |ds|], |ds|) by {
      forall q | 0 <= q < |ds|
        ensures BitsOfIndices(ds)[5 * q..5 * q + 5] == padded[..5 * |ds|][5 * q..5 * q + 5]
      {
        FiveAt(ds, q);
        GroupAt(bytes, q);
      }
    }
  }

  lemma SameFives(p: Bits, q: Bits, n: nat)
    requires |p| == |q| == 5 * n
    requires forall k :: 0 <= k < n ==> p[5 * k..5 * k + 5] == q[5 * k..5 * k + 5]
    ensures p == q
  {
    forall i | 0 <= i < 5 * n ensures p[i] == q[i] {
      var k, r := i / 5, i % 5;
      assert p[5 * k..5 * k + 5][r] == q[5 * k..5 * k + 5][r];
    }
  }

  lemma PackOfBits(bytes: Bytes, tail: Bits)
    requires |tail| < 8
    ensures Pack(BitsOfBytes(bytes) + tail) == bytes
  {
    var all := BitsOfBytes(bytes) + tail;
    forall k | 0 <= k < |bytes| ensures ByteOf(all[8 * k..8 * k + 8]) == bytes[k] {
      EightAt(bytes, k);
      assert all[8 * k..8 * k + 8] == BitsOfBytes(bytes)[8 * k..8 * k + 8];
      SameByte(ByteOf(all[8 * k..8 * k + 8]), bytes[k]);
    }
  }

  /** Decoding inverts the RFC 4648 encoding, for every byte string. */
  lemma DecodeEncode(bytes: Bytes)
    ensures Decoded(Encoded(bytes)) == Some(bytes)
  {
    var ds := Groups(bytes);
    Alphabet32IsDistinct();
    IndicesOfChars(ALPHABET32, ds);
    BitsOfGroups(bytes);
    var padded := BitsOfBytes(bytes) + [false, false, false, false];
    var tail := padded[8 * |bytes|..5 * |ds|];
    assert padded[..5 * |ds|] == BitsOfBytes(bytes) + tail;
    PackOfBits(bytes, tail);
  }

  lemma BitsOfPack(bits: Bits)
    requires |bits| % 8 == 0
    ensures BitsOfBytes(Pack(bits)) == bits
  {
    forall k | 0 <= k < |bits| ensures BitsOfBytes(Pack(bits))[k] == bits[k] {
      var q, r := k / 8, k % 8;
      assert k == 8 * q + r;
      assert BitsOfByte(Pack(bits)[q]) == bits[8 * q..8 * q + 8];
    }
  }

  lemma GroupsOfBits(ds: seq<nat>)
    requires 5 * |ds| % 8 == 0 && forall k :: 0 <= k < |ds| ==> ds[k] < 32
    ensures Groups(Pack(BitsOfIndices(ds))) == ds
  {
    var bits := BitsOfIndices(ds);
    BitsOfPack(bits);
    var back := Groups(Pack(bits));
    assert |back| == |ds|;
    forall k | 0 <= k < |ds| ensures back[k] == ds[k] {
      FiveAt(ds, k);
      assert (bits + [false, false, false, false])[5 * k..5 * k + 5] == bits[5 * k..5 * k + 5];
      NumberOfIndex(ds[k]);
    }
  }

  /** Encoding inverts decoding for strings that are a whole number of bytes. */
  lemma EncodeDecode(s: string)
    requires Over(ALPHABET32, s) && 5 * |s| % 8 == 0
    ensures Encoded(Decoded(s).value) == s
  {
    GroupsOfBits(IndicesOf(ALPHABET32, s));
    CharsOfIndices(ALPHABET32, s);
  }
}
