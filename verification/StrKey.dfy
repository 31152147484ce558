/** The Stellar public key check (StrKey, SEP-23) of apps/backend/src/utils/publicKey.ts. */
module StrKey {
  import opened Alphabet
  import opened Base32
  import opened Crc16
  import opened Wrappers

  const ED25519_PUBLIC_VERSION: bv8 := 48

  predicate InClass(c: char) {
    'A' <= c <= 'Z' || '2' <= c <= '7'
  }

  /** ^G[A-Z2-7]{55}$ */
  predicate HasShape(s: string) {
    |s| == 56 && s[0] == 'G' && forall i :: 1 <= i < 56 ==> InClass(s[i])
  }

  function Low(w: bv16): bv8 {
    (w & 0xff) as bv8
  }

  function Top(w: bv16): bv8 {
    (w >> 8) as bv8
  }

  /** The checksum is stored low byte first. */
  function LittleEndian(b33: bv8, b34: bv8): bv16 {
    (b33 as bv16) | ((b34 as bv16) << 8)
  }

  lemma LittleEndianBytes(w: bv16, a: bv8, b: bv8)
    ensures LittleEndian(Low(w), Top(w)) == w
    ensures Low(LittleEndian(a, b)) == a && Top(LittleEndian(a, b)) == b
  {
  }

  /** Version byte, key and checksum: what a StrKey public key spells. */
  function KeyBytes(key: Bytes): Bytes {
    var payload := [ED25519_PUBLIC_VERSION] + key;
    payload + [Low(Crc(payload)), Top(Crc(payload))]
  }

  predicate Checks(d: Bytes) {
    && |d| == 35
    && d[0] == ED25519_PUBLIC_VERSION
    && Crc(d[..33]) == LittleEndian(d[33], d[34])
  }

  datatype KeyCheck = Accepted | BadShape | BadDecode | BadVersion | BadChecksum

  /** validateStellarPublicKey: what it accepts, and which of its rejections it gives. A text of the
      right shape always decodes; its version byte is right exactly when its second character is one
      of the first four letters. */
  method Validate(value: string) returns (check: KeyCheck)
    ensures check.Accepted? <==> exists key: Bytes :: |key| == 32 && value == Encoded(KeyBytes(key))
    ensures check.Accepted? <==> Accepts(value)
    ensures check.BadShape? <==> !(|value| == 56 && value[0] == 'G' && forall i :: 0 <= i < 56 ==> value[i] in ALPHABET32)
    ensures !check.BadDecode?
    ensures check.BadVersion? <==> !check.BadShape? && !('A' <= value[1] <= 'D')
  {
    var shape := HasShape(value);
    AcceptsExactlyKeys(value);
    ShapeIff(value);
    if !shape {
      return BadShape;
    }
    ShapeDecodes(value);
    var decoded := Base32.Decode(value);
    if decoded.None? || |decoded.value| != 35 {
      return BadDecode;
    }
    var d := decoded.value;
    if d[0] != ED25519_PUBLIC_VERSION {
      return BadVersion;
    }
    var crc := Crc16.Compute(d[..33]);
    if crc != LittleEndian(d[33], d[34]) {
      return BadChecksum;
    }
    return Accepted;
  }

  /** The check as one predicate. */
  predicate Accepts(s: string) {
    HasShape(s) && Base32.Decoded(s).Some? && Checks(Base32.Decoded(s).value)
  }

  lemma ClassIsAlphabet(c: char)
    ensures InClass(c) <==> c in ALPHABET32
  {
    if 'A' <= c <= 'Z' {
      SymbolAt((c - 'A') as nat);
    } else if '2' <= c <= '7' {
      SymbolAt((c - '2') as nat + 26);
    }
    forall i | 0 <= i < 32 ensures InClass(ALPHABET32[i]) {
      SymbolInClass(i);
    }
  }

  lemma ShapeIff(s: string)
    ensures HasShape(s) <==> |s| == 56 && s[0] == 'G' && forall i :: 0 <= i < 56 ==> s[i] in ALPHABET32
  {
    forall c: char ensures InClass(c) <==> c in ALPHABET32 {
      ClassIsAlphabet(c);
    }
  }

  lemma EightBits(ds: seq<nat>)
    requires |ds| >= 2
    ensures var p := BitsOfIndices(ds)[0..8]; p[..5] == BitsOfIndex(ds[0]) && p[5..] == BitsOfIndex(ds[1])[..3]
  {
    var bits := BitsOfIndices(ds);
    FiveAt(ds, 0);
    FiveAt(ds, 1);
    assert bits[0..8][..5] == bits[0..5];
    assert bits[0..8][5..] == bits[5..10][..3];
  }

  lemma FirstEight(ds: seq<nat>)
    requires |ds| >= 2 && ds[0] == 6 && ds[1] < 32
    ensures ByteOf(BitsOfIndices(ds)[0..8]) == ED25519_PUBLIC_VERSION <==> ds[1] < 4
  {
    var p, q := BitsOfIndices(ds)[0..8], BitsOfByte(48);
    EightBits(ds);
    VersionBits();
    VersionTail();
    SecondIsLow(ds[1]);
    assert p == p[..5] + p[5..] && q == q[..5] + q[5..];
    if p == q {
      SameByte(ByteOf(p), 48);
    }
  }

  lemma VersionTail()
    ensures BitsOfByte(48)[5..] == [false, false, false]
  {
  }

  lemma SecondIsLow(i: nat)
    requires i < 32
    ensures BitsOfIndex(i)[..3] == [false, false, false] <==> i < 4
  {
    var p := BitsOfIndex(i)[..3];
    assert p[0] == (i / 16 % 2 == 1) && p[1] == (i / 8 % 2 == 1) && p[2] == (i / 4 % 2 == 1);
    if p == [false, false, false] {
      assert !p[0] && !p[1] && !p[2];
    }
  }

  /** The positions of the first two characters of a text of the right shape. */
  lemma FirstTwo(ds: seq<nat>, c: char)
    requires |ds| >= 2 && ds[0] < 32 && ds[1] < 32 && ALPHABET32[ds[0]] == 'G' && ALPHABET32[ds[1]] == c
    ensures ds[0] == 6 && (ds[1] < 4 <==> 'A' <= c <= 'D')
  {
    SymbolAt(ds[0]);
    SymbolAt(ds[1]);
  }

  lemma OverAlphabet(s: string)
    requires HasShape(s)
    ensures Over(ALPHABET32, s)
  {
    ShapeIff(s);
  }

  lemma ShapeIndices(s: string)
    requires HasShape(s) && Over(ALPHABET32, s)
    ensures var ds := IndicesOf(ALPHABET32, s);
      |ds| == 56 && ds[0] < 32 && ds[1] < 32 && ALPHABET32[ds[0]] == 'G' && ALPHABET32[ds[1]] == s[1]
  {
  }

  lemma DecodedIsPacked(s: string)
    requires Over(ALPHABET32, s) && |s| == 56
    ensures Base32.Decoded(s) == Some(Pack(BitsOfIndices(IndicesOf(ALPHABET32, s))))
    ensures |Pack(BitsOfIndices(IndicesOf(ALPHABET32, s)))| == 35
  {
  }

  /** A text of the right shape decodes to 35 bytes, and exactly when is their version byte right. */
  lemma ShapeDecodes(s: string)
    requires HasShape(s)
    ensures Base32.Decoded(s).Some? && |Base32.Decoded(s).value| == 35
    ensures Base32.Decoded(s).value[0] == ED25519_PUBLIC_VERSION <==> 'A' <= s[1] <= 'D'
  {
    OverAlphabet(s);
    ShapeIndices(s);
    DecodedIsPacked(s);
    VersionOfIndices(IndicesOf(ALPHABET32, s), s[1]);
  }

  lemma VersionOfIndices(ds: seq<nat>, c: char)
    requires |ds| >= 2 && ds[0] < 32 && ds[1] < 32 && ALPHABET32[ds[0]] == 'G' && ALPHABET32[ds[1]] == c
    ensures |Pack(BitsOfIndices(ds))| > 0
    ensures Pack(BitsOfIndices(ds))[0] == ED25519_PUBLIC_VERSION <==> 'A' <= c <= 'D'
  {
    FirstTwo(ds, c);
    FirstEight(ds);
    FirstByte(BitsOfIndices(ds));
  }

  lemma FirstByte(bits: Bits)
    requires |bits| >= 8
    ensures |Pack(bits)| == |bits| / 8 && Pack(bits)[0] == ByteOf(bits[0..8])
  {
  }

  /** The checksum of a key is stored low byte first. */
  lemma ChecksumOrder(key: Bytes)
    requires |key| == 32
    ensures var (d, crc) := (KeyBytes(key), Crc([48] + key));
      |d| == 35 && d[..33] == [48] + key && crc & 0xff == d[33] as bv16 && crc >> 8 == d[34] as bv16
  {
    TwoBytes(Crc([48] + key));
  }

  lemma TwoBytes(w: bv16)
    ensures w & 0xff == Low(w) as bv16 && w >> 8 == Top(w) as bv16
  {
  }

  lemma SymbolInClass(i: nat)
    requires i < 32
    ensures InClass(ALPHABET32[i])
  {
    SymbolAt(i);
  }

  lemma KeyOfBytes(d: Bytes)
    requires Checks(d)
    ensures |d[1..33]| == 32 && KeyBytes(d[1..33]) == d
  {
    LittleEndianBytes(Crc(d[..33]), d[33], d[34]);
    assert [ED25519_PUBLIC_VERSION] + d[1..33] == d[..33];
  }

  lemma BytesOfKey(key: Bytes)
    requires |key| == 32
    ensures Checks(KeyBytes(key))
  {
    var payload := [ED25519_PUBLIC_VERSION] + key;
    LittleEndianBytes(Crc(payload), 0, 0);
    assert KeyBytes(key)[..33] == payload;
  }

  lemma VersionBits()
    ensures BitsOfByte(48)[..5] == BitsOfIndex(6)
  {
    assert BitsOfByte(48)[..5] == [false, false, true, true, false];
    assert BitsOfIndex(6) == [false, false, true, true, false];
  }

  lemma FirstGroup(d: Bytes)
    requires d != []
    ensures Groups(d) != [] && BitsOfIndex(Groups(d)[0]) == BitsOfByte(d[0])[..5]
  {
    EightAt(d, 0);
    GroupAt(d, 0);
    assert (BitsOfBytes(d) + [false, false, false, false])[0..5] == BitsOfByte(d[0])[..5];
  }

  /** The version byte makes the first character a G. */
  lemma VersionSpellsG(d: Bytes)
    requires d != [] && d[0] == ED25519_PUBLIC_VERSION
    ensures Encoded(d)[0] == 'G'
  {
    FirstGroup(d);
    VersionBits();
    NumberOfIndex(6);
    NumberOfIndex(Groups(d)[0]);
    assert ALPHABET32[6] == 'G';
  }

  lemma AcceptedIsKey(s: string, d: Bytes)
    requires Checks(d) && Encoded(d) == s
    ensures exists key: Bytes :: |key| == 32 && s == Encoded(KeyBytes(key))
  {
    KeyOfBytes(d);
    var key := d[1..33];
    assert |key| == 32 && s == Encoded(KeyBytes(key));
  }

  lemma ShapeOfEncoding(d: Bytes)
    requires |d| == 35 && d[0] == ED25519_PUBLIC_VERSION
    ensures HasShape(Encoded(d))
  {
    VersionSpellsG(d);
    var s := Encoded(d);
    forall i | 0 <= i < |s| ensures InClass(s[i]) {
      SymbolInClass(Groups(d)[i]);
    }
  }

  lemma KeyIsAccepted(key: Bytes)
    requires |key| == 32
    ensures Accepts(Encoded(KeyBytes(key)))
  {
    BytesOfKey(key);
    DecodeEncode(KeyBytes(key));
    ShapeOfEncoding(KeyBytes(key));
  }

  /** Accepted are exactly the encodings of the version byte, a 32-byte key and its checksum. */
  lemma AcceptsExactlyKeys(s: string)
    ensures Accepts(s) <==> exists key: Bytes :: |key| == 32 && s == Encoded(KeyBytes(key))
  {
    if Accepts(s) {
      EncodeDecode(s);
      AcceptedIsKey(s, Base32.Decoded(s).value);
    }
    forall key: Bytes | |key| == 32 && s == Encoded(KeyBytes(key)) ensures Accepts(s) {
      KeyIsAccepted(key);
    }
  }

  // ---- every single-character error is caught --------------------------------------------------

  lemma SameBits(b: Bits, c: Bits, k: nat)
    requires |b| == |c| && 8 * k + 8 <= |b|
    requires forall i :: 8 * k <= i < 8 * k + 8 ==> b[i] == c[i]
    ensures Pack(b)[k] == Pack(c)[k]
  {
    assert b[8 * k..8 * k + 8] == c[8 * k..8 * k + 8];
  }

  /** Changing character p leaves every byte alone that holds none of its five bits. */
  lemma UntouchedBytes(ds: seq<nat>, es: seq<nat>, p: nat)
    requires |ds| == |es| && p < |ds|
    requires forall i :: 0 <= i < |ds| && i != p ==> ds[i] == es[i]
    ensures forall i :: 0 <= i < 5 * |ds| && !(5 * p <= i < 5 * p + 5) ==> BitsOfIndices(ds)[i] == BitsOfIndices(es)[i]
    ensures forall k :: 0 <= k < 5 * |ds| / 8 && (8 * k + 8 <= 5 * p || 5 * p + 5 <= 8 * k) ==>
      Pack(BitsOfIndices(ds))[k] == Pack(BitsOfIndices(es))[k]
  {
    var b, c := BitsOfIndices(ds), BitsOfIndices(es);
    forall i | 0 <= i < 5 * |ds| && !(5 * p <= i < 5 * p + 5) ensures b[i] == c[i] {
      assert i / 5 != p;
    }
    forall k | 0 <= k < 5 * |ds| / 8 && (8 * k + 8 <= 5 * p || 5 * p + 5 <= 8 * k) ensures Pack(b)[k] == Pack(c)[k] {
      SameBits(b, c, k);
    }
  }

  lemma SameHighNibble(x: bv8, y: bv8)
    requires BitsOfByte(x)[0..4] == BitsOfByte(y)[0..4]
    ensures XorByte(x, y) & 0xf0 == 0
  {
    var p, q := BitsOfByte(x), BitsOfByte(y);
    assert p[0..4][0] == q[0..4][0] && p[0..4][1] == q[0..4][1] && p[0..4][2] == q[0..4][2] && p[0..4][3] == q[0..4][3];
    assert p[0] == q[0] && p[1] == q[1] && p[2] == q[2] && p[3] == q[3];
  }

  lemma SameLowSeven(x: bv8, y: bv8)
    requires BitsOfByte(x)[1..8] == BitsOfByte(y)[1..8]
    ensures XorByte(x, y) & 0x7f == 0
  {
    var p, q := BitsOfByte(x), BitsOfByte(y);
    assert p[1..8][0] == q[1..8][0] && p[1..8][1] == q[1..8][1] && p[1..8][2] == q[1..8][2] && p[1..8][3] == q[1..8][3];
    assert p[1..8][4] == q[1..8][4] && p[1..8][5] == q[1..8][5] && p[1..8][6] == q[1..8][6];
    assert p[1] == q[1] && p[2] == q[2] && p[3] == q[3] && p[4] == q[4] && p[5] == q[5] && p[6] == q[6] && p[7] == q[7];
  }

  lemma NibbleSteps(e: bv16)
    requires e < 16
    ensures Shift(e << 8) == e << 9 && Shift(e << 9) == e << 10 && Shift(e << 10) == e << 11 && Shift(e << 11) == e << 12
    ensures Shift(e << 12) == (e << 13) ^ Feedback(e >> 3)
    ensures Shift((e << 13) ^ Feedback(e >> 3)) == (e << 14) ^ Feedback(e >> 2)
    ensures Shift((e << 14) ^ Feedback(e >> 2)) == (e << 15) ^ Feedback(e >> 1)
    ensures Shift((e << 15) ^ Feedback(e >> 1)) == Feedback(e)
  {
  }

  /** A change in the low nibble of the last payload byte moves the CRC by a multiple of the
      polynomial's tail. */
  lemma NibbleShifts(e: bv16)
    requires e < 16
    ensures Shifts(e << 8, 8) == Feedback(e)
  {
    NibbleSteps(e);
    var w := e << 8;
    assert Shifts(w, 1) == Shift(Shifts(w, 0));
    assert Shifts(w, 2) == Shift(Shifts(w, 1));
    assert Shifts(w, 3) == Shift(Shifts(w, 2));
    assert Shifts(w, 4) == Shift(Shifts(w, 3));
    assert Shifts(w, 5) == Shift(Shifts(w, 4));
    assert Shifts(w, 6) == Shift(Shifts(w, 5));
    assert Shifts(w, 7) == Shift(Shifts(w, 6));
  }

  /** That move never equals the move of the checksum's top low-byte bit. */
  lemma StraddleDiffers(e: bv16, f: bv16)
    requires e < 16 && f & 0x7f == 0 && f < 256 && Feedback(e) == f
    ensures e == 0 && f == 0
  {
  }

  /** Two accepted payloads and checksums that differ at most in the low nibble of byte 32 and
      the top bit of byte 33 are the same. */
  lemma StraddlingCharacter(x: Bytes, y: Bytes)
    requires Checks(x) && Checks(y)
    requires forall i :: 0 <= i < 35 && i != 32 && i != 33 ==> x[i] == y[i]
    requires XorByte(x[32], y[32]) & 0xf0 == 0 && XorByte(x[33], y[33]) & 0x7f == 0
    ensures x == y
  {
    var s := Crc(x[..32]);
    assert x[..33] == x[..32] + [x[32]] && y[..33] == x[..32] + [y[32]];
    FoldAppend(Absorb, 0, x[..32], [x[32]]);
    FoldAppend(Absorb, 0, x[..32], [y[32]]);
    FoldOne(Absorb, s, x[32]);
    FoldOne(Absorb, s, y[32]);
    LastByteDifference(s, x[32], y[32], x[33], y[33], x[34]);
  }

  lemma FoldOne<R, B>(f: (R, B) -> R, r: R, b: B)
    ensures Fold(f, r, [b]) == f(r, b)
  {
    assert [b][..0] == [];
  }

  lemma LoadSum(s: bv16, a: bv8, b: bv8)
    requires XorByte(a, b) & 0xf0 == 0
    ensures XorByte(a, b) as bv16 < 16
    ensures XorWord(Load(s, a), Load(s, b)) == (XorByte(a, b) as bv16) << 8
  {
  }

  lemma ChecksumSum(a: bv8, b: bv8, c: bv8)
    ensures XorWord(LittleEndian(a, c), LittleEndian(b, c)) == XorByte(a, b) as bv16
  {
  }

  lemma SmallXor(f: bv8)
    requires f & 0x7f == 0
    ensures (f as bv16) & 0x7f == 0 && (f as bv16) < 256
  {
  }

  lemma LastByteDifference(s: bv16, a: bv8, b: bv8, c: bv8, d: bv8, top: bv8)
    requires Absorb(s, a) == LittleEndian(c, top) && Absorb(s, b) == LittleEndian(d, top)
    requires XorByte(a, b) & 0xf0 == 0 && XorByte(c, d) & 0x7f == 0
    ensures a == b && c == d
  {
    var e, f := XorByte(a, b) as bv16, XorByte(c, d) as bv16;
    LoadSum(s, a, b);
    ShiftsLinear(Load(s, a), Load(s, b), e << 8, 8);
    NibbleShifts(e);
    ChecksumSum(c, d, top);
    SmallXor(XorByte(c, d));
    StraddleDiffers(e, f);
    ZeroXor(a, b);
    ZeroXor(c, d);
  }

  lemma ZeroXor(a: bv8, b: bv8)
    requires XorByte(a, b) as bv16 == 0
    ensures a == b
  {
  }

  function KeyBits(s: string): Bits
    requires Over(ALPHABET32, s)
  {
    BitsOfIndices(IndicesOf(ALPHABET32, s))
  }

  lemma AcceptedBits(s: string)
    requires Accepts(s)
    ensures Over(ALPHABET32, s) && |s| == 56 && |KeyBits(s)| == 280
    ensures Checks(Pack(KeyBits(s))) && Encoded(Pack(KeyBits(s))) == s
  {
    EncodeDecode(s);
  }

  lemma SameIndices(s: string, t: string, p: nat)
    requires Over(ALPHABET32, s) && Over(ALPHABET32, t) && |s| == |t| && p < |s|
    requires forall i :: 0 <= i < |s| && i != p ==> s[i] == t[i]
    ensures var (ds, es) := (IndicesOf(ALPHABET32, s), IndicesOf(ALPHABET32, t));
      |ds| == |es| == |s| && forall i :: 0 <= i < |ds| && i != p ==> ds[i] == es[i]
  {
  }

  lemma NearbyIndices(ds: seq<nat>, es: seq<nat>, p: nat)
    requires |ds| == |es| == 56 && p < 56
    requires forall i :: 0 <= i < 56 && i != p ==> ds[i] == es[i]
    requires Checks(Pack(BitsOfIndices(ds))) && Checks(Pack(BitsOfIndices(es)))
    ensures Pack(BitsOfIndices(ds)) == Pack(BitsOfIndices(es))
  {
    UntouchedBytes(ds, es, p);
    NearbyKeysAreEqual(BitsOfIndices(ds), BitsOfIndices(es), p);
  }

  lemma AlmostSameKeys(s: string, t: string, p: nat)
    requires Accepts(s) && Accepts(t) && p < 56
    requires forall i :: 0 <= i < 56 && i != p ==> s[i] == t[i]
    ensures s == t
  {
    AcceptedBits(s);
    AcceptedBits(t);
    SameIndices(s, t, p);
    NearbyIndices(IndicesOf(ALPHABET32, s), IndicesOf(ALPHABET32, t), p);
  }

  /** Changing any one character of an accepted key, to any character, makes it rejected. */
  lemma SingleCharacterError(s: string, t: string, p: nat)
    requires Accepts(s) && |t| == |s| && p < |s| && s[p] != t[p]
    requires forall i :: 0 <= i < |s| && i != p ==> s[i] == t[i]
    ensures !Accepts(t)
  {
    if Accepts(t) {
      AlmostSameKeys(s, t, p);
    }
  }

  lemma NearbyKeysAreEqual(b: Bits, c: Bits, p: nat)
    requires |b| == |c| == 280 && p < 56 && Checks(Pack(b)) && Checks(Pack(c))
    requires forall i :: 0 <= i < 280 && !(5 * p <= i < 5 * p + 5) ==> b[i] == c[i]
    requires forall k :: 0 <= k < 35 && (8 * k + 8 <= 5 * p || 5 * p + 5 <= 8 * k) ==> Pack(b)[k] == Pack(c)[k]
    ensures Pack(b) == Pack(c)
  {
    if p < 52 {
      PayloadChange(Pack(b), Pack(c), 5 * p / 8);
    } else if p == 52 {
      SameNibbles(b, c);
      StraddlingCharacter(Pack(b), Pack(c));
    } else {
      SamePayload(Pack(b), Pack(c));
    }
  }

  /** Character 52 holds the low nibble of byte 32 and the top bit of byte 33. */
  lemma SameNibbles(b: Bits, c: Bits)
    requires |b| == |c| == 280
    requires forall i :: 0 <= i < 280 && !(260 <= i < 265) ==> b[i] == c[i]
    ensures XorByte(Pack(b)[32], Pack(c)[32]) & 0xf0 == 0 && XorByte(Pack(b)[33], Pack(c)[33]) & 0x7f == 0
  {
    HighNibbleAt(b, c, 32);
    LowSevenAt(b, c, 33);
  }

  lemma HighNibbleAt(b: Bits, c: Bits, k: nat)
    requires |b| == |c| && 8 * k + 8 <= |b|
    requires forall i :: 8 * k <= i < 8 * k + 4 ==> b[i] == c[i]
    ensures XorByte(Pack(b)[k], Pack(c)[k]) & 0xf0 == 0
  {
    PackedByte(b, k);
    PackedByte(c, k);
    SameSubslice(b, c, 8 * k, 0, 4);
    SameHighNibble(Pack(b)[k], Pack(c)[k]);
  }

  lemma LowSevenAt(b: Bits, c: Bits, k: nat)
    requires |b| == |c| && 8 * k + 8 <= |b|
    requires forall i :: 8 * k + 1 <= i < 8 * k + 8 ==> b[i] == c[i]
    ensures XorByte(Pack(b)[k], Pack(c)[k]) & 0x7f == 0
  {
    PackedByte(b, k);
    PackedByte(c, k);
    SameSubslice(b, c, 8 * k, 1, 8);
    SameLowSeven(Pack(b)[k], Pack(c)[k]);
  }

  lemma SameSubslice<T>(b: seq<T>, c: seq<T>, at: nat, lo: nat, hi: nat)
    requires |b| == |c| && at + 8 <= |b| && lo <= hi <= 8
    requires forall i :: at + lo <= i < at + hi ==> b[i] == c[i]
    ensures b[at..at + 8][lo..hi] == c[at..at + 8][lo..hi]
  {
    var x, y := b[at..at + 8][lo..hi], c[at..at + 8][lo..hi];
    forall i | 0 <= i < hi - lo ensures x[i] == y[i] {
      assert b[at + lo + i] == c[at + lo + i];
    }
  }

  lemma PackedByte(b: Bits, k: nat)
    requires 8 * k + 8 <= |b|
    ensures BitsOfByte(Pack(b)[k]) == b[8 * k..8 * k + 8]
  {
    var p := b[8 * k..8 * k + 8];
    assert Pack(b)[k] == ByteOf(p);
  }

  lemma SamePayload(x: Bytes, y: Bytes)
    requires Checks(x) && Checks(y)
    requires forall k :: 0 <= k < 33 ==> x[k] == y[k]
    ensures x == y
  {
    assert x[..33] == y[..33];
    LittleEndianBytes(0, x[33], x[34]);
    LittleEndianBytes(0, y[33], y[34]);
  }

  lemma PayloadChange(x: Bytes, y: Bytes, k: nat)
    requires Checks(x) && Checks(y) && k + 2 <= 33
    requires forall i :: 0 <= i < 35 && i != k && i != k + 1 ==> x[i] == y[i]
    ensures x == y
  {
    TwoByteBurst(x[..33], y[..33], k);
    assert x == x[..33] + [x[33], x[34]] && y == y[..33] + [y[33], y[34]];
  }
}
