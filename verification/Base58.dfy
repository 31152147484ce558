/** Base-58 decoding of Solana keys: the in-place base-58 to base-256 conversion of
    apps/backend/src/utils/publicKey.ts. */
module Base58 {
  import opened Alphabet
  import opened Digits
  import opened Wrappers

  const ALPHABET := "123456789ABCDEFGHJKLMNPQRSTUVWXYZ" + "abcdefghijkmnopqrstuvwxyz"

  type Bytes = seq<nat>

  /** What decoding means: one zero byte for every leading '1', then the shortest
      big-endian bytes of the base-58 value; nothing for a foreign character. */
  function Decoded(s: string): Option<Bytes> {
    if Over(ALPHABET, s) then Some(Rebase(IndicesOf(ALPHABET, s), 58, 256)) else None
  }

  /** Standard base-58 encoding. */
  function Encoded(bytes: Bytes): string
    requires IsDigits(bytes, 256)
  {
    RebaseRoundTrip(bytes, 256, 58);
    CharsOf(ALPHABET, Rebase(bytes, 256, 58))
  }

  // ---- the loop ------------------------------------------------------------------

  /** Splitting a carry into a byte and the carry it leaves does not change its weight. */
  lemma CarrySplit(carry: nat, p: nat)
    ensures (carry % 256) * p + (carry / 256) * (256 * p) == carry * p
  {
    var q, r := carry / 256, carry % 256;
    assert carry == 256 * q + r;
    assert q * (256 * p) == (256 * q) * p;
    assert (256 * q) * p + r * p == (256 * q + r) * p;
  }

  /** With value v of the digits read and weight low of the bytes written so far,
      reading digit d at weight p keeps low + carry * p == v * 58 + value. */
  lemma DigitStep(low: nat, carry: nat, p: nat, v: nat, d: nat, value: nat)
    requires low + carry * p == v * 58 + value
    ensures low + (carry + d * 58) * p == (v + d * p) * 58 + value
  {
    assert (carry + d * 58) * p == carry * p + d * 58 * p;
    assert d * 58 * p == (d * p) * 58;
  }

  /** The inner loop: multiplies every byte in place and pushes what the carry leaves. */
  method MulAdd(old58: Bytes, value: nat) returns (bytes: Bytes)
    requires IsDigits(old58, 256) && value < 58
    requires old58 != [] ==> LowFirst(old58, 256) >= Pow(256, |old58| - 1)
    ensures IsDigits(bytes, 256)
    ensures LowFirst(bytes, 256) == LowFirst(old58, 256) * 58 + value
    ensures bytes != [] ==> LowFirst(bytes, 256) >= Pow(256, |bytes| - 1)
  {
    bytes := old58;
    var carry: nat := value;
    var j := 0;
    LowFirstEmpty(256);
    while j < |bytes|
      invariant 0 <= j <= |bytes| == |old58|
      invariant IsDigits(bytes, 256)
      invariant bytes[j..] == old58[j..]
      invariant LowFirst(bytes[..j], 256) + carry * Pow(256, j) == LowFirst(old58[..j], 256) * 58 + value
    {
      CarryInvariant(bytes, old58, j, carry, value);
      carry := carry + bytes[j] * 58;
      bytes := bytes[j := carry % 256];
      carry := carry / 256;
      j := j + 1;
    }
    assert bytes[..j] == bytes && old58[..j] == old58;
    bytes := PushCarry(bytes, carry, LowFirst(old58, 256) * 58 + value);
  }

  lemma CarryInvariant(bytes: Bytes, old58: Bytes, j: nat, carry: nat, value: nat)
    requires j < |bytes| == |old58| && bytes[j..] == old58[j..]
    requires LowFirst(bytes[..j], 256) + carry * Pow(256, j) == LowFirst(old58[..j], 256) * 58 + value
    ensures var c := carry + bytes[j] * 58;
            LowFirst(bytes[j := c % 256][..j + 1], 256) + (c / 256) * Pow(256, j + 1)
            == LowFirst(old58[..j + 1], 256) * 58 + value
  {
    var c, p := carry + bytes[j] * 58, Pow(256, j);
    assert bytes[j] == bytes[j..][0] == old58[j];
    assert old58[..j + 1] == old58[..j] + [old58[j]];
    LowFirstSnoc(old58[..j], old58[j], 256);
    assert bytes[j := c % 256][..j + 1] == bytes[..j] + [c % 256];
    LowFirstSnoc(bytes[..j], c % 256, 256);
    DigitStep(LowFirst(bytes[..j], 256), carry, p, LowFirst(old58[..j], 256), old58[j], value);
    CarrySplit(c, p);
  }

  method PushCarry(low: Bytes, high: nat, ghost total: nat) returns (bytes: Bytes)
    requires IsDigits(low, 256)
    requires LowFirst(low, 256) + high * Pow(256, |low|) == total
    requires low != [] ==> total >= Pow(256, |low| - 1)
    ensures IsDigits(bytes, 256) && LowFirst(bytes, 256) == total
    ensures bytes != [] ==> total >= Pow(256, |bytes| - 1)
  {
    bytes := low;
    var carry: nat := high;
    while carry > 0
      invariant IsDigits(bytes, 256)
      invariant LowFirst(bytes, 256) + carry * Pow(256, |bytes|) == total
      invariant bytes != [] ==> total >= Pow(256, |bytes| - 1)
    {
      LowFirstSnoc(bytes, carry % 256, 256);
      CarrySplit(carry, Pow(256, |bytes|));
      MulMono(1, carry, Pow(256, |bytes|));
      bytes := bytes + [carry % 256];
      carry := carry / 256;
    }
  }

  /** bytes is the shortest little-endian numeral for the characters read so far. */
  ghost predicate Holds(al: string, read: string, bytes: Bytes) {
    && Over(al, read) && IsDigits(bytes, 256)
    && LowFirst(bytes, 256) == Value(IndicesOf(al, read), 58)
    && (bytes != [] ==> LowFirst(bytes, 256) >= Pow(256, |bytes| - 1))
  }

  /** base58Decode. */
  method Decode(input: string) returns (r: Option<Bytes>)
    ensures r == Decoded(input)
  {
    var bytes: Bytes := [];
    LowFirstEmpty(256);
    for n := 0 to |input|
      invariant Holds(ALPHABET, input[..n], bytes)
    {
      var value := IndexOf(ALPHABET, input[n]);
      if value == -1 {
        return None;
      }
      ghost var low := LowFirst(bytes, 256);
      bytes := MulAdd(bytes, value);
      HoldsNext(ALPHABET, input[..n], input[n], low, bytes);
      assert input[..n + 1] == input[..n] + [input[n]];
    }
    assert input[..|input|] == input;
    ghost var body := bytes;
    ghost var ones;
    bytes, ones := PushLeadingZeros(input, bytes);
    Assembled(ALPHABET, input, body, ones);
    return Some(Reversed(bytes));
  }

  method PushLeadingZeros(input: string, body: Bytes) returns (bytes: Bytes, ghost ones: nat)
    ensures bytes == body + Zeros(ones)
    ensures ones <= |input| && (forall i :: 0 <= i < ones ==> input[i] == '1')
    ensures ones < |input| ==> input[ones] != '1'
  {
    bytes := body;
    var k := 0;
    while k < |input| && input[k] == '1'
      invariant 0 <= k <= |input| && forall i :: 0 <= i < k ==> input[i] == '1'
      invariant bytes == body + Zeros(k)
    {
      bytes := bytes + [0];
      k := k + 1;
      assert Zeros(k) == Zeros(k - 1) + [0];
    }
    ones := k;
  }

  lemma Assembled(al: string, input: string, body: Bytes, k: nat)
    requires Holds(al, input, body) && al != [] && al[0] == '1'
    requires k <= |input| && (forall i :: 0 <= i < k ==> input[i] == '1')
    requires k < |input| ==> input[k] != '1'
    ensures Rebase(IndicesOf(al, input), 58, 256) == Reversed(body + Zeros(k))
  {
    var ds := IndicesOf(al, input);
    assert LeadingZeros(ds) == k by {
      assert forall i :: 0 <= i < k ==> ds[i] == IndexOf(al, input[i]) == 0;
    }
    ShortestForm(body, 256);
    ReversedPad(body, k);
  }

  lemma ValueOfNext(al: string, read: string, c: char)
    requires Over(al, read) && c in al
    ensures Over(al, read + [c])
    ensures Value(IndicesOf(al, read + [c]), 58) == Value(IndicesOf(al, read), 58) * 58 + IndexOf(al, c)
  {
    IndicesOfSnoc(al, read, c);
    ValueSnoc(IndicesOf(al, read), IndexOf(al, c), 58);
  }

  lemma HoldsNext(al: string, read: string, c: char, low: nat, bytes: Bytes)
    requires Over(al, read) && c in al && low == Value(IndicesOf(al, read), 58)
    requires IsDigits(bytes, 256) && LowFirst(bytes, 256) == low * 58 + IndexOf(al, c)
    requires bytes != [] ==> LowFirst(bytes, 256) >= Pow(256, |bytes| - 1)
    ensures Holds(al, read + [c], bytes)
  {
    ValueOfNext(al, read, c);
  }

  // ---- what decoding is for --------------------------------------------------------

  lemma AlphabetAt(d: nat)
    requires d < 58
    ensures ALPHABET[d] ==
      if d < 9 then '1' + d as char
      else if d < 17 then 'A' + (d - 9) as char
      else if d < 22 then 'J' + (d - 17) as char
      else if d < 33 then 'P' + (d - 22) as char
      else if d < 44 then 'a' + (d - 33) as char
      else 'm' + (d - 44) as char
  {
  }

  lemma AlphabetIsDistinct()
    ensures Distinct(ALPHABET)
  {
    forall i, j | 0 <= i < j < 58 ensures ALPHABET[i] != ALPHABET[j] {
      AlphabetAt(i);
      AlphabetAt(j);
    }
  }

  /** Decoding inverts standard encoding, for every byte string. */
  lemma DecodeEncode(bytes: Bytes)
    requires IsDigits(bytes, 256)
    ensures Decoded(Encoded(bytes)) == Some(bytes)
  {
    RebaseRoundTrip(bytes, 256, 58);
    AlphabetIsDistinct();
    IndicesOfChars(ALPHABET, Rebase(bytes, 256, 58));
  }

  /** Encoding inverts decoding, for every string that decodes. */
  lemma EncodeDecode(s: string)
    requires Decoded(s).Some?
    ensures IsDigits(Decoded(s).value, 256) && Encoded(Decoded(s).value) == s
  {
    RebaseRoundTrip(IndicesOf(ALPHABET, s), 58, 256);
    CharsOfIndices(ALPHABET, s);
  }

  /** No two strings decode alike. */
  lemma DecodingIsInjective(s: string, t: string)
    requires Decoded(s).Some? && Decoded(s) == Decoded(t)
    ensures s == t
  {
    EncodeDecode(s);
    EncodeDecode(t);
  }

  datatype KeyCheck = Accepted | NotBase58 | WrongLength

  /** validateEd25519Base58PublicKey. */
  method ValidateEd25519Key(value: string) returns (check: KeyCheck)
    ensures check.Accepted? <==>
      exists key: Bytes :: |key| == 32 && IsDigits(key, 256) && value == Encoded(key)
    ensures check.NotBase58? <==> !Over(ALPHABET, value)
  {
    var decoded := Decode(value);
    if decoded.None? { return NotBase58; }
    EncodeDecode(value);
    if |decoded.value| != 32 {
      forall key: Bytes | |key| == 32 && IsDigits(key, 256) ensures value != Encoded(key) {
        DecodeEncode(key);
      }
      return WrongLength;
    }
    return Accepted;
  }
}
