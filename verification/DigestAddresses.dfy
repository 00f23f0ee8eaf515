/** Addresses built from the SHA-256 digests of `SHA256_Legacy` (unit/libdevcore/bip44/addresses.hpp). */
module DigestAddresses {
  import opened Base58
  import opened Wrappers
  import opened Addresses
  import opened ByteStrings
  import opened HexText
  import opened Sha256

  // ------------------------------------------------- hexadecimal text read back

  /** Bytes as numbers. */
  function Numbers(b: seq<bv8>): seq<Byte> {
    seq(|b|, i requires 0 <= i < |b| => b[i] as nat)
  }

  lemma HexDigitValue(x: bv8)
    ensures HexValue(HexDigit(x)) == (x & 15) as nat
  {}

  lemma HighAndLow(x: bv8)
    ensures x as nat == 16 * (((x >> 4) & 15) as nat) + (x & 15) as nat
  {}

  /** The two characters of a byte denote it, the high half first. */
  lemma HexByteNumber(x: bv8)
    ensures HexNumber(HexByte(x)) == x as nat
  {
    hide HexDigit, HexValue, HexNumber;
    HexDigitValue(x >> 4);
    HexDigitValue(x);
    HighAndLow(x);
    TwoHexDigits(HexByte(x));
  }

  /** `hex2dec`, two characters at a time, reads back the bytes that were written as text. */
  lemma {:induction false} HexReadsBack(b: seq<bv8>)
    ensures HexBytes(Hex(b)) == Numbers(b)
  {
    hide HexByte, HexNumber;
    if b != [] {
      var n := |b| - 1;
      HexReadsBack(b[..n]);
      HexShape(b[..n]);
      HexBytesAppend(Hex(b[..n]), HexByte(b[n]));
      OneHexByte(b[n]);
      assert Numbers(b) == Numbers(b[..n]) + [b[n] as nat];
    }
  }

  lemma OneHexByte(x: bv8)
    ensures HexBytes(HexByte(x)) == [x as nat]
  {
    HexByteNumber(x);
    hide HexNumber, HexDigit;
    assert HexByte(x)[..2] == HexByte(x) && HexByte(x)[2..] == "";
  }

  // ------------------------------------------------------- addresses of digests

  /** Decoding the address of two SHA-256 digests gives the prefix, the first sixteen bytes of one
      and the first four of the other. */
  lemma AddressDecodes(a: seq<bv8>, b: seq<bv8>)
    ensures |DigestText(a)| == |DigestText(b)| == 64 && |Digest(a)| == |Digest(b)| == 32
    ensures HexBytes(AddressHex(DigestText(a), DigestText(b))) != []
    ensures Decode(Encoded(HexBytes(AddressHex(DigestText(a), DigestText(b)))))
         == Some([0x16, 0xD8, 0xEE] + (Numbers(Digest(a)[..16]) + Numbers(Digest(b)[..4])))
  {
    hide Encoded, Decode, HexBytes, HashValue, Bytes, Hex, Numbers;
    DigestShape(a);
    DigestShape(b);
    var f, s := DigestText(a)[..32], DigestText(b)[..8];
    HexPrefix(Digest(a), 16);
    HexPrefix(Digest(b), 4);
    HexReadsBack(Digest(a)[..16]);
    HexReadsBack(Digest(b)[..4]);
    HexBytesAppend(f, s);
    HexBytesAppend(PREFIX, f + s);
    PrefixBytes();
    DecodeEncoded(HexBytes(PREFIX + (f + s)));
  }

  lemma {:induction false} HexPrefix(b: seq<bv8>, k: nat)
    requires k <= |b|
    ensures |Hex(b)| == 2 * |b| && Hex(b)[..2 * k] == Hex(b[..k])
    decreases |b|
  {
    hide HexByte;
    HexShape(b);
    if k == |b| {
      assert b[..k] == b;
    } else {
      var n := |b| - 1;
      HexShape(b[..n]);
      HexPrefix(b[..n], k);
      assert b[..n][..k] == b[..k];
    }
  }

  /** The address that belongs to two SHA-256 digests, which always have the form `pub2addr` needs:
      it determines the first half of one and the first four bytes of the other. */
  lemma AddressOfDigests(a: seq<bv8>, b: seq<bv8>, a': seq<bv8>, b': seq<bv8>)
    ensures var f, s := DigestText(a), DigestText(b);
      var f', s' := DigestText(a'), DigestText(b');
      && |f| == |s| == |f'| == |s'| == 64
      && HexBytes(AddressHex(f, s)) != [] && HexBytes(AddressHex(f', s')) != []
      && (Encoded(HexBytes(AddressHex(f, s))) == Encoded(HexBytes(AddressHex(f', s')))
          <==> f[..32] == f'[..32] && s[..8] == s'[..8])
  {
    hide HexBytes, Encoded, DigestText;
    DigestShape(a);
    DigestShape(b);
    DigestShape(a');
    DigestShape(b');
    var f, s := DigestText(a), DigestText(b);
    var f', s' := DigestText(a'), DigestText(b');
    AddressInjective(f[..32], s[..8], f'[..32], s'[..8]);
  }
}
