/** The streaming class `SHA3` (unit/libdevcore/crypto/SHA3/sha3.cpp). */
module Sha3 {
  import opened Keccak
  import opened Blocks
  import opened Sponge
  import opened ByteStrings
  import Sha3Rounds
  import opened Sessions

  const SUFFIX: bv8 := 0x06

  predicate IsVariant(bits: nat) {
    bits == 224 || bits == 256 || bits == 384 || bits == 512
  }

  /** m_blockSize: 200 - 2 * (bits / 8). */
  function Rate(bits: nat): (rate: nat)
    requires IsVariant(bits)
    ensures 72 <= rate <= 144
  {
    200 - 2 * (bits / 8)
  }

  /** Section 6.1 of FIPS 202: the capacity is twice the digest length. */
  lemma RateLaw(bits: nat)
    requires IsVariant(bits)
    ensures 8 * Rate(bits) + 2 * bits == 1600
  {}

  class Hasher {
    const bits: nat
    const blockSize: nat
    const hash: array<Lane>
    const buffer: array<bv8>
    var numBytes: nat
    var bufferSize: nat

    /** Everything added since the last reset, and the part of it already processed. */
    ghost var message: seq<bv8>
    ghost var done: seq<bv8>

    ghost predicate Shaped()
    {
      && IsVariant(bits) && blockSize == Rate(bits)
      && hash.Length == 25 && buffer.Length == 144
    }

    ghost predicate Valid()
      reads this, hash, buffer
      ensures Valid() ==> Shaped()
    {
      && Shaped()
      && bufferSize < blockSize
      && Tracks()
      && numBytes == Wrap64(|done|)
    }

    /** The state and the buffer account for the message. */
    ghost predicate Tracks()
      requires Shaped() && bufferSize <= blockSize
      reads this, hash, buffer
    {
      && Whole(blockSize, |done|)
      && message == done + buffer[..bufferSize]
      && hash[..] == Fold(AbsorbBlock, blockSize, ZERO_STATE, done)
    }

    constructor (bits: nat)
      requires IsVariant(bits)
      ensures Valid() && this.bits == bits && message == []
      ensures fresh(hash) && fresh(buffer)
    {
      this.bits := bits;
      blockSize := Rate(bits);
      hash := new Lane[25](_ => ZERO);
      buffer := new bv8[144];
      numBytes := 0;
      bufferSize := 0;
      message := [];
      done := [];
      new;
      assert hash[..] == ZERO_STATE;
    }

    method Reset()
      requires Shaped()
      modifies this, hash
      ensures Valid() && message == []
    {
      for i := 0 to 25
        invariant forall k | 0 <= k < i :: hash[k] == ZERO
      {
        hash[i] := ZERO;
      }
      assert hash[..] == ZERO_STATE;
      numBytes := 0;
      bufferSize := 0;
      message := [];
      done := [];
    }

    method ProcessBlock(data: seq<bv8>)
      requires Shaped() && |data| == blockSize
      modifies hash
      ensures hash[..] == AbsorbBlock(old(hash[..]), data)
    {
      hide Permute, Xor, BlockLane, PartialLane;
      ghost var s: State := hash[..];
      RateOf(bits);
      var lanes := blockSize / 8;
      for i := 0 to lanes
        invariant forall k | 0 <= k < 25 :: hash[k] == if k < i then Xor(s[k], BlockLane(data, k)) else s[k]
      {
        LoadLane(data, i);
        hash[i] := Xor(hash[i], PartialLane(data, 8 * i, 8));
      }
      forall k | lanes <= k < 25 ensures Xor(s[k], BlockLane(data, k)) == s[k] {
        BeyondBlock(data, k);
        XorZero(s[k]);
      }
      assert hash[..] == XorBlock(s, data);
      Sha3Rounds.PermuteInPlace(hash);
    }

    /** `m_buffer[m_bufferSize++] = *current++`. */
    method Keep(x: bv8)
      requires Shaped() && bufferSize < blockSize && Tracks()
      modifies this`bufferSize, this`message, buffer
      ensures bufferSize == old(bufferSize) + 1
      ensures Tracks() && message == old(message) + [x]
    {
      hide AbsorbBlock, Fold, Whole;
      buffer[bufferSize] := x;
      assert buffer[..bufferSize + 1] == buffer[..bufferSize] + [x];
      bufferSize := bufferSize + 1;
      message := message + [x];
    }

    /** The full buffer becomes a processed block. */
    method Flush()
      requires Shaped() && bufferSize == blockSize && Tracks()
      requires numBytes == Wrap64(|done|)
      modifies this`bufferSize, this`numBytes, this`done, hash
      ensures Valid() && bufferSize == 0
    {
      hide AbsorbBlock, Fold, Whole, Wrap64;
      var block := buffer[..blockSize];
      FoldBlock(AbsorbBlock, blockSize, ZERO_STATE, done, block);
      ProcessBlock(block);
      WrapAdd(|done|, blockSize);
      numBytes := Wrap64(numBytes + blockSize);
      done := done + block;
      bufferSize := 0;
    }

    /** A block straight from the input. */
    method Consume(block: seq<bv8>)
      requires Valid() && bufferSize == 0 && |block| == blockSize
      modifies this`numBytes, this`done, this`message, hash
      ensures Valid() && message == old(message) + block
    {
      hide AbsorbBlock, Fold, Whole, Wrap64;
      FoldBlock(AbsorbBlock, blockSize, ZERO_STATE, done, block);
      ProcessBlock(block);
      WrapAdd(|done|, blockSize);
      numBytes := Wrap64(numBytes + blockSize);
      done := done + block;
      message := message + block;
    }

    method Add(data: seq<bv8>)
      requires Valid()
      modifies this, hash, buffer
      ensures Valid() && message == old(message) + data
    {
      hide Tracks;
      var current := 0;
      if bufferSize > 0 {
        while current < |data| && bufferSize < blockSize
          invariant 0 <= current <= |data| && bufferSize <= blockSize
          invariant Tracks() && numBytes == Wrap64(|done|)
          invariant message == old(message) + data[..current]
        {
          Keep(data[current]);
          current := current + 1;
        }
      }
      if bufferSize == blockSize {
        Flush();
      }
      if current == |data| {
        return;
      }
      while |data| - current >= blockSize
        invariant 0 <= current <= |data| && bufferSize == 0
        invariant Valid() && message == old(message) + data[..current]
      {
        Consume(data[current..current + blockSize]);
        current := current + blockSize;
      }
      while current < |data|
        invariant 0 <= current <= |data| && bufferSize + (|data| - current) < blockSize
        invariant Valid() && message == old(message) + data[..current]
      {
        Keep(data[current]);
        current := current + 1;
      }
    }

    method ProcessBuffer()
      requires Valid()
      modifies hash, buffer
      ensures hash[..] == Absorbed(blockSize, SUFFIX, message)
      ensures buffer[..bufferSize] == old(buffer[..bufferSize])
    {
      hide AbsorbBlock, Fold, Whole, Rest, Padding;
      ghost var kept := buffer[..bufferSize];
      ghost var padding := Padding(blockSize, bufferSize, SUFFIX);
      PadBuffer(buffer, bufferSize, blockSize);
      ProcessBlock(buffer[..blockSize]);
      FoldBlock(AbsorbBlock, blockSize, ZERO_STATE, done, kept + padding);
      RestOf(blockSize, done, kept);
      assert Padded(blockSize, SUFFIX, message) == done + (kept + padding);
    }

    /** `getHash`: the digest of everything added so far; what follows is not affected. */
    method GetHash() returns (result: string)
      requires Valid()
      modifies hash, buffer
      ensures result == Digest(blockSize, SUFFIX, bits / 8, message)
      ensures Valid()
    {
      hide AbsorbBlock, Fold, Whole, Absorbed, Hex, Squeeze, HexByte;
      var oldHash := new Lane[25](_ => ZERO);
      for i := 0 to 25
        invariant forall k | 0 <= k < i :: oldHash[k] == hash[k]
        invariant hash[..] == old(hash[..]) && buffer[..] == old(buffer[..])
      {
        oldHash[i] := hash[i];
      }
      ProcessBuffer();
      result := HexOfState(hash[..], bits);
      for i := 0 to 25
        invariant forall k | 0 <= k < i :: hash[k] == oldHash[k]
        invariant forall k | 0 <= k < 25 :: oldHash[k] == old(hash[k])
        invariant buffer[..bufferSize] == old(buffer[..bufferSize])
      {
        hash[i] := oldHash[i];
      }
      assert hash[..] == old(hash[..]);
    }
  }

  /** "add padding": 0x06, zeros, and a set bit in the last byte. */
  method PadBuffer(buffer: array<bv8>, bufferSize: nat, blockSize: nat)
    requires bufferSize < blockSize <= buffer.Length
    modifies buffer
    ensures buffer[..blockSize] == old(buffer[..bufferSize]) + Padding(blockSize, bufferSize, SUFFIX)
  {
    var offset := bufferSize;
    buffer[offset] := 0x06;
    offset := offset + 1;
    while offset < blockSize
      invariant bufferSize < offset <= blockSize
      invariant buffer[..bufferSize] == old(buffer[..bufferSize]) && buffer[bufferSize] == 0x06
      invariant forall k | bufferSize < k < offset :: buffer[k] == 0
    {
      buffer[offset] := 0;
      offset := offset + 1;
    }
    buffer[offset - 1] := buffer[offset - 1] | 0x80;
  }

  /** The conversion loops of `getHash`: whole lanes, then the rest of a lane byte by byte. */
  method HexOfState(s: State, bits: nat) returns (result: string)
    requires IsVariant(bits)
    ensures result == Hex(Squeeze(s, bits / 8))
  {
    hide Hex, Squeeze, HexByte, ByteOf;
    var hashLength := bits / 64;
    result := "";
    SqueezeStarts(s);
    for i := 0 to hashLength
      invariant result == Hex(Squeeze(s, 8 * i))
    {
      for j := 0 to 8
        invariant result == Hex(Squeeze(s, 8 * i + j))
      {
        SqueezeNext(s, i, j);
        result := result + HexByte(ByteOf(s[i], j));
      }
    }
    var remainder := bits - hashLength * 64;
    var processed := 0;
    while processed < remainder
      invariant processed % 8 == 0 && processed <= remainder
      invariant result == Hex(Squeeze(s, 8 * hashLength + processed / 8))
    {
      SqueezeNext(s, hashLength, processed / 8);
      result := result + HexByte(ByteOf(s[hashLength], processed / 8));
      processed := processed + 8;
    }
  }

  // ------------------------------------------------------- whole sessions

  function OneShot(bits: nat): seq<bv8> -> string
    requires IsVariant(bits)
  {
    message => Digest(Rate(bits), SUFFIX, bits / 8, message)
  }

  /** Any interleaving of `add`, `getHash` and `reset` on one object. */
  method Session(bits: nat, calls: seq<Call>) returns (digests: seq<string>)
    requires IsVariant(bits)
    ensures digests == Expected(OneShot(bits), calls, [])
  {
    hide Digest, Hasher.Valid;
    var hasher := new Hasher(bits);
    digests := [];
    for i := 0 to |calls|
      invariant hasher.Valid() && hasher.bits == bits
      invariant fresh(hasher) && fresh(hasher.hash) && fresh(hasher.buffer)
      invariant digests + Expected(OneShot(bits), calls[i..], hasher.message) == Expected(OneShot(bits), calls, [])
    {
      ghost var added := hasher.message;
      assert calls[i..][1..] == calls[i + 1..];
      match calls[i]
      case Add(data) =>
        hasher.Add(data);
      case GetHash =>
        var digest := hasher.GetHash();
        digests := digests + [digest];
      case Reset =>
        hasher.Reset();
    }
  }

  /** `operator()`: the digest of one memory block, whatever was added before. */
  method Hash(hasher: Hasher, data: seq<bv8>) returns (digest: string)
    requires hasher.Shaped()
    modifies hasher, hasher.hash, hasher.buffer
    ensures hasher.Valid() && digest == Digest(hasher.blockSize, SUFFIX, hasher.bits / 8, data)
  {
    hide Digest, Hasher.Valid;
    hasher.Reset();
    hasher.Add(data);
    assert [] + data == data;
    digest := hasher.GetHash();
  }

  lemma RateOf(bits: nat)
    requires IsVariant(bits)
    ensures Rate(bits) == 8 * (Rate(bits) / 8) && Rate(bits) / 8 < 25
  {}

  lemma LoadLane(data: seq<bv8>, i: nat)
    requires 8 * i + 8 <= |data|
    ensures BlockLane(data, i) == PartialLane(data, 8 * i, 8)
  {}

  lemma BeyondBlock(data: seq<bv8>, i: nat)
    requires |data| <= 8 * i
    ensures BlockLane(data, i) == ZERO
  {}
}
