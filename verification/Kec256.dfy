/** `kec256::getHash` (unit/libdevcore/crypto/keccak/kec256.cpp). */
module Kec256 {
  import opened Keccak
  import opened Blocks
  import opened Sponge
  import opened ByteStrings
  import opened Kec256Rounds

  const BLOCK_SIZE: nat := 136
  const HASH_LEN: nat := 32
  const SUFFIX: bv8 := 0x01

  /** `state[j % 5][j / 5] ^= x << ((blockOff & 7) << 3)` with j = blockOff >> 3. */
  method XorByte(state: array2<Lane>, blockOff: nat, x: bv8)
    requires state.Length0 == 5 && state.Length1 == 5 && blockOff < 200
    modifies state
    ensures var j, k := blockOff / 8, blockOff % 8;
      Flat(state) == old(Flat(state))[j := Xor(old(Flat(state))[j], ByteAt(x, k))]
  {
    hide Xor, ByteAt;
    var j := blockOff / 8;
    CoordinatesAreDivMod(j);
    ghost var f := Flat(state);
    assert f[j] == state[j % 5, j / 5];
    state[j % 5, j / 5] := Xor(state[j % 5, j / 5], ByteAt(x, blockOff % 8));
    forall i | 0 <= i < 25 && i != j ensures X(i) != X(j) || Y(i) != Y(j) {
      IndexOfCoordinates(i);
      IndexOfCoordinates(j);
    }
  }

  /** The state while a block is being filled: `rest` added to the state after the blocks of `done`. */
  ghost predicate Holds(s: State, done: seq<bv8>, rest: seq<bv8>) {
    && Whole(BLOCK_SIZE, |done|)
    && s == XorBlock(Fold(AbsorbBlock, BLOCK_SIZE, ZERO_STATE, done), rest)
  }

  lemma HoldsNothing()
    ensures Holds(ZERO_STATE, [], [])
  {
    XorBlockNothing(ZERO_STATE);
  }

  method Feed(state: array2<Lane>, blockOff: nat, x: bv8, ghost done: seq<bv8>, ghost rest: seq<bv8>)
    requires state.Length0 == 5 && state.Length1 == 5 && blockOff < 200 && |rest| == blockOff
    requires Holds(Flat(state), done, rest)
    modifies state
    ensures Holds(Flat(state), done, rest + [x])
  {
    hide Xor, ByteAt, XorBlock, Fold, Whole;
    XorBlockAppend(Fold(AbsorbBlock, BLOCK_SIZE, ZERO_STATE, done), rest, x, blockOff / 8, blockOff % 8);
    XorByte(state, blockOff, x);
  }

  lemma BlockDone(s: State, done: seq<bv8>, block: seq<bv8>)
    requires Holds(s, done, block) && |block| == BLOCK_SIZE
    ensures Permute(s) == Fold(AbsorbBlock, BLOCK_SIZE, ZERO_STATE, done + block)
    ensures Holds(Permute(s), done + block, [])
  {
    hide Permute, XorBlock, Fold, Whole;
    FoldBlock(AbsorbBlock, BLOCK_SIZE, ZERO_STATE, done, block);
    XorBlockNothing(Permute(s));
  }

  // ----------------------------------------------------------------- padding

  lemma {:induction false} AddZeros(s: State, block: seq<bv8>, zeros: seq<bv8>)
    requires forall i | 0 <= i < |zeros| :: zeros[i] == 0
    requires |block| + |zeros| <= 200
    ensures XorBlock(s, block + zeros) == XorBlock(s, block)
    decreases |zeros|
  {
    hide XorBlock;
    if zeros == [] {
      assert block + zeros == block;
    } else {
      var n := |zeros| - 1;
      AddZeros(s, block, zeros[..n]);
      var longer := block + zeros[..n];
      XorBlockZero(s, longer, |longer| / 8, |longer| % 8);
      assert block + zeros == longer + [0];
    }
  }

  /** The two padding bytes, added wherever they fall, make the padded last block; when one
      byte is free they share it. */
  lemma PaddingBytes(s: State, rest: seq<bv8>)
    requires |rest| < BLOCK_SIZE
    ensures var first := XorBlock(s, rest + [SUFFIX]);
      XorBlock(s, rest + Padding(BLOCK_SIZE, |rest|, SUFFIX)) == first[16 := Xor(first[16], ByteAt(0x80, 7))]
  {
    hide XorBlock, Xor, ByteAt;
    var padding := Padding(BLOCK_SIZE, |rest|, SUFFIX);
    if |rest| == BLOCK_SIZE - 1 {
      assert padding == [0x81];
      XorBlockAppend(s, rest, 0x81, 16, 7);
      XorBlockAppend(s, rest, SUFFIX, 16, 7);
      XorAssociates(XorBlock(s, rest)[16], ByteAt(SUFFIX, 7), ByteAt(0x80, 7));
      SharedByte();
    } else {
      var zeros := padding[1..|padding| - 1];
      var block := rest + [SUFFIX] + zeros;
      AddZeros(s, rest + [SUFFIX], zeros);
      XorBlockAppend(s, block, 0x80, 16, 7);
      assert rest + padding == block + [0x80];
    }
  }

  lemma SharedByte()
    ensures Xor(ByteAt(SUFFIX, 7), ByteAt(0x80, 7)) == ByteAt(0x81, 7)
  {}

  // ------------------------------------------------------------------ getHash

  /** `getHash`: the sponge of rate 136 with the original Keccak padding, which differs from
      SHA3-256 only in the suffix byte.  The loop counter is an `int`. */
  method GetHash(msg: seq<bv8>, len: nat) returns (result: string)
    requires len <= |msg| && len < 0x8000_0000
    ensures result == Digest(136, 0x01, 32, msg[..len])
  {
    hide Holds, Permute, Digest, Flat;
    var state := new Lane[5, 5]((_, _) => ZERO);
    assert Flat(state) == ZERO_STATE by { ZeroFlat(state); }
    var blockOff := 0;
    ghost var done, rest := [], [];
    HoldsNothing();
    for i := 0 to len
      invariant blockOff == |rest| < BLOCK_SIZE && msg[..i] == done + rest
      invariant Holds(Flat(state), done, rest)
    {
      Feed(state, blockOff, msg[i], done, rest);
      rest := rest + [msg[i]];
      blockOff := blockOff + 1;
      if blockOff == BLOCK_SIZE {
        BlockDone(Flat(state), done, rest);
        Absorb(state);
        done, rest := done + rest, [];
        blockOff := 0;
      }
    }
    Finish(state, blockOff, msg[..len], done, rest);
    result := ReadDigest(state);
    assert result == Digest(BLOCK_SIZE, SUFFIX, HASH_LEN, msg[..len]) by { DigestIs(msg[..len]); }
  }

  lemma ZeroFlat(state: array2<Lane>)
    requires state.Length0 == 5 && state.Length1 == 5
    requires forall x, y | 0 <= x < 5 && 0 <= y < 5 :: state[x, y] == ZERO
    ensures Flat(state) == ZERO_STATE
  {}

  lemma DigestIs(message: seq<bv8>)
    ensures Digest(BLOCK_SIZE, SUFFIX, HASH_LEN, message) == Hex(Squeeze(Absorbed(BLOCK_SIZE, SUFFIX, message), HASH_LEN))
  {}

  /** "Final block and padding". */
  method Finish(state: array2<Lane>, blockOff: nat, ghost message: seq<bv8>, ghost done: seq<bv8>, ghost rest: seq<bv8>)
    requires state.Length0 == 5 && state.Length1 == 5 && blockOff == |rest| < BLOCK_SIZE
    requires message == done + rest && Holds(Flat(state), done, rest)
    modifies state
    ensures Flat(state) == Absorbed(BLOCK_SIZE, SUFFIX, message)
  {
    hide Xor, ByteAt, XorBlock, Fold, Whole, Permute, Rest, Padding;
    ghost var s := Fold(AbsorbBlock, BLOCK_SIZE, ZERO_STATE, done);
    ghost var padding := Padding(BLOCK_SIZE, |rest|, SUFFIX);
    Feed(state, blockOff, 0x01, done, rest);
    XorByte(state, BLOCK_SIZE - 1, 0x80);
    PaddingBytes(s, rest);
    assert Holds(Flat(state), done, rest + padding);
    BlockDone(Flat(state), done, rest + padding);
    Absorb(state);
    RestOf(BLOCK_SIZE, done, rest);
    assert Padded(BLOCK_SIZE, SUFFIX, message) == done + (rest + padding);
  }

  /** "Uint64 array to bytes in little endian", then `bytes_to_hex`. */
  method ReadDigest(state: array2<Lane>) returns (result: string)
    requires state.Length0 == 5 && state.Length1 == 5
    ensures result == Hex(Squeeze(Flat(state), HASH_LEN))
  {
    hide Squeeze, Hex, HexByte, ByteOf;
    ghost var s := Flat(state);
    result := "";
    SqueezeStarts(s);
    for i := 0 to HASH_LEN
      invariant result == Hex(Squeeze(s, i))
    {
      var j := i / 8;
      CoordinatesAreDivMod(j);
      SqueezeNext(s, j, i % 8);
      result := result + HexByte(ByteOf(state[j % 5, j / 5], i % 8));
    }
  }
}
