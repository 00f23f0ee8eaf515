/** The streaming class `SHA256_Legacy` (unit/libdevcore/bip44/SHA256.cpp). */
module Sha256 {
  import opened Blocks
  import opened Sha256Rounds
  import opened ByteStrings
  import opened HexText
  import opened Sessions

  const BLOCK_SIZE: nat := 64

  // -------------------------------------------------- padding, section 5.1.1

  /** How many zero bytes follow 0x80 when k bytes are left over: up to 8 bytes before the end of
      this block or of the next. */
  function ZerosFor(k: nat): nat
    requires k < BLOCK_SIZE
  {
    if k <= 55 then 55 - k else 119 - k
  }

  /** The padding of a message of `total` bytes that leaves k in its last block, with the eight low
      bytes of its bit length; FIPS 180-4 defines it for fewer than 2^64 bits. */
  function Padding(total: nat, k: nat): seq<bv8>
    requires k < BLOCK_SIZE
  {
    [0x80] + Zeros(ZerosFor(k)) + BigEndian(8 * total, 8)
  }

  function Padded(message: seq<bv8>): seq<bv8> {
    message + Padding(|message|, |Rest(BLOCK_SIZE, message)|)
  }

  function HashValue(message: seq<bv8>): Regs {
    Fold(Compress, BLOCK_SIZE, INITIAL, Padded(message))
  }

  /** Byte k of a word, most significant first. */
  function ByteOf(w: Word, k: nat): bv8 {
    var x := match k case 0 => w.bits >> 24 case 1 => w.bits >> 16 case 2 => w.bits >> 8 case _ => w.bits;
    (x & 0xFF) as bv8
  }

  function WordBytes(w: Word): seq<bv8> {
    [ByteOf(w, 0), ByteOf(w, 1), ByteOf(w, 2), ByteOf(w, 3)]
  }

  function Bytes(h: seq<Word>): (b: seq<bv8>)
    ensures |b| == 4 * |h|
  {
    if h == [] then [] else Bytes(h[..|h| - 1]) + WordBytes(h[|h| - 1])
  }

  function Words(r: Regs): seq<Word> {
    [r.a, r.b, r.c, r.d, r.e, r.f, r.g, r.h]
  }

  function Digest(message: seq<bv8>): seq<bv8> {
    Bytes(Words(HashValue(message)))
  }

  // ----------------------------------------------------------------- the class

  class Hasher {
    const hash: array<Word>
    const buffer: array<bv8>
    var numBytes: nat
    var bufferSize: nat

    ghost var message: seq<bv8>
    ghost var done: seq<bv8>

    ghost predicate Shaped() {
      hash.Length == 8 && buffer.Length == BLOCK_SIZE
    }

    ghost predicate Valid()
      reads this, hash, buffer
      ensures Valid() ==> Shaped()
    {
      Shaped() && bufferSize < BLOCK_SIZE && Tracks()
    }

    /** The hash value and the buffer account for the message. */
    ghost predicate Tracks()
      requires Shaped() && bufferSize <= BLOCK_SIZE
      reads this, hash, buffer
    {
      && Whole(BLOCK_SIZE, |done|)
      && message == done + buffer[..bufferSize]
      && RegsOf(hash[..]) == Fold(Compress, BLOCK_SIZE, INITIAL, done)
      && numBytes == Wrap64(|done|)
    }

    constructor ()
      ensures Valid() && message == [] && fresh(hash) && fresh(buffer)
    {
      hash := new Word[8](_ => Word(0));
      buffer := new bv8[BLOCK_SIZE];
      numBytes := 0;
      bufferSize := 0;
      message := [];
      done := [];
      new;
      Reset();
    }

    method Reset()
      requires Shaped()
      modifies this, hash
      ensures Valid() && message == []
    {
      numBytes := 0;
      bufferSize := 0;
      hash[0] := INITIAL.a;
      hash[1] := INITIAL.b;
      hash[2] := INITIAL.c;
      hash[3] := INITIAL.d;
      hash[4] := INITIAL.e;
      hash[5] := INITIAL.f;
      hash[6] := INITIAL.g;
      hash[7] := INITIAL.h;
      message := [];
      done := [];
    }

    method Keep(x: bv8)
      requires Shaped() && bufferSize < BLOCK_SIZE && Tracks()
      modifies this`bufferSize, this`message, buffer
      ensures bufferSize == old(bufferSize) + 1
      ensures Tracks() && message == old(message) + [x]
    {
      hide Compress, Fold, Whole, RegsOf;
      buffer[bufferSize] := x;
      assert buffer[..bufferSize + 1] == buffer[..bufferSize] + [x];
      bufferSize := bufferSize + 1;
      message := message + [x];
    }

    method Flush()
      requires Shaped() && bufferSize == BLOCK_SIZE && Tracks()
      modifies this`bufferSize, this`numBytes, this`done, hash
      ensures Valid() && bufferSize == 0
    {
      hide Compress, Fold, Whole, RegsOf, Wrap64;
      var block := buffer[..BLOCK_SIZE];
      FoldBlock(Compress, BLOCK_SIZE, INITIAL, done, block);
      ProcessBlock(hash, block);
      WrapAdd(|done|, BLOCK_SIZE);
      numBytes := Wrap64(numBytes + BLOCK_SIZE);
      done := done + block;
      bufferSize := 0;
    }

    method Consume(block: seq<bv8>)
      requires Valid() && bufferSize == 0 && |block| == BLOCK_SIZE
      modifies this`numBytes, this`done, this`message, hash
      ensures Valid() && message == old(message) + block
    {
      hide Compress, Fold, Whole, RegsOf, Wrap64;
      FoldBlock(Compress, BLOCK_SIZE, INITIAL, done, block);
      ProcessBlock(hash, block);
      WrapAdd(|done|, BLOCK_SIZE);
      numBytes := Wrap64(numBytes + BLOCK_SIZE);
      done := done + block;
      message := message + block;
    }

    method Add(data: seq<bv8>)
      requires Valid()
      modifies this, hash, buffer
      ensures Valid() && message == old(message) + data
    {
      hide Tracks;
      var current := 0;
      if bufferSize > 0 {
        while current < |data| && bufferSize < BLOCK_SIZE
          invariant 0 <= current <= |data| && bufferSize <= BLOCK_SIZE
          invariant Tracks() && message == old(message) + data[..current]
        {
          Keep(data[current]);
          current := current + 1;
        }
      }
      if bufferSize == BLOCK_SIZE {
        Flush();
      }
      if current == |data| {
        return;
      }
      while |data| - current >= BLOCK_SIZE
        invariant 0 <= current <= |data| && bufferSize == 0
        invariant Valid() && message == old(message) + data[..current]
      {
        Consume(data[current..current + BLOCK_SIZE]);
        current := current + BLOCK_SIZE;
      }
      while current < |data|
        invariant 0 <= current <= |data| && bufferSize + (|data| - current) < BLOCK_SIZE
        invariant Valid() && message == old(message) + data[..current]
      {
        Keep(data[current]);
        current := current + 1;
      }
    }

    /** `processBuffer`: the padding goes into the buffer and, when it does not fit, a second block. */
    method ProcessBuffer()
      requires Valid()
      modifies hash, buffer
      ensures RegsOf(hash[..]) == HashValue(message)
      ensures buffer[..bufferSize] == old(buffer[..bufferSize])
    {
      hide Compress, Fold, Whole, RegsOf, HashValue, BigEndian, Zeros;
      ghost var kept := buffer[..bufferSize];
      var msgBits := Wrap64(8 * (numBytes + bufferSize));
      MessageBits(|done|, bufferSize);
      var extra, paddedLength := PadBuffer(buffer, bufferSize, msgBits);
      var first := buffer[..];
      ProcessBlock(hash, first);
      if paddedLength > BLOCK_SIZE {
        ProcessBlock(hash, extra[..]);
        TwoBlocks(done, kept, first, extra[..]);
      } else {
        OneBlock(done, kept, first);
      }
    }

    /** `getHash`: the digest bytes of everything added so far; what follows is not affected. */
    method GetHash() returns (raw: seq<bv8>)
      requires Valid()
      modifies hash, buffer
      ensures raw == Digest(message)
      ensures Valid()
    {
      hide Compress, Fold, Whole, HashValue, Bytes;
      var oldHash := Saved(hash);
      ProcessBuffer();
      assert hash[..] == Words(HashValue(message));
      raw := Output(hash, oldHash);
    }
  }

  /** `getHash` as text. */
  method HashText(hasher: Hasher) returns (result: string)
    requires hasher.Valid()
    modifies hasher.hash, hasher.buffer
    ensures result == DigestText(hasher.message) && hasher.Valid()
  {
    hide Hex, Digest, Hasher.Valid;
    var raw := hasher.GetHash();
    result := ToHex(raw);
  }

  // ------------------------------------------------------- whole sessions

  function DigestText(message: seq<bv8>): string {
    Hex(Digest(message))
  }

  /** Any interleaving of `add`, `getHash` and `reset` on one object. */
  method Session(calls: seq<Call>) returns (digests: seq<string>)
    ensures digests == Expected(DigestText, calls, [])
  {
    hide Hex, Digest, Hasher.Valid;
    var hasher := new Hasher();
    digests := [];
    for i := 0 to |calls|
      invariant hasher.Valid()
      invariant fresh(hasher) && fresh(hasher.hash) && fresh(hasher.buffer)
      invariant digests + Expected(DigestText, calls[i..], hasher.message) == Expected(DigestText, calls, [])
    {
      assert calls[i..][1..] == calls[i + 1..];
      match calls[i]
      case Add(data) =>
        hasher.Add(data);
      case GetHash =>
        var digest := HashText(hasher);
        digests := digests + [digest];
      case Reset =>
        hasher.Reset();
    }
  }

  // --------------------------------------------------------- digests and padding

  /** Every digest is 64 lower-case hexadecimal characters. */
  lemma DigestShape(message: seq<bv8>)
    ensures |DigestText(message)| == 64 && IsLowerHex(DigestText(message))
  {
    hide HashValue, Bytes, Hex, IsLowerHex;
    HexShape(Digest(message));
  }

  /** The padded message is a whole number of blocks, so that none of it is dropped. */
  lemma PaddedIsWhole(message: seq<bv8>)
    ensures Whole(BLOCK_SIZE, |Padded(message)|)
  {
    var a := Cut(BLOCK_SIZE, message);
    var k := |Rest(BLOCK_SIZE, message)|;
    hide Rest, BigEndian, Whole;
    var n := if k <= 55 then 64 else 128;
    assert |Padded(message)| == |a| + n;
    OneOrTwo();
    WholeSum(BLOCK_SIZE, |a|, n);
  }

  lemma OneOrTwo()
    ensures Whole(64, 64) && Whole(64, 128)
  {}

  /** The words of the digest can be read back the way a block is read. */
  lemma WordBytesBack(w: Word)
    ensures LoadWord(WordBytes(w), 0) == w
  {}

  /** The bytes of equally many words are equal exactly when the words are. */
  lemma {:induction false} BytesTellWords(g: seq<Word>, h: seq<Word>)
    requires |g| == |h|
    ensures Bytes(g) == Bytes(h) <==> g == h
  {
    hide WordBytes, LoadWord;
    if g != [] && Bytes(g) == Bytes(h) {
      var n := |g| - 1;
      WordLength(g[n]);
      WordLength(h[n]);
      var b := Bytes(g);
      assert b[..4 * n] == Bytes(g[..n]) && b[..4 * n] == Bytes(h[..n]);
      assert b[4 * n..] == WordBytes(g[n]) && b[4 * n..] == WordBytes(h[n]);
      BytesTellWords(g[..n], h[..n]);
      WordBytesBack(g[n]);
      WordBytesBack(h[n]);
      assert g == g[..n] + [g[n]] && h == h[..n] + [h[n]];
    }
  }

  lemma WordLength(w: Word)
    ensures |WordBytes(w)| == 4
  {}

  /** Two messages have one digest text exactly when they have one hash value. */
  lemma DigestTellsHashValue(m: seq<bv8>, n: seq<bv8>)
    ensures DigestText(m) == DigestText(n) <==> HashValue(m) == HashValue(n)
  {
    hide Hex, Bytes, HashValue;
    BytesTellWords(Words(HashValue(m)), Words(HashValue(n)));
    if DigestText(m) == DigestText(n) {
      HexInjective(Digest(m), Digest(n));
      WordsInjective(HashValue(m), HashValue(n));
    }
  }

  lemma WordsInjective(r: Regs, r': Regs)
    requires Words(r) == Words(r')
    ensures r == r'
  {
    var w, w' := Words(r), Words(r');
    assert w[0] == w'[0] && w[1] == w'[1] && w[2] == w'[2] && w[3] == w'[3];
    assert w[4] == w'[4] && w[5] == w'[5] && w[6] == w'[6] && w[7] == w'[7];
  }

  /** The first loop of `getHash`. */
  method Saved(hash: array<Word>) returns (oldHash: array<Word>)
    requires hash.Length == 8
    ensures fresh(oldHash) && oldHash.Length == 8 && oldHash[..] == hash[..]
  {
    oldHash := new Word[8](_ => Word(0));
    for i := 0 to 8
      invariant forall k | 0 <= k < i :: oldHash[k] == hash[k]
    {
      oldHash[i] := hash[i];
    }
  }

  /** The last loop of `getHash`: bytes out, old words back. */
  method Output(hash: array<Word>, oldHash: array<Word>) returns (raw: seq<bv8>)
    requires hash.Length == 8 && oldHash.Length == 8 && hash != oldHash
    modifies hash
    ensures raw == Bytes(old(hash[..])) && hash[..] == oldHash[..]
  {
    hide Bytes, ByteOf;
    ghost var h := hash[..];
    raw := [];
    NoBytes(h);
    for i := 0 to 8
      invariant raw == Bytes(h[..i])
      invariant forall k | i <= k < 8 :: hash[k] == h[k]
      invariant forall k | 0 <= k < i :: hash[k] == oldHash[k]
    {
      MoreBytes(h, i);
      raw := raw + [ByteOf(hash[i], 0), ByteOf(hash[i], 1), ByteOf(hash[i], 2), ByteOf(hash[i], 3)];
      hash[i] := oldHash[i];
    }
    assert h[..8] == h;
  }

  /** The last block when the padding fits it. */
  lemma OneBlock(done: seq<bv8>, kept: seq<bv8>, first: seq<bv8>)
    requires Whole(BLOCK_SIZE, |done|) && |kept| <= 55 && |first| == BLOCK_SIZE
    requires first == kept + ([0x80] + Zeros(55 - |kept|) + BigEndian(8 * (|done| + |kept|), 8))
    ensures HashValue(done + kept) == Compress(Fold(Compress, BLOCK_SIZE, INITIAL, done), first)
  {
    hide Compress, Fold, Whole, Rest, BigEndian, Zeros;
    RestOf(BLOCK_SIZE, done, kept);
    FoldBlock(Compress, BLOCK_SIZE, INITIAL, done, first);
    var padding := Padding(|done + kept|, |kept|);
    assert first == kept + padding;
    hide Padding;
    assert done + kept + padding == done + (kept + padding);
  }

  /** The last two blocks when it does not. */
  lemma TwoBlocks(done: seq<bv8>, kept: seq<bv8>, first: seq<bv8>, second: seq<bv8>)
    requires Whole(BLOCK_SIZE, |done|) && 55 < |kept| < BLOCK_SIZE && |first| == |second| == BLOCK_SIZE
    requires first + second == kept + ([0x80] + Zeros(119 - |kept|) + BigEndian(8 * (|done| + |kept|), 8))
    ensures HashValue(done + kept) == Compress(Compress(Fold(Compress, BLOCK_SIZE, INITIAL, done), first), second)
  {
    hide Compress, Fold, Whole, Rest, BigEndian, Zeros;
    RestOf(BLOCK_SIZE, done, kept);
    FoldBlock(Compress, BLOCK_SIZE, INITIAL, done, first);
    FoldBlock(Compress, BLOCK_SIZE, INITIAL, done + first, second);
    var padding := Padding(|done + kept|, |kept|);
    assert first + second == kept + padding;
    hide Padding;
    assert Padded(done + kept) == done + kept + padding;
    assert done + kept + padding == done + (kept + padding);
    assert done + (first + second) == done + first + second;
  }

  lemma NoBytes(h: seq<Word>)
    ensures Bytes(h[..0]) == []
  {}

  lemma MoreBytes(h: seq<Word>, i: nat)
    requires i < |h|
    ensures Bytes(h[..i + 1]) == Bytes(h[..i]) + [ByteOf(h[i], 0), ByteOf(h[i], 1), ByteOf(h[i], 2), ByteOf(h[i], 3)]
  {
    hide ByteOf;
    assert h[..i + 1][..i] == h[..i];
  }

  /** The byte counter wraps at 2^64, and so does the bit counter computed from it, but the eight
      bytes written are those of the true bit length. */
  lemma MessageBits(n: nat, k: nat)
    ensures BigEndian(Wrap64(8 * (Wrap64(n) + k)), 8) == BigEndian(8 * (n + k), 8)
  {
    hide BigEndian, Pow256;
    EightPowers();
    var q := n / 0x1_0000_0000_0000_0000;
    var bits := 8 * (Wrap64(n) + k);
    assert 8 * (n + k) == bits + 0x1_0000_0000_0000_0000 * (8 * q);
    LowBytesOnly(bits, 8 * q, 8);
    LowBytesOnly(Wrap64(bits), bits / 0x1_0000_0000_0000_0000, 8);
  }

  lemma EightPowers()
    ensures Pow256(8) == 0x1_0000_0000_0000_0000
  {
    assert Pow256(4) == 0x1_0000_0000;
  }

  /** "must be big endian": the eight bytes of the bit counter. */
  method PutLength(a: array<bv8>, at: nat, n: nat)
    requires at + 8 <= a.Length
    modifies a
    ensures a[..] == old(a[..at]) + BigEndian(n, 8) + old(a[at + 8..])
  {
    hide BigEndian;
    LowFourBytes(n, 4);
    PutFour(a, at, n / 0x1_0000_0000);
    PutFour(a, at + 4, n);
  }

  /** The padding part of `processBuffer`.  It would also handle a full buffer, which `add` never
      leaves behind. */
  method PadBuffer(buffer: array<bv8>, bufferSize: nat, msgBits: nat) returns (extra: array<bv8>, paddedLength: nat)
    requires buffer.Length == BLOCK_SIZE && bufferSize <= BLOCK_SIZE
    modifies buffer
    ensures fresh(extra) && extra.Length == BLOCK_SIZE
    ensures buffer[..bufferSize] == old(buffer[..bufferSize])
    ensures paddedLength == if bufferSize <= 55 then 56 else 120
    ensures bufferSize <= 55 ==>
              buffer[..] == old(buffer[..bufferSize]) + ([0x80] + Zeros(55 - bufferSize) + BigEndian(msgBits, 8))
    ensures bufferSize > 55 ==>
              buffer[..] + extra[..] == old(buffer[..bufferSize]) + ([0x80] + Zeros(119 - bufferSize) + BigEndian(msgBits, 8))
  {
    hide BigEndian, Zeros;
    paddedLength := PaddedLength(bufferSize);
    extra := new bv8[BLOCK_SIZE](_ => 0);
    MarkEnd(buffer, extra, bufferSize, paddedLength);
    ghost var b, e := buffer[..], extra[..];
    if paddedLength < BLOCK_SIZE {
      PutLength(buffer, paddedLength, msgBits);
    } else {
      PutLength(extra, paddedLength - BLOCK_SIZE, msgBits);
      assert buffer[..] + extra[..] == (b + e[..56]) + BigEndian(msgBits, 8);
    }
  }

  /** 0x80 behind the message, then zeros up to the place of the length. */
  method MarkEnd(buffer: array<bv8>, extra: array<bv8>, bufferSize: nat, paddedLength: nat)
    requires buffer.Length == BLOCK_SIZE && extra.Length == BLOCK_SIZE && buffer != extra && bufferSize <= BLOCK_SIZE
    requires paddedLength == if bufferSize <= 55 then 56 else 120
    modifies buffer, extra
    ensures buffer[..bufferSize] == old(buffer[..bufferSize])
    ensures bufferSize <= 55 ==> buffer[..56] == old(buffer[..bufferSize]) + ([0x80] + Zeros(55 - bufferSize))
    ensures bufferSize > 55 ==>
              buffer[..] + extra[..56] == old(buffer[..bufferSize]) + ([0x80] + Zeros(119 - bufferSize))
  {
    ghost var all := buffer[..bufferSize] + ([0x80] + Zeros(if bufferSize <= 55 then 63 - bufferSize else 119 - bufferSize));
    if bufferSize < BLOCK_SIZE {
      buffer[bufferSize] := 128;
    } else {
      extra[0] := 128;
    }
    var i := bufferSize + 1;
    while i < BLOCK_SIZE
      invariant bufferSize < i && (i <= BLOCK_SIZE || i == bufferSize + 1)
      invariant forall k | 0 <= k < i && k < BLOCK_SIZE :: buffer[k] == all[k]
      invariant bufferSize == BLOCK_SIZE ==> extra[0] == 128
    {
      buffer[i] := 0;
      i := i + 1;
    }
    while i < paddedLength
      invariant BLOCK_SIZE <= i && (i <= paddedLength || paddedLength == 56)
      invariant forall k | 0 <= k < BLOCK_SIZE :: buffer[k] == all[k]
      invariant forall k | BLOCK_SIZE <= k < i && k < paddedLength :: extra[k - BLOCK_SIZE] == all[k]
    {
      extra[i - BLOCK_SIZE] := 0;
      i := i + 1;
    }
    ghost var e := extra[..56];
    if bufferSize > 55 {
      assert forall k | 0 <= k < 56 :: e[k] == all[k + 64];
      assert buffer[..] + e == all;
    }
  }

  /** The arithmetic on bit counts: pad to 448 modulo 512. */
  method PaddedLength(bufferSize: nat) returns (paddedLength: nat)
    requires bufferSize <= BLOCK_SIZE
    ensures paddedLength == if bufferSize <= 55 then 56 else 120
  {
    paddedLength := bufferSize * 8;
    paddedLength := paddedLength + 1;
    var lower11Bits := paddedLength % 512;
    if lower11Bits <= 448 {
      paddedLength := paddedLength + (448 - lower11Bits);
    } else {
      paddedLength := paddedLength + (512 + 448 - lower11Bits);
    }
    paddedLength := paddedLength / 8;
  }
}
