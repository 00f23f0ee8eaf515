/** The streaming class `SHA512` (unit/libdevcore/crypto/SHA512/SHA512.cpp).  Its lengths are 32-bit. */
module Sha512 {
  import opened Blocks
  import opened Sha512Rounds
  import opened ByteStrings
  import opened Wrappers

  const BLOCK_SIZE: nat := 128

  /** An `unsigned int`. */
  function Wrap32(n: nat): (w: nat)
    ensures n < 0x1_0000_0000 ==> w == n
  {
    n % 0x1_0000_0000
  }

  // -------------------------------------------------- padding, section 5.1.2

  /** How many zero bytes follow 0x80 when k bytes are left over: up to 16 bytes before the end of
      this block or of the next. */
  function ZerosFor(k: nat): nat
    requires k < BLOCK_SIZE
  {
    if k <= 111 then 111 - k else 239 - k
  }

  /** FIPS 180-4: the bit length in sixteen bytes, for fewer than 2^128 bits. */
  function Padding(total: nat, k: nat): seq<bv8>
    requires k < BLOCK_SIZE
  {
    [0x80] + Zeros(ZerosFor(k)) + BigEndian(8 * total, 16)
  }

  function Padded(message: seq<bv8>): seq<bv8> {
    message + Padding(|message|, |Rest(BLOCK_SIZE, message)|)
  }

  /** What `final` appends: a 32-bit bit length behind twelve more zero bytes. */
  function ShortPadding(total: nat, k: nat): seq<bv8>
    requires k < BLOCK_SIZE
  {
    [0x80] + Zeros(ZerosFor(k) + 12) + BigEndian(Wrap32(8 * total), 4)
  }

  function ShortPadded(message: seq<bv8>): seq<bv8> {
    message + ShortPadding(|message|, |Rest(BLOCK_SIZE, message)|)
  }

  function Bytes(h: seq<Word>): (b: seq<bv8>)
    ensures |b| == 8 * |h|
  {
    if h == [] then [] else Bytes(h[..|h| - 1]) + WordBytes(h[|h| - 1])
  }

  /** `SHA2_UNPACK64`: byte k of a word, most significant first. */
  function ByteOf(w: Word, k: nat): bv8 {
    var x := match k
      case 0 => w.bits >> 56 case 1 => w.bits >> 48 case 2 => w.bits >> 40 case 3 => w.bits >> 32
      case 4 => w.bits >> 24 case 5 => w.bits >> 16 case 6 => w.bits >> 8 case _ => w.bits;
    (x & 0xFF) as bv8
  }

  function WordBytes(w: Word): seq<bv8> {
    [ByteOf(w, 0), ByteOf(w, 1), ByteOf(w, 2), ByteOf(w, 3), ByteOf(w, 4), ByteOf(w, 5), ByteOf(w, 6), ByteOf(w, 7)]
  }

  function Words(r: Regs): seq<Word> {
    [r.a, r.b, r.c, r.d, r.e, r.f, r.g, r.h]
  }

  /** The digest of whole blocks. */
  function DigestOf(padded: seq<bv8>): seq<bv8> {
    Bytes(Words(Fold(Compress, BLOCK_SIZE, INITIAL, padded)))
  }

  // ------------------------------------------------------- what `update` appends

  /** The message after one more `update`: appended up to 2^24 blocks beyond the buffered one, none
      where `transform` reads outside the data, and cut short where the 32-bit sum of the buffered and
      the new length wraps, so that no block is hashed and the end of what was buffered is lost. */
  function Appended(message: seq<bv8>, data: seq<bv8>): Option<seq<bv8>>
    requires |data| < 0x1_0000_0000
  {
    var sum := |Rest(BLOCK_SIZE, message)| + |data|;
    if sum < 0x8000_0100 then Some(message + data)
    else if sum < 0x1_0000_0000 then None
    else Some(message[..|message| + |data| - 0x1_0000_0000])
  }

  predicate Chunks(chunks: seq<seq<bv8>>) {
    forall i | 0 <= i < |chunks| :: |chunks[i]| < 0x1_0000_0000
  }

  function Fed(chunks: seq<seq<bv8>>): Option<seq<bv8>>
    requires Chunks(chunks)
  {
    if chunks == [] then Some([])
    else
      var before := Fed(chunks[..|chunks| - 1]);
      if before.None? then None else Appended(before.value, chunks[|chunks| - 1])
  }

  function Joined(chunks: seq<seq<bv8>>): seq<bv8> {
    if chunks == [] then [] else Joined(chunks[..|chunks| - 1]) + chunks[|chunks| - 1]
  }

  // ----------------------------------------------------------------- the class

  class Hasher {
    const hash: array<Word>
    const block: array<bv8>
    var len: nat
    var totLen: nat

    ghost var message: seq<bv8>
    ghost var done: seq<bv8>

    ghost predicate Shaped() {
      hash.Length == 8 && block.Length == 2 * BLOCK_SIZE
    }

    ghost predicate Valid()
      reads this, hash, block
      ensures Valid() ==> Shaped()
    {
      && Shaped()
      && len < BLOCK_SIZE
      && Whole(BLOCK_SIZE, |done|)
      && message == done + block[..len]
      && RegsOf(hash[..]) == Fold(Compress, BLOCK_SIZE, INITIAL, done)
      && totLen == Wrap32(|done|)
    }

    constructor ()
      ensures Shaped() && fresh(hash) && fresh(block)
    {
      hash := new Word[8](_ => Word(0));
      block := new bv8[2 * BLOCK_SIZE];
      len := 0;
      totLen := 0;
      message := [];
      done := [];
    }

    method Init()
      requires Shaped()
      modifies this, hash
      ensures Valid() && message == [] && len == 0
    {
      hash[0] := INITIAL.a;
      hash[1] := INITIAL.b;
      hash[2] := INITIAL.c;
      hash[3] := INITIAL.d;
      hash[4] := INITIAL.e;
      hash[5] := INITIAL.f;
      hash[6] := INITIAL.g;
      hash[7] := INITIAL.h;
      len := 0;
      totLen := 0;
      message := [];
      done := [];
    }

    /** `update`: false where it reads outside the data. */
    method Update(data: seq<bv8>) returns (inside: bool)
      requires Valid() && |data| < 0x1_0000_0000
      modifies this, hash, block
      ensures inside <==> Appended(old(message), data).Some?
      ensures inside ==> Valid() && message == Appended(old(message), data).value
    {
      hide Compress, Fold, Whole, RegsOf, Rest;
      RestOf(BLOCK_SIZE, done, block[..len]);
      var tmpLen := BLOCK_SIZE - len;
      var remLen := if |data| < tmpLen then |data| else tmpLen;
      CopyInto(block, len, data[..remLen]);
      if Wrap32(len + |data|) < BLOCK_SIZE {
        var newLen := Wrap32(len + |data|);
        assert newLen < len || newLen == len + |data|;
        message := done + block[..newLen];
        len := newLen;
        return true;
      }
      inside := Absorb(data, remLen);
    }

    /** The rest of `update`, once the data fills the block. */
    method Absorb(data: seq<bv8>, filled: nat) returns (inside: bool)
      requires Shaped() && len < BLOCK_SIZE && filled <= |data| < 0x1_0000_0000 && len + filled == BLOCK_SIZE
      requires Whole(BLOCK_SIZE, |done|)
      requires message == done + block[..len] && block[len..BLOCK_SIZE] == data[..filled]
      requires RegsOf(hash[..]) == Fold(Compress, BLOCK_SIZE, INITIAL, done)
      requires totLen == Wrap32(|done|)
      modifies this, hash, block
      ensures inside <==> old(len) + |data| < 0x8000_0100
      ensures inside ==> Valid() && message == old(message) + data
    {
      hide Compress, Fold, Whole, RegsOf, Wrap32;
      var newLen := |data| - filled;
      var blockNb := newLen / BLOCK_SIZE;
      var shifted := data[filled..];
      ghost var kept, whole := block[..BLOCK_SIZE], shifted[..BLOCK_SIZE * blockNb];
      var rest := shifted[BLOCK_SIZE * blockNb..];
      assert kept == block[..len] + data[..filled];
      Assembled(done, block[..len], kept, data, BLOCK_SIZE * blockNb);
      assert message + data == done + kept + whole + rest;
      hide Assembles;
      inside := HashBlocks(block[..BLOCK_SIZE], shifted, blockNb);
      if inside {
        CopyInto(block, 0, rest);
        len := newLen % BLOCK_SIZE;
        message := done + rest;
        assert block[..len] == rest;
      }
    }

    /** The two calls of `transform`, and the count of what they hash. */
    method HashBlocks(kept: seq<bv8>, shifted: seq<bv8>, blockNb: nat) returns (inside: bool)
      requires Shaped() && |kept| == BLOCK_SIZE && BLOCK_SIZE * blockNb <= |shifted| && blockNb < 0x8000_0000
      requires Whole(BLOCK_SIZE, |done|) && totLen == Wrap32(|done|)
      requires RegsOf(hash[..]) == Fold(Compress, BLOCK_SIZE, INITIAL, done)
      modifies this`totLen, this`done, hash
      ensures inside <==> blockNb <= MAX_BLOCKS
      ensures inside ==> done == old(done) + kept + shifted[..BLOCK_SIZE * blockNb]
      ensures inside ==> Whole(BLOCK_SIZE, |done|) && totLen == Wrap32(|done|)
      ensures inside ==> RegsOf(hash[..]) == Fold(Compress, BLOCK_SIZE, INITIAL, done)
    {
      hide Compress, Fold, Whole, RegsOf, Wrap32;
      inside := Transform(hash, kept, 1);
      assert kept[..BLOCK_SIZE * 1] == kept;
      inside := Transform(hash, shifted, blockNb);
      if inside {
        FoldBoth(INITIAL, done, kept, shifted[..BLOCK_SIZE * blockNb]);
        WrapAdd32(|done|, BLOCK_SIZE * (blockNb + 1));
        totLen := Wrap32(totLen + BLOCK_SIZE * (blockNb + 1));
        done := done + kept + shifted[..BLOCK_SIZE * blockNb];
      }
    }

    /** `final`: the digest of everything appended since `init`. */
    method Final() returns (digest: seq<bv8>)
      requires Valid()
      modifies hash, block
      ensures digest == DigestOf(ShortPadded(message))
    {
      hide Compress, Fold, Whole, RegsOf, Bytes, Zeros, BigEndian, Wrap32;
      ghost var kept := block[..len];
      var blockNb := if BLOCK_SIZE - 17 < len then 2 else 1;
      var lenB := Wrap32(8 * (totLen + len));
      MessageBits(|done|, len);
      var pmLen := BLOCK_SIZE * blockNb;
      PadBlock(block, len, pmLen, lenB);
      var _ := Transform(hash, block[..], blockNb);
      assert block[..][..BLOCK_SIZE * blockNb] == block[..pmLen];
      RestOf(BLOCK_SIZE, done, kept);
      assert block[..pmLen] == kept + ShortPadding(|message|, len);
      hide ShortPadding;
      assert ShortPadded(message) == done + block[..pmLen];
      FoldAppend(Compress, BLOCK_SIZE, INITIAL, done, block[..pmLen]);
      assert hash[..] == Words(RegsOf(hash[..])) by { WordsBack(hash[..]); }
      digest := Unpack(hash);
    }
  }

  ghost predicate Assembles(done: seq<bv8>, a: seq<bv8>, kept: seq<bv8>, data: seq<bv8>, n: nat)
    requires |a| <= |kept| && |kept| - |a| + n <= |data|
  {
    var shifted := data[|kept| - |a|..];
    done + a + data == done + kept + shifted[..n] + shifted[n..]
  }

  /** The data completes the buffered bytes to a block, then come n bytes of blocks and the rest. */
  lemma Assembled(done: seq<bv8>, a: seq<bv8>, kept: seq<bv8>, data: seq<bv8>, n: nat)
    requires |a| <= |kept| && |kept| - |a| + n <= |data|
    requires kept == a + data[..|kept| - |a|]
    ensures Assembles(done, a, kept, data, n)
  {
    var shifted := data[|kept| - |a|..];
    assert data == data[..|kept| - |a|] + (shifted[..n] + shifted[n..]);
  }

  lemma WordsBack(h: seq<Word>)
    requires |h| == 8
    ensures Words(RegsOf(h)) == h
  {}

  /** `memcpy` into the block. */
  method CopyInto(a: array<bv8>, at: nat, s: seq<bv8>)
    requires at + |s| <= a.Length
    modifies a
    ensures a[..] == old(a[..at]) + s + old(a[at + |s|..])
  {
    for i := 0 to |s|
      invariant forall k | 0 <= k < a.Length :: a[k] == if at <= k < at + i then s[k - at] else old(a[k])
    {
      a[at + i] := s[i];
    }
  }

  /** Zeros from `len` on, 0x80 over the first of them, the 32-bit bit length over the last four. */
  method PadBlock(a: array<bv8>, len: nat, pmLen: nat, lenB: nat)
    requires len + 5 <= pmLen <= a.Length
    modifies a
    ensures a[..pmLen] == old(a[..len]) + ([0x80] + Zeros(pmLen - len - 5) + BigEndian(lenB, 4))
  {
    hide BigEndian;
    CopyInto(a, len, Zeros(pmLen - len));
    a[len] := 0x80;
    PutFour(a, pmLen - 4, lenB);
  }

  method Unpack(hash: array<Word>) returns (digest: seq<bv8>)
    requires hash.Length == 8
    ensures digest == Bytes(hash[..])
  {
    hide Bytes, ByteOf;
    ghost var h := hash[..];
    digest := [];
    NoBytes(h);
    for i := 0 to 8
      invariant digest == Bytes(h[..i])
    {
      MoreBytes(h, i);
      digest := digest + WordBytes(hash[i]);
    }
    assert h[..8] == h;
  }

  /** `sha512`: the length argument is truncated to 32 bits on the way into `update`. */
  method Sha512Hex(input: seq<bv8>) returns (result: Option<string>)
    ensures var used := input[..Wrap32(|input|)];
      result == if |used| < 0x8000_0100 then Some(Hex(DigestOf(ShortPadded(used)))) else None
    ensures |input| < 0x2000_0000 ==> result == Some(Hex(DigestOf(Padded(input))))
  {
    hide ShortPadded, Padded, DigestOf, Hex, Hasher.Valid;
    var used := input[..Wrap32(|input|)];
    var ctx := new Hasher();
    ctx.Init();
    assert [] + used == used;
    var inside := ctx.Update(used);
    if !inside {
      return None;
    }
    assert ctx.message == used;
    var digest := ctx.Final();
    var text := ToHex(digest);
    if |input| < 0x2000_0000 {
      PowSplit();
      PaddingsAgree(input);
      assert used == input;
    }
    return Some(text);
  }

  /** `init`, any number of `update` calls and `final`: the digest of what they appended, and SHA-512
      of the joined chunks when these are below 2^29 bytes. */
  method Session(chunks: seq<seq<bv8>>) returns (digest: Option<seq<bv8>>)
    requires Chunks(chunks)
    ensures digest == match Fed(chunks) { case None => None case Some(m) => Some(DigestOf(ShortPadded(m))) }
    ensures |Joined(chunks)| < 0x2000_0000 ==> digest == Some(DigestOf(Padded(Joined(chunks))))
  {
    hide ShortPadded, Padded, DigestOf, Hasher.Valid, Appended, Joined;
    var ctx := new Hasher();
    ctx.Init();
    FedJoined(chunks);
    for i := 0 to |chunks|
      invariant fresh(ctx) && fresh(ctx.hash) && fresh(ctx.block)
      invariant ctx.Valid() && Fed(chunks[..i]) == Some(ctx.message)
    {
      assert chunks[..i + 1][..i] == chunks[..i];
      var inside := ctx.Update(chunks[i]);
      if !inside {
        NoneStays(chunks, i + 1);
        return None;
      }
    }
    assert chunks[..|chunks|] == chunks;
    var bytes := ctx.Final();
    if |Joined(chunks)| < 0x2000_0000 {
      PowSplit();
      PaddingsAgree(Joined(chunks));
    }
    return Some(bytes);
  }

  lemma {:induction false} NoneStays(chunks: seq<seq<bv8>>, i: nat)
    requires Chunks(chunks) && i <= |chunks| && Fed(chunks[..i]).None?
    ensures Fed(chunks).None?
    decreases |chunks| - i
  {
    if i < |chunks| {
      assert chunks[..i + 1][..i] == chunks[..i];
      NoneStays(chunks, i + 1);
    } else {
      assert chunks[..i] == chunks;
    }
  }

  /** Below 2^31 + 256 bytes in all, however they are split, `update` appends. */
  lemma {:induction false} FedJoined(chunks: seq<seq<bv8>>)
    requires Chunks(chunks)
    ensures |Joined(chunks)| < 0x8000_0100 ==> Fed(chunks) == Some(Joined(chunks))
  {
    hide Rest;
    if chunks != [] {
      FedJoined(chunks[..|chunks| - 1]);
    }
  }

  // ------------------------------------------------------------------- lemmas

  lemma FoldBoth(r: Regs, done: seq<bv8>, kept: seq<bv8>, whole: seq<bv8>)
    requires Whole(BLOCK_SIZE, |done|) && |kept| == BLOCK_SIZE && Whole(BLOCK_SIZE, |whole|)
    ensures Whole(BLOCK_SIZE, |done + kept + whole|)
    ensures Fold(Compress, BLOCK_SIZE, r, done + kept + whole)
         == Fold(Compress, BLOCK_SIZE, Fold(Compress, BLOCK_SIZE, Fold(Compress, BLOCK_SIZE, r, done), kept), whole)
  {
    hide Compress, Fold, Whole;
    FoldBlock(Compress, BLOCK_SIZE, r, done, kept);
    FoldAppend(Compress, BLOCK_SIZE, r, done, kept);
    FoldAppend(Compress, BLOCK_SIZE, r, done + kept, whole);
    WholeSum(BLOCK_SIZE, |done + kept|, |whole|);
  }

  lemma NoBytes(h: seq<Word>)
    ensures Bytes(h[..0]) == []
  {}

  lemma MoreBytes(h: seq<Word>, i: nat)
    requires i < |h|
    ensures Bytes(h[..i + 1]) == Bytes(h[..i]) + WordBytes(h[i])
  {
    hide WordBytes;
    assert h[..i + 1][..i] == h[..i];
  }

  lemma WrapAdd32(n: nat, k: nat)
    ensures Wrap32(Wrap32(n) + k) == Wrap32(n + k)
  {}

  lemma MessageBits(n: nat, k: nat)
    ensures Wrap32(8 * (Wrap32(n) + k)) == Wrap32(8 * (n + k))
  {}

  /** The 32-bit length gives the padding of FIPS 180-4 exactly for messages below 2^29 bytes. */
  lemma PaddingsAgree(message: seq<bv8>)
    requires 8 * |message| < Pow256(16)
    ensures ShortPadded(message) == Padded(message) <==> |message| < 0x2000_0000
  {
    hide Rest, BigEndian, Pow256;
    var bits := 8 * |message|;
    var k := |Rest(BLOCK_SIZE, message)|;
    var high := bits / 0x1_0000_0000;
    LowFourBytes(bits, 12);
    WrapKeepsLowBytes(bits);
    var tail := BigEndian(bits, 4);
    assert high < Pow256(12) by { PowSplit(); }
    ZeroBytes(high, 12);
    ZerosSplit(ZerosFor(k), 12);
    var z := message + [0x80] + Zeros(ZerosFor(k));
    assert ShortPadded(message) == z + (Zeros(12) + tail);
    assert Padded(message) == z + (BigEndian(high, 12) + tail);
    SameMiddle(z, Zeros(12), BigEndian(high, 12), tail);
  }

  /** At 2^29 bytes they differ. */
  lemma PaddingsDiffer()
    ensures ShortPadded(Zeros(0x2000_0000)) != Padded(Zeros(0x2000_0000))
  {
    hide ShortPadded, Padded;
    PowSplit();
    PaddingsAgree(Zeros(0x2000_0000));
  }

  /** Two real calls that do not append: one reads outside its data, one loses a buffered byte. */
  lemma UpdatesThatFail()
    ensures Appended([], Zeros(0x8000_0100)) == None
    ensures Appended([1], Zeros(0xFFFF_FFFF)) == Some([])
  {}

  lemma SameMiddle(z: seq<bv8>, a: seq<bv8>, b: seq<bv8>, tail: seq<bv8>)
    requires |a| == |b|
    ensures z + (a + tail) == z + (b + tail) <==> a == b
  {
    if z + (a + tail) == z + (b + tail) {
      assert (z + (a + tail))[|z|..|z| + |a|] == a;
      assert (z + (b + tail))[|z|..|z| + |a|] == b;
    }
  }

  lemma PowSplit()
    ensures Pow256(16) == 0x1_0000_0000 * Pow256(12) && Pow256(12) > 0
  {}

  lemma ZerosSplit(a: nat, b: nat)
    ensures Zeros(a + b) == Zeros(a) + Zeros(b)
  {}

  lemma WrapKeepsLowBytes(n: nat)
    ensures BigEndian(Wrap32(n), 4) == BigEndian(n, 4)
  {
    hide BigEndian;
    assert Pow256(4) == 0x1_0000_0000;
    LowBytesOnly(Wrap32(n), n / 0x1_0000_0000, 4);
  }

  // ------------------------------------------------------ the padding is sound

  /** The padded message is a whole number of blocks, so that none of it is dropped. */
  lemma PaddedIsWhole(message: seq<bv8>)
    ensures Whole(BLOCK_SIZE, |Padded(message)|) && Whole(BLOCK_SIZE, |ShortPadded(message)|)
  {
    var a := Cut(BLOCK_SIZE, message);
    var k := |Rest(BLOCK_SIZE, message)|;
    hide Rest, BigEndian, Whole;
    var n := if k <= 111 then 128 else 256;
    assert |Padded(message)| == |a| + n && |ShortPadded(message)| == |a| + n;
    OneOrTwo();
    WholeSum(BLOCK_SIZE, |a|, n);
  }

  lemma OneOrTwo()
    ensures Whole(128, 128) && Whole(128, 256)
  {}

  /** The words of the digest can be read back the way a block is read. */
  lemma WordBytesBack(w: Word)
    ensures LoadWord(WordBytes(w), 0) == w
  {}

  /** The bytes of equally many words are equal exactly when the words are. */
  lemma {:induction false} BytesTellWords(g: seq<Word>, h: seq<Word>)
    requires |g| == |h|
    ensures Bytes(g) == Bytes(h) <==> g == h
  {
    hide WordBytes, LoadWord;
    if g != [] && Bytes(g) == Bytes(h) {
      var n := |g| - 1;
      WordLength(g[n]);
      WordLength(h[n]);
      var b := Bytes(g);
      assert b[..8 * n] == Bytes(g[..n]) && b[..8 * n] == Bytes(h[..n]);
      assert b[8 * n..] == WordBytes(g[n]) && b[8 * n..] == WordBytes(h[n]);
      BytesTellWords(g[..n], h[..n]);
      WordBytesBack(g[n]);
      WordBytesBack(h[n]);
      assert g == g[..n] + [g[n]] && h == h[..n] + [h[n]];
    }
  }

  lemma WordLength(w: Word)
    ensures |WordBytes(w)| == 8
  {}

  /** Two padded messages have one digest text exactly when they have one hash value. */
  lemma DigestTellsHashValue(p: seq<bv8>, q: seq<bv8>)
    ensures Hex(DigestOf(p)) == Hex(DigestOf(q)) <==>
            Fold(Compress, BLOCK_SIZE, INITIAL, p) == Fold(Compress, BLOCK_SIZE, INITIAL, q)
  {
    hide Hex, Bytes, Fold, Compress;
    var r, r' := Fold(Compress, BLOCK_SIZE, INITIAL, p), Fold(Compress, BLOCK_SIZE, INITIAL, q);
    BytesTellWords(Words(r), Words(r'));
    if Hex(DigestOf(p)) == Hex(DigestOf(q)) {
      HexInjective(DigestOf(p), DigestOf(q));
      WordsInjective(r, r');
    }
  }

  lemma WordsInjective(r: Regs, r': Regs)
    requires Words(r) == Words(r')
    ensures r == r'
  {
    var w, w' := Words(r), Words(r');
    assert w[0] == w'[0] && w[1] == w'[1] && w[2] == w'[2] && w[3] == w'[3];
    assert w[4] == w'[4] && w[5] == w'[5] && w[6] == w'[6] && w[7] == w'[7];
  }
}
