/** SHA-512: the compression function of FIPS 180-4 and the loops of `SHA512::transform`
    (unit/libdevcore/crypto/SHA512/SHA512.cpp). */
module Sha512Rounds {
  import opened Blocks

  /** A 64-bit word. */
  datatype Word = Word(bits: bv64)

  /** Addition modulo 2^64. */
  function Plus(x: bv64, y: bv64): bv64 {
    x + y
  }

  function Add(x: Word, y: Word): Word {
    Word(Plus(x.bits, y.bits))
  }

  function Xor(x: bv64, y: bv64): bv64 {
    x ^ y
  }

  function Shr(x: bv64, n: bv6): bv64 {
    x >> n
  }

  function Rotr(x: bv64, n: bv6): bv64
    requires n > 0
  {
    (x >> n) | (x << (64 - n as bv7))
  }

  // ------------------------------------------ the functions of section 4.1.3

  function Ch(x: Word, y: Word, z: Word): Word {
    Word(ChBits(x.bits, y.bits, z.bits))
  }

  function ChBits(x: bv64, y: bv64, z: bv64): bv64 {
    (x & y) ^ (!x & z)
  }

  function Maj(x: Word, y: Word, z: Word): Word {
    Word(MajBits(x.bits, y.bits, z.bits))
  }

  function MajBits(x: bv64, y: bv64, z: bv64): bv64 {
    (x & y) ^ (x & z) ^ (y & z)
  }

  function BigSigma0(x: Word): Word {
    Word(BigSigma0Bits(x.bits))
  }

  function BigSigma0Bits(x: bv64): bv64 {
    Xor(Xor(Rotr(x, 28), Rotr(x, 34)), Rotr(x, 39))
  }

  function BigSigma1(x: Word): Word {
    Word(BigSigma1Bits(x.bits))
  }

  function BigSigma1Bits(x: bv64): bv64 {
    Xor(Xor(Rotr(x, 14), Rotr(x, 18)), Rotr(x, 41))
  }

  function SmallSigma0(x: Word): Word {
    Word(SmallSigma0Bits(x.bits))
  }

  function SmallSigma0Bits(x: bv64): bv64 {
    Xor(Xor(Rotr(x, 1), Rotr(x, 8)), Shr(x, 7))
  }

  function SmallSigma1(x: Word): Word {
    Word(SmallSigma1Bits(x.bits))
  }

  function SmallSigma1Bits(x: bv64): bv64 {
    Xor(Xor(Rotr(x, 19), Rotr(x, 61)), Shr(x, 6))
  }

  /** The round constants of section 4.2.3. */
  function K(t: nat): Word {
    if t < 40 then (if t < 16 then (if t < 8 then K0(t) else K1(t)) else (if t < 24 then K2(t) else (if t < 32 then K3(t) else K4(t))))
    else (if t < 56 then (if t < 48 then K5(t) else K6(t)) else (if t < 64 then K7(t) else (if t < 72 then K8(t) else K9(t))))
  }

  function K0(t: nat): Word {
    match t
    case 0 => Word(0x428a2f98d728ae22) case 1 => Word(0x7137449123ef65cd) case 2 => Word(0xb5c0fbcfec4d3b2f)
    case 3 => Word(0xe9b5dba58189dbbc) case 4 => Word(0x3956c25bf348b538) case 5 => Word(0x59f111f1b605d019)
    case 6 => Word(0x923f82a4af194f9b) case _ => Word(0xab1c5ed5da6d8118)
  }

  function K1(t: nat): Word {
    match t
    case 8 => Word(0xd807aa98a3030242) case 9 => Word(0x12835b0145706fbe) case 10 => Word(0x243185be4ee4b28c)
    case 11 => Word(0x550c7dc3d5ffb4e2) case 12 => Word(0x72be5d74f27b896f) case 13 => Word(0x80deb1fe3b1696b1)
    case 14 => Word(0x9bdc06a725c71235) case _ => Word(0xc19bf174cf692694)
  }

  function K2(t: nat): Word {
    match t
    case 16 => Word(0xe49b69c19ef14ad2) case 17 => Word(0xefbe4786384f25e3) case 18 => Word(0x0fc19dc68b8cd5b5)
    case 19 => Word(0x240ca1cc77ac9c65) case 20 => Word(0x2de92c6f592b0275) case 21 => Word(0x4a7484aa6ea6e483)
    case 22 => Word(0x5cb0a9dcbd41fbd4) case _ => Word(0x76f988da831153b5)
  }

  function K3(t: nat): Word {
    match t
    case 24 => Word(0x983e5152ee66dfab) case 25 => Word(0xa831c66d2db43210) case 26 => Word(0xb00327c898fb213f)
    case 27 => Word(0xbf597fc7beef0ee4) case 28 => Word(0xc6e00bf33da88fc2) case 29 => Word(0xd5a79147930aa725)
    case 30 => Word(0x06ca6351e003826f) case _ => Word(0x142929670a0e6e70)
  }

  function K4(t: nat): Word {
    match t
    case 32 => Word(0x27b70a8546d22ffc) case 33 => Word(0x2e1b21385c26c926) case 34 => Word(0x4d2c6dfc5ac42aed)
    case 35 => Word(0x53380d139d95b3df) case 36 => Word(0x650a73548baf63de) case 37 => Word(0x766a0abb3c77b2a8)
    case 38 => Word(0x81c2c92e47edaee6) case _ => Word(0x92722c851482353b)
  }

  function K5(t: nat): Word {
    match t
    case 40 => Word(0xa2bfe8a14cf10364) case 41 => Word(0xa81a664bbc423001) case 42 => Word(0xc24b8b70d0f89791)
    case 43 => Word(0xc76c51a30654be30) case 44 => Word(0xd192e819d6ef5218) case 45 => Word(0xd69906245565a910)
    case 46 => Word(0xf40e35855771202a) case _ => Word(0x106aa07032bbd1b8)
  }

  function K6(t: nat): Word {
    match t
    case 48 => Word(0x19a4c116b8d2d0c8) case 49 => Word(0x1e376c085141ab53) case 50 => Word(0x2748774cdf8eeb99)
    case 51 => Word(0x34b0bcb5e19b48a8) case 52 => Word(0x391c0cb3c5c95a63) case 53 => Word(0x4ed8aa4ae3418acb)
    case 54 => Word(0x5b9cca4f7763e373) case _ => Word(0x682e6ff3d6b2b8a3)
  }

  function K7(t: nat): Word {
    match t
    case 56 => Word(0x748f82ee5defb2fc) case 57 => Word(0x78a5636f43172f60) case 58 => Word(0x84c87814a1f0ab72)
    case 59 => Word(0x8cc702081a6439ec) case 60 => Word(0x90befffa23631e28) case 61 => Word(0xa4506cebde82bde9)
    case 62 => Word(0xbef9a3f7b2c67915) case _ => Word(0xc67178f2e372532b)
  }

  function K8(t: nat): Word {
    match t
    case 64 => Word(0xca273eceea26619c) case 65 => Word(0xd186b8c721c0c207) case 66 => Word(0xeada7dd6cde0eb1e)
    case 67 => Word(0xf57d4f7fee6ed178) case 68 => Word(0x06f067aa72176fba) case 69 => Word(0x0a637dc5a2c898a6)
    case 70 => Word(0x113f9804bef90dae) case _ => Word(0x1b710b35131c471b)
  }

  function K9(t: nat): Word {
    match t
    case 72 => Word(0x28db77f523047d84) case 73 => Word(0x32caab7b40c72493) case 74 => Word(0x3c9ebe0a15c9bebc)
    case 75 => Word(0x431d67c49c100d4c) case 76 => Word(0x4cc5d4becb3e42b6) case 77 => Word(0x597f299cfc657e2a)
    case 78 => Word(0x5fcb6fab3ad6faec) case _ => Word(0x6c44198c4a475817)
  }

  // ------------------------------------------------- compression, section 6.4.2

  datatype Regs = Regs(a: Word, b: Word, c: Word, d: Word, e: Word, f: Word, g: Word, h: Word)

  function RegsOf(h: seq<Word>): Regs
    requires |h| == 8
  {
    Regs(h[0], h[1], h[2], h[3], h[4], h[5], h[6], h[7])
  }

  /** `SHA2_PACK64`: eight bytes, most significant first. */
  function LoadWord(b: seq<bv8>, at: nat): Word
    requires at + 8 <= |b|
  {
    Word((b[at] as bv64 << 56) | (b[at + 1] as bv64 << 48) | (b[at + 2] as bv64 << 40) | (b[at + 3] as bv64 << 32)
      | (b[at + 4] as bv64 << 24) | (b[at + 5] as bv64 << 16) | (b[at + 6] as bv64 << 8) | b[at + 7] as bv64)
  }

  /** Word t of the message schedule. */
  function Schedule(block: seq<bv8>, t: nat): Word
    requires |block| == 128
  {
    if t < 16 then LoadWord(block, 8 * t)
    else
      Add(Add(Add(SmallSigma1(Schedule(block, t - 2)), Schedule(block, t - 7)),
        SmallSigma0(Schedule(block, t - 15))), Schedule(block, t - 16))
  }

  function T1(r: Regs, t: nat, w: Word): Word {
    Add(Add(Add(Add(r.h, BigSigma1(r.e)), Ch(r.e, r.f, r.g)), K(t)), w)
  }

  function T2(r: Regs): Word {
    Add(BigSigma0(r.a), Maj(r.a, r.b, r.c))
  }

  function Round(r: Regs, t: nat, w: Word): Regs {
    Regs(Add(T1(r, t, w), T2(r)), r.a, r.b, r.c, Add(r.d, T1(r, t, w)), r.e, r.f, r.g)
  }

  function Rounds(r: Regs, block: seq<bv8>, t: nat): Regs
    requires |block| == 128
  {
    if t == 0 then r else Round(Rounds(r, block, t - 1), t - 1, Schedule(block, t - 1))
  }

  function AddRegs(r: Regs, s: Regs): Regs {
    Regs(Add(r.a, s.a), Add(r.b, s.b), Add(r.c, s.c), Add(r.d, s.d),
      Add(r.e, s.e), Add(r.f, s.f), Add(r.g, s.g), Add(r.h, s.h))
  }

  /** The hash value after one more block. */
  function Compress(r: Regs, block: seq<bv8>): Regs {
    if |block| == 128 then AddRegs(r, Rounds(r, block, 80)) else r
  }

  /** The initial hash value of section 5.3.5. */
  const INITIAL: Regs := Regs(
    Word(0x6a09e667f3bcc908), Word(0xbb67ae8584caa73b), Word(0x3c6ef372fe94f82b), Word(0xa54ff53a5f1d36f1),
    Word(0x510e527fade682d1), Word(0x9b05688c2b3e6c1f), Word(0x1f83d9abfb41bd6b), Word(0x5be0cd19137e2179))

  // ------------------------------------------------------------- `transform`

  method FillSchedule(subBlock: seq<bv8>) returns (w: array<Word>)
    requires |subBlock| == 128
    ensures fresh(w) && w.Length == 80
    ensures forall t | 0 <= t < 80 :: w[t] == Schedule(subBlock, t)
  {
    hide Add, SmallSigma0, SmallSigma1, LoadWord, Schedule;
    w := new Word[80](_ => Word(0));
    for j := 0 to 16
      invariant forall t | 0 <= t < j :: w[t] == Schedule(subBlock, t)
    {
      ScheduleWord(subBlock, j);
      w[j] := LoadWord(subBlock, 8 * j);
    }
    for j := 16 to 80
      invariant forall t | 0 <= t < j :: w[t] == Schedule(subBlock, t)
    {
      ScheduleWord(subBlock, j);
      w[j] := Add(Add(Add(SmallSigma1(w[j - 2]), w[j - 7]), SmallSigma0(w[j - 15])), w[j - 16]);
    }
  }

  lemma ScheduleWord(block: seq<bv8>, t: nat)
    requires |block| == 128
    ensures t < 16 ==> Schedule(block, t) == LoadWord(block, 8 * t)
    ensures t >= 16 ==> Schedule(block, t) == Add(Add(Add(SmallSigma1(Schedule(block, t - 2)), Schedule(block, t - 7)),
      SmallSigma0(Schedule(block, t - 15))), Schedule(block, t - 16))
  {}

  /** The body of the round loop: the registers move up one place. */
  method ShiftRegisters(wv: array<Word>, j: nat, w: Word)
    requires wv.Length == 8
    modifies wv
    ensures RegsOf(wv[..]) == Round(old(RegsOf(wv[..])), j, w)
  {
    hide Add, BigSigma0, BigSigma1, Ch, Maj, K;
    var t1 := Add(Add(Add(Add(wv[7], BigSigma1(wv[4])), Ch(wv[4], wv[5], wv[6])), K(j)), w);
    var t2 := Add(BigSigma0(wv[0]), Maj(wv[0], wv[1], wv[2]));
    wv[7] := wv[6];
    wv[6] := wv[5];
    wv[5] := wv[4];
    wv[4] := Add(wv[3], t1);
    wv[3] := wv[2];
    wv[2] := wv[1];
    wv[1] := wv[0];
    wv[0] := Add(t1, t2);
  }

  method TransformBlock(hash: array<Word>, subBlock: seq<bv8>)
    requires hash.Length == 8 && |subBlock| == 128
    modifies hash
    ensures RegsOf(hash[..]) == Compress(old(RegsOf(hash[..])), subBlock)
  {
    hide Add, Schedule, Round;
    var w := FillSchedule(subBlock);
    var wv := new Word[8](_ => Word(0));
    for j := 0 to 8
      invariant hash[..] == old(hash[..]) && forall k | 0 <= k < j :: wv[k] == hash[k]
      invariant forall t | 0 <= t < 80 :: w[t] == Schedule(subBlock, t)
    {
      wv[j] := hash[j];
    }
    ghost var r := RegsOf(hash[..]);
    for j := 0 to 80
      invariant hash[..] == old(hash[..]) && RegsOf(wv[..]) == Rounds(r, subBlock, j)
      invariant forall t | 0 <= t < 80 :: w[t] == Schedule(subBlock, t)
    {
      ShiftRegisters(wv, j, w[j]);
    }
    AddInto(hash, wv);
  }

  method AddInto(hash: array<Word>, wv: array<Word>)
    requires hash.Length == 8 && wv.Length == 8 && hash != wv
    modifies hash
    ensures RegsOf(hash[..]) == AddRegs(old(RegsOf(hash[..])), RegsOf(wv[..]))
  {
    hide Add;
    for j := 0 to 8
      invariant forall k | 0 <= k < 8 :: hash[k] == if k < j then Add(old(hash[k]), wv[k]) else old(hash[k])
    {
      hash[j] := Add(hash[j], wv[j]);
    }
  }

  /** A value shifted as a 32-bit `int`. */
  function Int32(n: nat): int {
    var m := n % 0x1_0000_0000;
    if m < 0x8000_0000 then m else m - 0x1_0000_0000
  }

  const MAX_BLOCKS: nat := 0x100_0000

  /** `transform`: `blockNb` blocks of the message.  From block 2^24 on, `i << 7` is negative and the
      block would be read in front of the message; the model stops there and returns false. */
  method Transform(hash: array<Word>, message: seq<bv8>, blockNb: nat) returns (inside: bool)
    requires hash.Length == 8 && 128 * blockNb <= |message| && blockNb < 0x8000_0000
    modifies hash
    ensures inside <==> blockNb <= MAX_BLOCKS
    ensures inside ==> Whole(128, 128 * blockNb)
    ensures inside ==> RegsOf(hash[..]) == Fold(Compress, 128, old(RegsOf(hash[..])), message[..128 * blockNb])
  {
    hide Compress, RegsOf, Whole;
    ghost var r := RegsOf(hash[..]);
    NoBlocks(r);
    assert message[..0] == [];
    for i := 0 to blockNb
      invariant i <= MAX_BLOCKS && Whole(128, 128 * i)
      invariant RegsOf(hash[..]) == Fold(Compress, 128, r, message[..128 * i])
    {
      var offset := Int32(128 * i);
      if offset < 0 {
        return false;
      }
      var subBlock := message[offset..offset + 128];
      FoldBlock(Compress, 128, r, message[..128 * i], subBlock);
      assert message[..128 * (i + 1)] == message[..128 * i] + subBlock;
      TransformBlock(hash, subBlock);
    }
    return true;
  }

  lemma NoBlocks(r: Regs)
    ensures Whole(128, 0) && Fold(Compress, 128, r, []) == r
  {}
}
