/** SHA-256: the compression function of FIPS 180-4 and the unrolled `processBlock`
    (unit/libdevcore/bip44/SHA256.cpp). */
module Sha256Rounds {

  // ------------------------------------------------------------------- words

  /** A 32-bit word. */
  datatype Word = Word(bits: bv32)

  function Plus(x: bv32, y: bv32): bv32 {
    x + y
  }

  /** Addition modulo 2^32. */
  function Add(x: Word, y: Word): Word {
    Word(Plus(x.bits, y.bits))
  }

  function Xor(x: bv32, y: bv32): bv32 {
    x ^ y
  }

  function Shr(x: bv32, n: bv5): bv32 {
    x >> n
  }

  function Rotr(x: bv32, n: bv5): bv32
    requires n > 0
  {
    (x >> n) | (x << (32 - n as bv6))
  }

  lemma PlusRegroups(x: bv32, y: bv32, z: bv32, xy: bv32, yz: bv32)
    requires xy == x + y && yz == y + z
    ensures Plus(xy, z) == Plus(x, yz)
  {}

  lemma PlusAssociates(x: bv32, y: bv32, z: bv32)
    ensures Plus(Plus(x, y), z) == Plus(x, Plus(y, z))
  {
    var xy, yz := Plus(x, y), Plus(y, z);
    assert xy == x + y && yz == y + z;
    hide Plus;
    PlusRegroups(x, y, z, xy, yz);
  }

  lemma AddAssociates(x: Word, y: Word, z: Word)
    ensures Add(Add(x, y), z) == Add(x, Add(y, z))
  {
    PlusAssociates(x.bits, y.bits, z.bits);
    hide Plus;
  }

  lemma AddCommutes(x: Word, y: Word)
    ensures Add(x, y) == Add(y, x)
  {}

  // ------------------------------------------ the functions of section 4.1.2

  function Ch(x: Word, y: Word, z: Word): Word {
    Word(ChBits(x.bits, y.bits, z.bits))
  }

  function ChBits(x: bv32, y: bv32, z: bv32): bv32 {
    (x & y) ^ (!x & z)
  }

  function Maj(x: Word, y: Word, z: Word): Word {
    Word(MajBits(x.bits, y.bits, z.bits))
  }

  function MajBits(x: bv32, y: bv32, z: bv32): bv32 {
    (x & y) ^ (x & z) ^ (y & z)
  }

  function BigSigma0(x: Word): Word {
    Word(BigSigma0Bits(x.bits))
  }

  function BigSigma0Bits(x: bv32): bv32 {
    Xor(Xor(Rotr(x, 2), Rotr(x, 13)), Rotr(x, 22))
  }

  function BigSigma1(x: Word): Word {
    Word(BigSigma1Bits(x.bits))
  }

  function BigSigma1Bits(x: bv32): bv32 {
    Xor(Xor(Rotr(x, 6), Rotr(x, 11)), Rotr(x, 25))
  }

  function SmallSigma0(x: Word): Word {
    Word(SmallSigma0Bits(x.bits))
  }

  function SmallSigma0Bits(x: bv32): bv32 {
    Xor(Xor(Rotr(x, 7), Rotr(x, 18)), Shr(x, 3))
  }

  function SmallSigma1(x: Word): Word {
    Word(SmallSigma1Bits(x.bits))
  }

  function SmallSigma1Bits(x: bv32): bv32 {
    Xor(Xor(Rotr(x, 17), Rotr(x, 19)), Shr(x, 10))
  }

  /** The round constants of section 4.2.2. */
  function K(t: nat): Word {
    if t < 32 then (if t < 16 then (if t < 8 then K0(t) else K1(t)) else (if t < 24 then K2(t) else K3(t)))
    else (if t < 48 then (if t < 40 then K4(t) else K5(t)) else (if t < 56 then K6(t) else K7(t)))
  }

  function K0(t: nat): Word {
    match t
    case 0 => Word(0x428a2f98) case 1 => Word(0x71374491) case 2 => Word(0xb5c0fbcf) case 3 => Word(0xe9b5dba5)
    case 4 => Word(0x3956c25b) case 5 => Word(0x59f111f1) case 6 => Word(0x923f82a4) case _ => Word(0xab1c5ed5)
  }

  function K1(t: nat): Word {
    match t
    case 8 => Word(0xd807aa98) case 9 => Word(0x12835b01) case 10 => Word(0x243185be) case 11 => Word(0x550c7dc3)
    case 12 => Word(0x72be5d74) case 13 => Word(0x80deb1fe) case 14 => Word(0x9bdc06a7) case _ => Word(0xc19bf174)
  }

  function K2(t: nat): Word {
    match t
    case 16 => Word(0xe49b69c1) case 17 => Word(0xefbe4786) case 18 => Word(0x0fc19dc6) case 19 => Word(0x240ca1cc)
    case 20 => Word(0x2de92c6f) case 21 => Word(0x4a7484aa) case 22 => Word(0x5cb0a9dc) case _ => Word(0x76f988da)
  }

  function K3(t: nat): Word {
    match t
    case 24 => Word(0x983e5152) case 25 => Word(0xa831c66d) case 26 => Word(0xb00327c8) case 27 => Word(0xbf597fc7)
    case 28 => Word(0xc6e00bf3) case 29 => Word(0xd5a79147) case 30 => Word(0x06ca6351) case _ => Word(0x14292967)
  }

  function K4(t: nat): Word {
    match t
    case 32 => Word(0x27b70a85) case 33 => Word(0x2e1b2138) case 34 => Word(0x4d2c6dfc) case 35 => Word(0x53380d13)
    case 36 => Word(0x650a7354) case 37 => Word(0x766a0abb) case 38 => Word(0x81c2c92e) case _ => Word(0x92722c85)
  }

  function K5(t: nat): Word {
    match t
    case 40 => Word(0xa2bfe8a1) case 41 => Word(0xa81a664b) case 42 => Word(0xc24b8b70) case 43 => Word(0xc76c51a3)
    case 44 => Word(0xd192e819) case 45 => Word(0xd6990624) case 46 => Word(0xf40e3585) case _ => Word(0x106aa070)
  }

  function K6(t: nat): Word {
    match t
    case 48 => Word(0x19a4c116) case 49 => Word(0x1e376c08) case 50 => Word(0x2748774c) case 51 => Word(0x34b0bcb5)
    case 52 => Word(0x391c0cb3) case 53 => Word(0x4ed8aa4a) case 54 => Word(0x5b9cca4f) case _ => Word(0x682e6ff3)
  }

  function K7(t: nat): Word {
    match t
    case 56 => Word(0x748f82ee) case 57 => Word(0x78a5636f) case 58 => Word(0x84c87814) case 59 => Word(0x8cc70208)
    case 60 => Word(0x90befffa) case 61 => Word(0xa4506ceb) case 62 => Word(0xbef9a3f7) case _ => Word(0xc67178f2)
  }

  // ------------------------------------------------- compression, section 6.2.2

  datatype Regs = Regs(a: Word, b: Word, c: Word, d: Word, e: Word, f: Word, g: Word, h: Word)

  /** The words of the `m_hash` array as registers. */
  function RegsOf(h: seq<Word>): Regs
    requires |h| == 8
  {
    Regs(h[0], h[1], h[2], h[3], h[4], h[5], h[6], h[7])
  }

  /** Four bytes, most significant first. */
  function LoadWord(b: seq<bv8>, at: nat): Word
    requires at + 4 <= |b|
  {
    Word((b[at] as bv32 << 24) | (b[at + 1] as bv32 << 16) | (b[at + 2] as bv32 << 8) | b[at + 3] as bv32)
  }

  /** Word t of the message schedule. */
  function Schedule(block: seq<bv8>, t: nat): Word
    requires |block| == 64
  {
    if t < 16 then LoadWord(block, 4 * t)
    else
      Add(Add(Add(SmallSigma1(Schedule(block, t - 2)), Schedule(block, t - 7)),
        SmallSigma0(Schedule(block, t - 15))), Schedule(block, t - 16))
  }

  function T1(r: Regs, t: nat, w: Word): Word {
    Add(Add(Add(Add(r.h, BigSigma1(r.e)), Ch(r.e, r.f, r.g)), K(t)), w)
  }

  function T2(r: Regs): Word {
    Add(BigSigma0(r.a), Maj(r.a, r.b, r.c))
  }

  function Round(r: Regs, t: nat, w: Word): Regs {
    Regs(Add(T1(r, t, w), T2(r)), r.a, r.b, r.c, Add(r.d, T1(r, t, w)), r.e, r.f, r.g)
  }

  function Rounds(r: Regs, block: seq<bv8>, t: nat): Regs
    requires |block| == 64
  {
    if t == 0 then r else Round(Rounds(r, block, t - 1), t - 1, Schedule(block, t - 1))
  }

  function AddRegs(r: Regs, s: Regs): Regs {
    Regs(Add(r.a, s.a), Add(r.b, s.b), Add(r.c, s.c), Add(r.d, s.d),
      Add(r.e, s.e), Add(r.f, s.f), Add(r.g, s.g), Add(r.h, s.h))
  }

  /** The hash value after one more block. */
  function Compress(r: Regs, block: seq<bv8>): Regs {
    if |block| == 64 then AddRegs(r, Rounds(r, block, 64)) else r
  }

  // --------------------------------------------------------- the unrolled form

  /** `f1`. */
  function F1(e: Word, f: Word, g: Word): Word {
    Add(BigSigma1(e), Ch(e, f, g))
  }

  /** The majority function as `f2` writes it. */
  function MajRewritten(a: Word, b: Word, c: Word): Word {
    Word(((a.bits | b.bits) & c.bits) | (a.bits & b.bits))
  }

  lemma MajIsMaj(a: Word, b: Word, c: Word)
    ensures MajRewritten(a, b, c) == Maj(a, b, c)
  {}

  /** `f2`. */
  function F2(a: Word, b: Word, c: Word): Word {
    Add(BigSigma0(a), MajRewritten(a, b, c))
  }

  /** One line of the unrolled rounds is one round of the shifting loop, the registers renamed. */
  lemma RoundLine(r: Regs, t: nat, w: Word)
    ensures var x := Add(Add(Add(r.h, F1(r.e, r.f, r.g)), K(t)), w);
      var y := F2(r.a, r.b, r.c);
      Round(r, t, w) == Regs(Add(x, y), r.a, r.b, r.c, Add(r.d, x), r.e, r.f, r.g)
  {
    hide Add, BigSigma0, BigSigma1, Ch, Maj, MajRewritten, K;
    AddAssociates(r.h, BigSigma1(r.e), Ch(r.e, r.f, r.g));
    MajIsMaj(r.a, r.b, r.c);
  }

  /** One of the eight groups: eight lines, after which every register is back in its place. */
  method EightRounds(r: Regs, t: nat, words: array<Word>, ghost start: Regs, ghost block: seq<bv8>) returns (r': Regs)
    requires |block| == 64 && words.Length == 64 && t + 8 <= 64
    requires forall i | 0 <= i < t + 8 :: words[i] == Schedule(block, i)
    requires r == Rounds(start, block, t)
    ensures r' == Rounds(start, block, t + 8)
  {
    hide Add, F1, F2, K, Schedule, Round;
    var Regs(a, b, c, d, e, f, g, h) := r;
    var x, y;
    RoundLine(Regs(a, b, c, d, e, f, g, h), t + 0, words[t + 0]);
    x := Add(Add(Add(h, F1(e, f, g)), K(t + 0)), words[t + 0]); y := F2(a, b, c); d := Add(d, x); h := Add(x, y);
    RoundLine(Regs(h, a, b, c, d, e, f, g), t + 1, words[t + 1]);
    x := Add(Add(Add(g, F1(d, e, f)), K(t + 1)), words[t + 1]); y := F2(h, a, b); c := Add(c, x); g := Add(x, y);
    RoundLine(Regs(g, h, a, b, c, d, e, f), t + 2, words[t + 2]);
    x := Add(Add(Add(f, F1(c, d, e)), K(t + 2)), words[t + 2]); y := F2(g, h, a); b := Add(b, x); f := Add(x, y);
    RoundLine(Regs(f, g, h, a, b, c, d, e), t + 3, words[t + 3]);
    x := Add(Add(Add(e, F1(b, c, d)), K(t + 3)), words[t + 3]); y := F2(f, g, h); a := Add(a, x); e := Add(x, y);
    RoundLine(Regs(e, f, g, h, a, b, c, d), t + 4, words[t + 4]);
    x := Add(Add(Add(d, F1(a, b, c)), K(t + 4)), words[t + 4]); y := F2(e, f, g); h := Add(h, x); d := Add(x, y);
    RoundLine(Regs(d, e, f, g, h, a, b, c), t + 5, words[t + 5]);
    x := Add(Add(Add(c, F1(h, a, b)), K(t + 5)), words[t + 5]); y := F2(d, e, f); g := Add(g, x); c := Add(x, y);
    RoundLine(Regs(c, d, e, f, g, h, a, b), t + 6, words[t + 6]);
    x := Add(Add(Add(b, F1(g, h, a)), K(t + 6)), words[t + 6]); y := F2(c, d, e); f := Add(f, x); b := Add(x, y);
    RoundLine(Regs(b, c, d, e, f, g, h, a), t + 7, words[t + 7]);
    x := Add(Add(Add(a, F1(f, g, h)), K(t + 7)), words[t + 7]); y := F2(b, c, d); e := Add(e, x); a := Add(x, y);
    r' := Regs(a, b, c, d, e, f, g, h);
    EightSteps(start, block, t);
  }

  lemma EightSteps(start: Regs, block: seq<bv8>, t: nat)
    requires |block| == 64
    ensures Rounds(start, block, t + 8) ==
      Round(Round(Round(Round(Round(Round(Round(Round(Rounds(start, block, t),
        t, Schedule(block, t)), t + 1, Schedule(block, t + 1)), t + 2, Schedule(block, t + 2)),
        t + 3, Schedule(block, t + 3)), t + 4, Schedule(block, t + 4)), t + 5, Schedule(block, t + 5)),
        t + 6, Schedule(block, t + 6)), t + 7, Schedule(block, t + 7))
  {
    hide Round, Schedule;
    FourSteps(start, block, t);
    FourSteps(start, block, t + 4);
  }

  lemma FourSteps(start: Regs, block: seq<bv8>, t: nat)
    requires |block| == 64
    ensures Rounds(start, block, t + 4) ==
      Round(Round(Round(Round(Rounds(start, block, t), t, Schedule(block, t)), t + 1, Schedule(block, t + 1)),
        t + 2, Schedule(block, t + 2)), t + 3, Schedule(block, t + 3))
  {
    hide Round, Schedule;
    assert Rounds(start, block, t + 2) == Round(Rounds(start, block, t + 1), t + 1, Schedule(block, t + 1));
    assert Rounds(start, block, t + 4) == Round(Rounds(start, block, t + 3), t + 3, Schedule(block, t + 3));
  }

  /** "extend to n words": the schedule, its sum in another order. */
  method Extend(words: array<Word>, from: nat, till: nat, ghost block: seq<bv8>)
    requires |block| == 64 && words.Length == 64 && 16 <= from <= till <= 64
    requires forall i | 0 <= i < from :: words[i] == Schedule(block, i)
    modifies words
    ensures forall i | 0 <= i < till :: words[i] == Schedule(block, i)
  {
    hide Add, SmallSigma0, SmallSigma1, Schedule;
    for i := from to till
      invariant forall k | 0 <= k < i :: words[k] == Schedule(block, k)
    {
      ScheduleSum(block, i);
      words[i] := Add(Add(Add(words[i - 16], SmallSigma0(words[i - 15])), words[i - 7]), SmallSigma1(words[i - 2]));
    }
  }

  lemma ScheduleSum(block: seq<bv8>, t: nat)
    requires |block| == 64 && t >= 16
    ensures Schedule(block, t) == Add(Add(Add(Schedule(block, t - 16), SmallSigma0(Schedule(block, t - 15))),
      Schedule(block, t - 7)), SmallSigma1(Schedule(block, t - 2)))
  {
    hide Add, SmallSigma0, SmallSigma1, LoadWord;
    var w, x, y, z := SmallSigma1(Schedule(block, t - 2)), Schedule(block, t - 7),
      SmallSigma0(Schedule(block, t - 15)), Schedule(block, t - 16);
    hide Schedule;
    Reversed(w, x, y, z);
  }

  lemma Reversed(w: Word, x: Word, y: Word, z: Word)
    ensures Add(Add(Add(w, x), y), z) == Add(Add(Add(z, y), x), w)
  {
    hide Add;
    AddCommutes(Add(Add(w, x), y), z);
    AddCommutes(Add(w, x), y);
    AddCommutes(w, x);
    AddAssociates(z, y, Add(x, w));
    AddAssociates(Add(z, y), x, w);
  }

  /** `processBlock`: the eight groups of rounds with the words extended between them. */
  method ProcessBlock(hash: array<Word>, data: seq<bv8>)
    requires hash.Length == 8 && |data| == 64
    modifies hash
    ensures RegsOf(hash[..]) == Compress(old(RegsOf(hash[..])), data)
  {
    hide Rounds, Schedule, LoadWord, Add;
    var r := Regs(hash[0], hash[1], hash[2], hash[3], hash[4], hash[5], hash[6], hash[7]);
    var words := new Word[64](_ => Word(0));
    for i := 0 to 16
      invariant hash[..] == old(hash[..])
      invariant forall k | 0 <= k < i :: words[k] == Schedule(data, k)
    {
      FirstWords(data, i);
      words[i] := LoadWord(data, 4 * i);
    }
    NoRounds(r, data);
    var s := EightRounds(r, 0, words, r, data);
    s := EightRounds(s, 8, words, r, data);
    Extend(words, 16, 24, data);
    s := EightRounds(s, 16, words, r, data);
    Extend(words, 24, 32, data);
    s := EightRounds(s, 24, words, r, data);
    Extend(words, 32, 40, data);
    s := EightRounds(s, 32, words, r, data);
    Extend(words, 40, 48, data);
    s := EightRounds(s, 40, words, r, data);
    Extend(words, 48, 56, data);
    s := EightRounds(s, 48, words, r, data);
    Extend(words, 56, 64, data);
    s := EightRounds(s, 56, words, r, data);
    AddInto(hash, s);
  }

  /** "update hash". */
  method AddInto(hash: array<Word>, s: Regs)
    requires hash.Length == 8
    modifies hash
    ensures RegsOf(hash[..]) == AddRegs(old(RegsOf(hash[..])), s)
  {
    hide Add;
    hash[0] := Add(hash[0], s.a);
    hash[1] := Add(hash[1], s.b);
    hash[2] := Add(hash[2], s.c);
    hash[3] := Add(hash[3], s.d);
    hash[4] := Add(hash[4], s.e);
    hash[5] := Add(hash[5], s.f);
    hash[6] := Add(hash[6], s.g);
    hash[7] := Add(hash[7], s.h);
  }

  lemma FirstWords(block: seq<bv8>, t: nat)
    requires |block| == 64 && t < 16
    ensures Schedule(block, t) == LoadWord(block, 4 * t)
  {}

  lemma NoRounds(r: Regs, block: seq<bv8>)
    requires |block| == 64
    ensures Rounds(r, block, 0) == r
  {}

  /** The initial hash value of section 5.3.3. */
  const INITIAL: Regs := Regs(Word(0x6a09e667), Word(0xbb67ae85), Word(0x3c6ef372), Word(0xa54ff53a),
    Word(0x510e527f), Word(0x9b05688c), Word(0x1f83d9ab), Word(0x5be0cd19))
}
