/** What the constants and functions of SHA-256 are, said without the tables and expressions that
    the specification and the code share. */
module Sha256Laws {
  import opened Bits
  import opened Primes
  import opened Sha256Rounds

  const UNIT: nat := 0x1_0000_0000

  // ----------------------------------------------------------------- constants

  ghost predicate ConstantLaw(t: nat) {
    CubeRootFraction(Prime(t), UNIT, K(t).bits as nat)
  }

  lemma Constants0()
    ensures ConstantLaw(0) && ConstantLaw(1) && ConstantLaw(2) && ConstantLaw(3)
  {}

  lemma Constants4()
    ensures ConstantLaw(4) && ConstantLaw(5) && ConstantLaw(6) && ConstantLaw(7)
  {}

  lemma Constants8()
    ensures ConstantLaw(8) && ConstantLaw(9) && ConstantLaw(10) && ConstantLaw(11)
  {}

  lemma Constants12()
    ensures ConstantLaw(12) && ConstantLaw(13) && ConstantLaw(14) && ConstantLaw(15)
  {}

  lemma Constants16()
    ensures ConstantLaw(16) && ConstantLaw(17) && ConstantLaw(18) && ConstantLaw(19)
  {}

  lemma Constants20()
    ensures ConstantLaw(20) && ConstantLaw(21) && ConstantLaw(22) && ConstantLaw(23)
  {}

  lemma Constants24()
    ensures ConstantLaw(24) && ConstantLaw(25) && ConstantLaw(26) && ConstantLaw(27)
  {}

  lemma Constants28()
    ensures ConstantLaw(28) && ConstantLaw(29) && ConstantLaw(30) && ConstantLaw(31)
  {}

  lemma Constants32()
    ensures ConstantLaw(32) && ConstantLaw(33) && ConstantLaw(34) && ConstantLaw(35)
  {}

  lemma Constants36()
    ensures ConstantLaw(36) && ConstantLaw(37) && ConstantLaw(38) && ConstantLaw(39)
  {}

  lemma Constants40()
    ensures ConstantLaw(40) && ConstantLaw(41) && ConstantLaw(42) && ConstantLaw(43)
  {}

  lemma Constants44()
    ensures ConstantLaw(44) && ConstantLaw(45) && ConstantLaw(46) && ConstantLaw(47)
  {}

  lemma Constants48()
    ensures ConstantLaw(48) && ConstantLaw(49) && ConstantLaw(50) && ConstantLaw(51)
  {}

  lemma Constants52()
    ensures ConstantLaw(52) && ConstantLaw(53) && ConstantLaw(54) && ConstantLaw(55)
  {}

  lemma Constants56()
    ensures ConstantLaw(56) && ConstantLaw(57) && ConstantLaw(58) && ConstantLaw(59)
  {}

  lemma Constants60()
    ensures ConstantLaw(60) && ConstantLaw(61) && ConstantLaw(62) && ConstantLaw(63)
  {}

  lemma AnyConstant(t: nat)
    requires t < 64
    ensures ConstantLaw(t)
  {
    hide ConstantLaw;
    if t < 4 { Constants0(); }
    else if t < 8 { Constants4(); }
    else if t < 12 { Constants8(); }
    else if t < 16 { Constants12(); }
    else if t < 20 { Constants16(); }
    else if t < 24 { Constants20(); }
    else if t < 28 { Constants24(); }
    else if t < 32 { Constants28(); }
    else if t < 36 { Constants32(); }
    else if t < 40 { Constants36(); }
    else if t < 44 { Constants40(); }
    else if t < 48 { Constants44(); }
    else if t < 52 { Constants48(); }
    else if t < 56 { Constants52(); }
    else if t < 60 { Constants56(); }
    else { Constants60(); }
  }

  /** Each round constant is the first 32 bits of the fractional part of the cube root of its prime. */
  lemma RoundConstants(t: nat)
    requires t < 64
    ensures CubeRootFraction(Prime(t), UNIT, K(t).bits as nat)
  {
    AnyConstant(t);
    hide CubeRootFraction, K, Prime;
  }

  /** The initial hash value: the square roots of the first eight primes. */
  lemma InitialHashValue()
    ensures SquareRootFraction(Prime(0), UNIT, INITIAL.a.bits as nat) && SquareRootFraction(Prime(1), UNIT, INITIAL.b.bits as nat)
    ensures SquareRootFraction(Prime(2), UNIT, INITIAL.c.bits as nat) && SquareRootFraction(Prime(3), UNIT, INITIAL.d.bits as nat)
    ensures SquareRootFraction(Prime(4), UNIT, INITIAL.e.bits as nat) && SquareRootFraction(Prime(5), UNIT, INITIAL.f.bits as nat)
    ensures SquareRootFraction(Prime(6), UNIT, INITIAL.g.bits as nat) && SquareRootFraction(Prime(7), UNIT, INITIAL.h.bits as nat)
  {}

  // ----------------------------------------------------------------- functions

  /** Bit i of a word. */
  function B(x: Word, i: bv5): bool {
    Bit32(x.bits, i)
  }

  /** x chooses between y and z. */
  lemma ChLaw(x: Word, y: Word, z: Word, i: bv5)
    ensures B(Ch(x, y, z), i) == if B(x, i) then B(y, i) else B(z, i)
  {
    hide Bit32, ChBits;
    ChWord(x.bits, y.bits, z.bits, i);
  }

  lemma ChWord(x: bv32, y: bv32, z: bv32, i: bv5)
    ensures Bit32(ChBits(x, y, z), i) == if Bit32(x, i) then Bit32(y, i) else Bit32(z, i)
  {
    var r := ChBits(x, y, z);
    assert r == (x & y) ^ (!x & z);
    hide *;
    ChExpression(x, y, z, r, i);
  }

  lemma ChExpression(x: bv32, y: bv32, z: bv32, r: bv32, i: bv5)
    requires r == (x & y) ^ (!x & z)
    ensures Bit32(r, i) == if Bit32(x, i) then Bit32(y, i) else Bit32(z, i)
  {}

  /** The majority of three bits. */
  lemma MajLaw(x: Word, y: Word, z: Word, i: bv5)
    ensures B(Maj(x, y, z), i) == Majority(B(x, i), B(y, i), B(z, i))
  {
    hide Bit32, MajBits;
    MajWord(x.bits, y.bits, z.bits, i);
  }

  lemma MajWord(x: bv32, y: bv32, z: bv32, i: bv5)
    ensures Bit32(MajBits(x, y, z), i) == Majority(Bit32(x, i), Bit32(y, i), Bit32(z, i))
  {
    var r := MajBits(x, y, z);
    assert r == (x & y) ^ (x & z) ^ (y & z);
    hide *;
    MajExpression(x, y, z, r, i);
  }

  lemma MajExpression(x: bv32, y: bv32, z: bv32, r: bv32, i: bv5)
    requires r == (x & y) ^ (x & z) ^ (y & z)
    ensures Bit32(r, i) == Majority(Bit32(x, i), Bit32(y, i), Bit32(z, i))
  {}

  /** A right rotation by n takes bit i from i + n. */
  lemma RotrLaw(x: bv32, n: bv5, i: bv5)
    requires n > 0
    ensures Bit32(Rotr(x, n), i) == Bit32(x, i + n)
  {
    assert RotatedRight32(x, n, Rotr(x, n));
    hide *;
    RotateRightLaw32(x, n, i, Rotr(x, n));
  }

  /** r is x shifted right by n. */
  predicate Shifted(x: bv32, n: bv5, r: bv32) {
    r == x >> n
  }

  lemma ShrIs(x: bv32, n: bv5)
    ensures Shifted(x, n, Shr(x, n))
  {}

  /** A right shift brings in zeros. */
  lemma Shr3(x: bv32, i: bv5)
    ensures Bit32(Shr(x, 3), i) == (i < 29 && Bit32(x, i + 3))
  {
    hide *;
    ShrIs(x, 3);
    Shifted3(x, Shr(x, 3), i);
  }

  lemma Shifted3(x: bv32, r: bv32, i: bv5)
    requires Shifted(x, 3, r)
    ensures Bit32(r, i) == (i < 29 && Bit32(x, i + 3))
  {}

  /** A right shift brings in zeros. */
  lemma Shr10(x: bv32, i: bv5)
    ensures Bit32(Shr(x, 10), i) == (i < 22 && Bit32(x, i + 10))
  {
    hide *;
    ShrIs(x, 10);
    Shifted10(x, Shr(x, 10), i);
  }

  lemma Shifted10(x: bv32, r: bv32, i: bv5)
    requires Shifted(x, 10, r)
    ensures Bit32(r, i) == (i < 22 && Bit32(x, i + 10))
  {}

  lemma XorWord(x: bv32, y: bv32, i: bv5)
    ensures Bit32(Xor(x, y), i) == (Bit32(x, i) != Bit32(y, i))
  {
    var r := Xor(x, y);
    assert r == x ^ y;
    hide *;
    XorLaw32(x, y, r, i);
  }

  /** Right rotations by 2, 13 and 22. */
  lemma BigSigma0Law(x: Word, i: bv5)
    ensures B(BigSigma0(x), i) == Odd(B(x, i + 2), B(x, i + 13), B(x, i + 22))
  {
    hide Bit32, Xor, Rotr, Shr;
    XorWord(Rotr(x.bits, 2), Rotr(x.bits, 13), i);
    XorWord(Xor(Rotr(x.bits, 2), Rotr(x.bits, 13)), Rotr(x.bits, 22), i);
    RotrLaw(x.bits, 2, i);
    RotrLaw(x.bits, 13, i);
    RotrLaw(x.bits, 22, i);
  }

  /** Right rotations by 6, 11 and 25. */
  lemma BigSigma1Law(x: Word, i: bv5)
    ensures B(BigSigma1(x), i) == Odd(B(x, i + 6), B(x, i + 11), B(x, i + 25))
  {
    hide Bit32, Xor, Rotr, Shr;
    XorWord(Rotr(x.bits, 6), Rotr(x.bits, 11), i);
    XorWord(Xor(Rotr(x.bits, 6), Rotr(x.bits, 11)), Rotr(x.bits, 25), i);
    RotrLaw(x.bits, 6, i);
    RotrLaw(x.bits, 11, i);
    RotrLaw(x.bits, 25, i);
  }

  /** Right rotations by 7 and 18 and a right shift by 3. */
  lemma SmallSigma0Law(x: Word, i: bv5)
    ensures B(SmallSigma0(x), i) == Odd(B(x, i + 7), B(x, i + 18), i < 29 && B(x, i + 3))
  {
    hide Bit32, Xor, Rotr, Shr;
    XorWord(Rotr(x.bits, 7), Rotr(x.bits, 18), i);
    XorWord(Xor(Rotr(x.bits, 7), Rotr(x.bits, 18)), Shr(x.bits, 3), i);
    RotrLaw(x.bits, 7, i);
    RotrLaw(x.bits, 18, i);
    Shr3(x.bits, i);
  }

  /** Right rotations by 17 and 19 and a right shift by 10. */
  lemma SmallSigma1Law(x: Word, i: bv5)
    ensures B(SmallSigma1(x), i) == Odd(B(x, i + 17), B(x, i + 19), i < 22 && B(x, i + 10))
  {
    hide Bit32, Xor, Rotr, Shr;
    XorWord(Rotr(x.bits, 17), Rotr(x.bits, 19), i);
    XorWord(Xor(Rotr(x.bits, 17), Rotr(x.bits, 19)), Shr(x.bits, 10), i);
    RotrLaw(x.bits, 17, i);
    RotrLaw(x.bits, 19, i);
    Shr10(x.bits, i);
  }

  // ----------------------------------------------------------------- addition

  /** The carry into place i of a sum in binary. */
  function Carry(x: Word, y: Word, i: bv5): bool
    decreases i
  {
    i != 0 && Majority(B(x, i - 1), B(y, i - 1), Carry(x, y, i - 1))
  }

  /** Addition is binary addition with carries; what leaves the top place is lost. */
  lemma AddLaw(x: Word, y: Word, i: bv5)
    ensures B(Add(x, y), i) == Odd(B(x, i), B(y, i), Carry(x, y, i))
  {
    hide Bit32, Plus, CarryWord;
    CarryIs(x, y, i);
    SumBit(x.bits, y.bits, i);
  }

  /** All carries at once. */
  function CarryWord(x: bv32, y: bv32): bv32 {
    Xor(Xor(Plus(x, y), x), y)
  }

  lemma SumBit(x: bv32, y: bv32, i: bv5)
    ensures Bit32(Plus(x, y), i) == Odd(Bit32(x, i), Bit32(y, i), Bit32(CarryWord(x, y), i))
  {
    hide Bit32, Xor, Plus;
    XorWord(Plus(x, y), x, i);
    XorWord(Xor(Plus(x, y), x), y, i);
  }

  lemma {:induction false} CarryIs(x: Word, y: Word, i: bv5)
    ensures Carry(x, y, i) == Bit32(CarryWord(x.bits, y.bits), i)
    decreases i
  {
    hide Bit32, CarryWord, Carries;
    var c := CarryWord(x.bits, y.bits);
    CarriesOf(x.bits, y.bits);
    if i == 0 {
      NoCarryIn(x.bits, y.bits, c);
    } else {
      CarryIs(x, y, i - 1);
      CarryStep(x.bits, y.bits, c, i);
    }
  }

  /** c is the word of carries of x + y. */
  predicate Carries(x: bv32, y: bv32, c: bv32) {
    c == Xor(Xor(Plus(x, y), x), y)
  }

  lemma CarriesOf(x: bv32, y: bv32)
    ensures Carries(x, y, CarryWord(x, y))
  {
    hide Xor, Plus;
  }

  lemma NoCarryIn(x: bv32, y: bv32, c: bv32)
    requires Carries(x, y, c)
    ensures !Bit32(c, 0)
  {}

  lemma CarryStep(x: bv32, y: bv32, c: bv32, i: bv5)
    requires i > 0 && Carries(x, y, c)
    ensures Bit32(c, i) == Majority(Bit32(x, i - 1), Bit32(y, i - 1), Bit32(c, i - 1))
  {}

  // ---------------------------------------------------------------- loading bytes

  /** The bytes of a word, most significant first. */
  lemma LoadLaw(b: seq<bv8>, at: nat, j: bv3)
    requires at + 4 <= |b|
    ensures B(LoadWord(b, at), j as bv5 + 24) == Bit8(b[at], j)
    ensures B(LoadWord(b, at), j as bv5 + 16) == Bit8(b[at + 1], j)
    ensures B(LoadWord(b, at), j as bv5 + 8) == Bit8(b[at + 2], j)
    ensures B(LoadWord(b, at), j as bv5) == Bit8(b[at + 3], j)
  {}
}
