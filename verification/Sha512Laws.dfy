/** What the constants and functions of SHA-512 are, said without the tables and expressions that
    the specification and the code share. */
module Sha512Laws {
  import opened Bits
  import opened Primes
  import opened Sha512Rounds

  const UNIT: nat := 0x1_0000_0000_0000_0000

  // ----------------------------------------------------------------- constants

  ghost predicate ConstantLaw(t: nat) {
    CubeRootFraction(Prime(t), UNIT, K(t).bits as nat)
  }

  lemma Constants0()
    ensures ConstantLaw(0) && ConstantLaw(1) && ConstantLaw(2) && ConstantLaw(3)
  {}

  lemma Constants4()
    ensures ConstantLaw(4) && ConstantLaw(5) && ConstantLaw(6) && ConstantLaw(7)
  {}

  lemma Constants8()
    ensures ConstantLaw(8) && ConstantLaw(9) && ConstantLaw(10) && ConstantLaw(11)
  {}

  lemma Constants12()
    ensures ConstantLaw(12) && ConstantLaw(13) && ConstantLaw(14) && ConstantLaw(15)
  {}

  lemma Constants16()
    ensures ConstantLaw(16) && ConstantLaw(17) && ConstantLaw(18) && ConstantLaw(19)
  {}

  lemma Constants20()
    ensures ConstantLaw(20) && ConstantLaw(21) && ConstantLaw(22) && ConstantLaw(23)
  {}

  lemma Constants24()
    ensures ConstantLaw(24) && ConstantLaw(25) && ConstantLaw(26) && ConstantLaw(27)
  {}

  lemma Constants28()
    ensures ConstantLaw(28) && ConstantLaw(29) && ConstantLaw(30) && ConstantLaw(31)
  {}

  lemma Constants32()
    ensures ConstantLaw(32) && ConstantLaw(33) && ConstantLaw(34) && ConstantLaw(35)
  {}

  lemma Constants36()
    ensures ConstantLaw(36) && ConstantLaw(37) && ConstantLaw(38) && ConstantLaw(39)
  {}

  lemma Constants40()
    ensures ConstantLaw(40) && ConstantLaw(41) && ConstantLaw(42) && ConstantLaw(43)
  {}

  lemma Constants44()
    ensures ConstantLaw(44) && ConstantLaw(45) && ConstantLaw(46) && ConstantLaw(47)
  {}

  lemma Constants48()
    ensures ConstantLaw(48) && ConstantLaw(49) && ConstantLaw(50) && ConstantLaw(51)
  {}

  lemma Constants52()
    ensures ConstantLaw(52) && ConstantLaw(53) && ConstantLaw(54) && ConstantLaw(55)
  {}

  lemma Constants56()
    ensures ConstantLaw(56) && ConstantLaw(57) && ConstantLaw(58) && ConstantLaw(59)
  {}

  lemma Constants60()
    ensures ConstantLaw(60) && ConstantLaw(61) && ConstantLaw(62) && ConstantLaw(63)
  {}

  lemma Constants64()
    ensures ConstantLaw(64) && ConstantLaw(65) && ConstantLaw(66) && ConstantLaw(67)
  {}

  lemma Constants68()
    ensures ConstantLaw(68) && ConstantLaw(69) && ConstantLaw(70) && ConstantLaw(71)
  {}

  lemma Constants72()
    ensures ConstantLaw(72) && ConstantLaw(73) && ConstantLaw(74) && ConstantLaw(75)
  {}

  lemma Constants76()
    ensures ConstantLaw(76) && ConstantLaw(77) && ConstantLaw(78) && ConstantLaw(79)
  {}

  lemma AnyConstant(t: nat)
    requires t < 80
    ensures ConstantLaw(t)
  {
    hide ConstantLaw;
    if t < 4 { Constants0(); }
    else if t < 8 { Constants4(); }
    else if t < 12 { Constants8(); }
    else if t < 16 { Constants12(); }
    else if t < 20 { Constants16(); }
    else if t < 24 { Constants20(); }
    else if t < 28 { Constants24(); }
    else if t < 32 { Constants28(); }
    else if t < 36 { Constants32(); }
    else if t < 40 { Constants36(); }
    else if t < 44 { Constants40(); }
    else if t < 48 { Constants44(); }
    else if t < 52 { Constants48(); }
    else if t < 56 { Constants52(); }
    else if t < 60 { Constants56(); }
    else if t < 64 { Constants60(); }
    else if t < 68 { Constants64(); }
    else if t < 72 { Constants68(); }
    else if t < 76 { Constants72(); }
    else { Constants76(); }
  }

  /** Each round constant is the first 64 bits of the fractional part of the cube root of its prime. */
  lemma RoundConstants(t: nat)
    requires t < 80
    ensures CubeRootFraction(Prime(t), UNIT, K(t).bits as nat)
  {
    AnyConstant(t);
    hide CubeRootFraction, K, Prime;
  }

  /** The initial hash value: the square roots of the first eight primes. */
  lemma InitialHashValue()
    ensures SquareRootFraction(Prime(0), UNIT, INITIAL.a.bits as nat) && SquareRootFraction(Prime(1), UNIT, INITIAL.b.bits as nat)
    ensures SquareRootFraction(Prime(2), UNIT, INITIAL.c.bits as nat) && SquareRootFraction(Prime(3), UNIT, INITIAL.d.bits as nat)
    ensures SquareRootFraction(Prime(4), UNIT, INITIAL.e.bits as nat) && SquareRootFraction(Prime(5), UNIT, INITIAL.f.bits as nat)
    ensures SquareRootFraction(Prime(6), UNIT, INITIAL.g.bits as nat) && SquareRootFraction(Prime(7), UNIT, INITIAL.h.bits as nat)
  {}

  // ----------------------------------------------------------------- functions

  /** Bit i of a word. */
  function B(x: Word, i: bv6): bool {
    Bit64(x.bits, i)
  }

  /** x chooses between y and z. */
  lemma ChLaw(x: Word, y: Word, z: Word, i: bv6)
    ensures B(Ch(x, y, z), i) == if B(x, i) then B(y, i) else B(z, i)
  {
    hide Bit64, ChBits;
    ChWord(x.bits, y.bits, z.bits, i);
  }

  lemma ChWord(x: bv64, y: bv64, z: bv64, i: bv6)
    ensures Bit64(ChBits(x, y, z), i) == if Bit64(x, i) then Bit64(y, i) else Bit64(z, i)
  {
    var r := ChBits(x, y, z);
    assert r == (x & y) ^ (!x & z);
    hide *;
    ChExpression(x, y, z, r, i);
  }

  lemma ChExpression(x: bv64, y: bv64, z: bv64, r: bv64, i: bv6)
    requires r == (x & y) ^ (!x & z)
    ensures Bit64(r, i) == if Bit64(x, i) then Bit64(y, i) else Bit64(z, i)
  {}

  /** The majority of three bits. */
  lemma MajLaw(x: Word, y: Word, z: Word, i: bv6)
    ensures B(Maj(x, y, z), i) == Majority(B(x, i), B(y, i), B(z, i))
  {
    hide Bit64, MajBits;
    MajWord(x.bits, y.bits, z.bits, i);
  }

  lemma MajWord(x: bv64, y: bv64, z: bv64, i: bv6)
    ensures Bit64(MajBits(x, y, z), i) == Majority(Bit64(x, i), Bit64(y, i), Bit64(z, i))
  {
    var r := MajBits(x, y, z);
    assert r == (x & y) ^ (x & z) ^ (y & z);
    hide *;
    MajExpression(x, y, z, r, i);
  }

  lemma MajExpression(x: bv64, y: bv64, z: bv64, r: bv64, i: bv6)
    requires r == (x & y) ^ (x & z) ^ (y & z)
    ensures Bit64(r, i) == Majority(Bit64(x, i), Bit64(y, i), Bit64(z, i))
  {}

  /** A right rotation by n takes bit i from i + n; it is a left rotation by 64 - n. */
  lemma RotrFrom(x: bv64, n: bv6, m: bv6, i: bv6, r: bv64)
    requires m == 0 - n && Rotated(x, m, r)
    ensures Bit64(r, i) == Bit64(x, i + n)
  {
    hide Rotated, Bit64;
    RotateLaw(x, m, i, r);
    assert i - m == i + n;
  }

  lemma Rotr1(x: bv64, i: bv6)
    ensures Bit64(Rotr(x, 1), i) == Bit64(x, i + 1)
  {
    hide *;
    Rotated1(x);
    RotrFrom(x, 1, 63, i, Rotr(x, 1));
  }

  lemma Rotated1(x: bv64)
    ensures Rotated(x, 63, Rotr(x, 1))
  {}

  lemma Rotr8(x: bv64, i: bv6)
    ensures Bit64(Rotr(x, 8), i) == Bit64(x, i + 8)
  {
    hide *;
    Rotated8(x);
    RotrFrom(x, 8, 56, i, Rotr(x, 8));
  }

  lemma Rotated8(x: bv64)
    ensures Rotated(x, 56, Rotr(x, 8))
  {}

  lemma Rotr14(x: bv64, i: bv6)
    ensures Bit64(Rotr(x, 14), i) == Bit64(x, i + 14)
  {
    hide *;
    Rotated14(x);
    RotrFrom(x, 14, 50, i, Rotr(x, 14));
  }

  lemma Rotated14(x: bv64)
    ensures Rotated(x, 50, Rotr(x, 14))
  {}

  lemma Rotr18(x: bv64, i: bv6)
    ensures Bit64(Rotr(x, 18), i) == Bit64(x, i + 18)
  {
    hide *;
    Rotated18(x);
    RotrFrom(x, 18, 46, i, Rotr(x, 18));
  }

  lemma Rotated18(x: bv64)
    ensures Rotated(x, 46, Rotr(x, 18))
  {}

  lemma Rotr19(x: bv64, i: bv6)
    ensures Bit64(Rotr(x, 19), i) == Bit64(x, i + 19)
  {
    hide *;
    Rotated19(x);
    RotrFrom(x, 19, 45, i, Rotr(x, 19));
  }

  lemma Rotated19(x: bv64)
    ensures Rotated(x, 45, Rotr(x, 19))
  {}

  lemma Rotr28(x: bv64, i: bv6)
    ensures Bit64(Rotr(x, 28), i) == Bit64(x, i + 28)
  {
    hide *;
    Rotated28(x);
    RotrFrom(x, 28, 36, i, Rotr(x, 28));
  }

  lemma Rotated28(x: bv64)
    ensures Rotated(x, 36, Rotr(x, 28))
  {}

  lemma Rotr34(x: bv64, i: bv6)
    ensures Bit64(Rotr(x, 34), i) == Bit64(x, i + 34)
  {
    hide *;
    Rotated34(x);
    RotrFrom(x, 34, 30, i, Rotr(x, 34));
  }

  lemma Rotated34(x: bv64)
    ensures Rotated(x, 30, Rotr(x, 34))
  {}

  lemma Rotr39(x: bv64, i: bv6)
    ensures Bit64(Rotr(x, 39), i) == Bit64(x, i + 39)
  {
    hide *;
    Rotated39(x);
    RotrFrom(x, 39, 25, i, Rotr(x, 39));
  }

  lemma Rotated39(x: bv64)
    ensures Rotated(x, 25, Rotr(x, 39))
  {}

  lemma Rotr41(x: bv64, i: bv6)
    ensures Bit64(Rotr(x, 41), i) == Bit64(x, i + 41)
  {
    hide *;
    Rotated41(x);
    RotrFrom(x, 41, 23, i, Rotr(x, 41));
  }

  lemma Rotated41(x: bv64)
    ensures Rotated(x, 23, Rotr(x, 41))
  {}

  lemma Rotr61(x: bv64, i: bv6)
    ensures Bit64(Rotr(x, 61), i) == Bit64(x, i + 61)
  {
    hide *;
    Rotated61(x);
    RotrFrom(x, 61, 3, i, Rotr(x, 61));
  }

  lemma Rotated61(x: bv64)
    ensures Rotated(x, 3, Rotr(x, 61))
  {}

  /** r is x shifted right by n. */
  predicate Shifted(x: bv64, n: bv6, r: bv64) {
    r == x >> n
  }

  lemma ShrIs(x: bv64, n: bv6)
    ensures Shifted(x, n, Shr(x, n))
  {}

  /** A right shift brings in zeros. */
  lemma Shr7(x: bv64, i: bv6)
    ensures Bit64(Shr(x, 7), i) == (i < 57 && Bit64(x, i + 7))
  {
    hide *;
    ShrIs(x, 7);
    Shifted7(x, Shr(x, 7), i);
  }

  lemma Shifted7(x: bv64, r: bv64, i: bv6)
    requires Shifted(x, 7, r)
    ensures Bit64(r, i) == (i < 57 && Bit64(x, i + 7))
  {}

  /** A right shift brings in zeros. */
  lemma Shr6(x: bv64, i: bv6)
    ensures Bit64(Shr(x, 6), i) == (i < 58 && Bit64(x, i + 6))
  {
    hide *;
    ShrIs(x, 6);
    Shifted6(x, Shr(x, 6), i);
  }

  lemma Shifted6(x: bv64, r: bv64, i: bv6)
    requires Shifted(x, 6, r)
    ensures Bit64(r, i) == (i < 58 && Bit64(x, i + 6))
  {}

  lemma XorWord(x: bv64, y: bv64, i: bv6)
    ensures Bit64(Xor(x, y), i) == (Bit64(x, i) != Bit64(y, i))
  {
    var r := Xor(x, y);
    assert r == x ^ y;
    hide *;
    XorLaw(x, y, r, i);
  }

  /** Right rotations by 28, 34 and 39. */
  lemma BigSigma0Law(x: Word, i: bv6)
    ensures B(BigSigma0(x), i) == Odd(B(x, i + 28), B(x, i + 34), B(x, i + 39))
  {
    hide Bit64, Xor, Rotr, Shr;
    XorWord(Rotr(x.bits, 28), Rotr(x.bits, 34), i);
    XorWord(Xor(Rotr(x.bits, 28), Rotr(x.bits, 34)), Rotr(x.bits, 39), i);
    Rotr28(x.bits, i);
    Rotr34(x.bits, i);
    Rotr39(x.bits, i);
  }

  /** Right rotations by 14, 18 and 41. */
  lemma BigSigma1Law(x: Word, i: bv6)
    ensures B(BigSigma1(x), i) == Odd(B(x, i + 14), B(x, i + 18), B(x, i + 41))
  {
    hide Bit64, Xor, Rotr, Shr;
    XorWord(Rotr(x.bits, 14), Rotr(x.bits, 18), i);
    XorWord(Xor(Rotr(x.bits, 14), Rotr(x.bits, 18)), Rotr(x.bits, 41), i);
    Rotr14(x.bits, i);
    Rotr18(x.bits, i);
    Rotr41(x.bits, i);
  }

  /** Right rotations by 1 and 8 and a right shift by 7. */
  lemma SmallSigma0Law(x: Word, i: bv6)
    ensures B(SmallSigma0(x), i) == Odd(B(x, i + 1), B(x, i + 8), i < 57 && B(x, i + 7))
  {
    hide Bit64, Xor, Rotr, Shr;
    XorWord(Rotr(x.bits, 1), Rotr(x.bits, 8), i);
    XorWord(Xor(Rotr(x.bits, 1), Rotr(x.bits, 8)), Shr(x.bits, 7), i);
    Rotr1(x.bits, i);
    Rotr8(x.bits, i);
    Shr7(x.bits, i);
  }

  /** Right rotations by 19 and 61 and a right shift by 6. */
  lemma SmallSigma1Law(x: Word, i: bv6)
    ensures B(SmallSigma1(x), i) == Odd(B(x, i + 19), B(x, i + 61), i < 58 && B(x, i + 6))
  {
    hide Bit64, Xor, Rotr, Shr;
    XorWord(Rotr(x.bits, 19), Rotr(x.bits, 61), i);
    XorWord(Xor(Rotr(x.bits, 19), Rotr(x.bits, 61)), Shr(x.bits, 6), i);
    Rotr19(x.bits, i);
    Rotr61(x.bits, i);
    Shr6(x.bits, i);
  }

  // ----------------------------------------------------------------- addition

  /** The carry into place i of a sum in binary. */
  function Carry(x: Word, y: Word, i: bv6): bool
    decreases i
  {
    i != 0 && Majority(B(x, i - 1), B(y, i - 1), Carry(x, y, i - 1))
  }

  /** Addition is binary addition with carries; what leaves the top place is lost. */
  lemma AddLaw(x: Word, y: Word, i: bv6)
    ensures B(Add(x, y), i) == Odd(B(x, i), B(y, i), Carry(x, y, i))
  {
    hide Bit64, Plus, CarryWord;
    CarryIs(x, y, i);
    SumBit(x.bits, y.bits, i);
  }

  /** All carries at once. */
  function CarryWord(x: bv64, y: bv64): bv64 {
    Xor(Xor(Plus(x, y), x), y)
  }

  lemma SumBit(x: bv64, y: bv64, i: bv6)
    ensures Bit64(Plus(x, y), i) == Odd(Bit64(x, i), Bit64(y, i), Bit64(CarryWord(x, y), i))
  {
    hide Bit64, Xor, Plus;
    XorWord(Plus(x, y), x, i);
    XorWord(Xor(Plus(x, y), x), y, i);
  }

  lemma {:induction false} CarryIs(x: Word, y: Word, i: bv6)
    ensures Carry(x, y, i) == Bit64(CarryWord(x.bits, y.bits), i)
    decreases i
  {
    hide Bit64, CarryWord, Carries;
    var c := CarryWord(x.bits, y.bits);
    CarriesOf(x.bits, y.bits);
    if i == 0 {
      NoCarryIn(x.bits, y.bits, c);
    } else {
      CarryIs(x, y, i - 1);
      CarryStep(x.bits, y.bits, c, i);
    }
  }

  /** c is the word of carries of x + y. */
  predicate Carries(x: bv64, y: bv64, c: bv64) {
    c == Xor(Xor(Plus(x, y), x), y)
  }

  lemma CarriesOf(x: bv64, y: bv64)
    ensures Carries(x, y, CarryWord(x, y))
  {
    hide Xor, Plus;
  }

  lemma NoCarryIn(x: bv64, y: bv64, c: bv64)
    requires Carries(x, y, c)
    ensures !Bit64(c, 0)
  {}

  lemma CarryStep(x: bv64, y: bv64, c: bv64, i: bv6)
    requires i > 0 && Carries(x, y, c)
    ensures Bit64(c, i) == Majority(Bit64(x, i - 1), Bit64(y, i - 1), Bit64(c, i - 1))
  {
    hide Carries, Bit64;
    if i < 16 { Carry0(x, y, c, i); }
    else if i < 32 { Carry16(x, y, c, i); }
    else if i < 48 { Carry32(x, y, c, i); }
    else { Carry48(x, y, c, i); }
  }

  lemma Carry0(x: bv64, y: bv64, c: bv64, i: bv6)
    requires 0 < i < 16 && Carries(x, y, c)
    ensures Bit64(c, i) == Majority(Bit64(x, i - 1), Bit64(y, i - 1), Bit64(c, i - 1))
  {}

  lemma Carry16(x: bv64, y: bv64, c: bv64, i: bv6)
    requires 16 <= i < 32 && Carries(x, y, c)
    ensures Bit64(c, i) == Majority(Bit64(x, i - 1), Bit64(y, i - 1), Bit64(c, i - 1))
  {}

  lemma Carry32(x: bv64, y: bv64, c: bv64, i: bv6)
    requires 32 <= i < 48 && Carries(x, y, c)
    ensures Bit64(c, i) == Majority(Bit64(x, i - 1), Bit64(y, i - 1), Bit64(c, i - 1))
  {}

  lemma Carry48(x: bv64, y: bv64, c: bv64, i: bv6)
    requires 48 <= i && Carries(x, y, c)
    ensures Bit64(c, i) == Majority(Bit64(x, i - 1), Bit64(y, i - 1), Bit64(c, i - 1))
  {}

  // ---------------------------------------------------------------- loading bytes

  /** The bytes of a word, most significant first. */
  lemma LoadLaw(b: seq<bv8>, at: nat, j: bv3)
    requires at + 8 <= |b|
    ensures B(LoadWord(b, at), j as bv6 + 56) == Bit8(b[at], j)
    ensures B(LoadWord(b, at), j as bv6 + 48) == Bit8(b[at + 1], j)
    ensures B(LoadWord(b, at), j as bv6 + 40) == Bit8(b[at + 2], j)
    ensures B(LoadWord(b, at), j as bv6 + 32) == Bit8(b[at + 3], j)
    ensures B(LoadWord(b, at), j as bv6 + 24) == Bit8(b[at + 4], j)
    ensures B(LoadWord(b, at), j as bv6 + 16) == Bit8(b[at + 5], j)
    ensures B(LoadWord(b, at), j as bv6 + 8) == Bit8(b[at + 6], j)
    ensures B(LoadWord(b, at), j as bv6) == Bit8(b[at + 7], j)
  {}
}
