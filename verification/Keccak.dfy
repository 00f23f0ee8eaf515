/** The permutation Keccak-f[1600] of FIPS 202, lane by lane.  Both implementations in the
    repository are proved against it. */
module Keccak {

  // ------------------------------------------------------------------ lanes

  /** A 64-bit word. */
  datatype Lane = Lane(bits: bv64)

  const ZERO: Lane := Lane(0)

  function XorBits(x: bv64, y: bv64): bv64 {
    x ^ y
  }

  function Xor(x: Lane, y: Lane): Lane {
    Lane(XorBits(x.bits, y.bits))
  }

  /** The nonlinear part of chi: the complement of x, and y. */
  function AndNot(x: Lane, y: Lane): Lane {
    Lane(AndNotBits(x.bits, y.bits))
  }

  function AndNotBits(x: bv64, y: bv64): bv64 {
    !x & y
  }

  /** `rotateLeft` and `rotl64`.  Rotating by 0 is the identity; in C++ it would shift by 64,
      which is undefined. */
  function Rotl(x: Lane, n: bv6): Lane {
    Lane(RotlBits(x.bits, n))
  }

  function RotlBits(x: bv64, n: bv6): bv64 {
    if n == 0 then x else (x << n) | (x >> (64 - n as bv7))
  }

  lemma RotlZero(x: Lane)
    ensures Rotl(x, 0) == x
  {}

  lemma XorAssociates(x: Lane, y: Lane, z: Lane)
    ensures Xor(Xor(x, y), z) == Xor(x, Xor(y, z))
  {
    XorBitsAssociates(x.bits, y.bits, z.bits);
    hide XorBits;
  }

  lemma XorBitsAssociates(x: bv64, y: bv64, z: bv64)
    ensures XorBits(XorBits(x, y), z) == XorBits(x, XorBits(y, z))
  {
    var xy, yz := XorBits(x, y), XorBits(y, z);
    assert xy == x ^ y && yz == y ^ z;
    hide XorBits;
    XorRegroups(x, y, z, xy, yz);
  }

  lemma XorRegroups(x: bv64, y: bv64, z: bv64, xy: bv64, yz: bv64)
    requires xy == x ^ y && yz == y ^ z
    ensures XorBits(xy, z) == XorBits(x, yz)
  {}

  lemma XorZero(x: Lane)
    ensures Xor(x, ZERO) == x && Xor(ZERO, x) == x
  {}

  // ------------------------------------------------------------------ state

  /** Lane (x, y) is at index x + 5y (section 3.1.2). */
  type State = s: seq<Lane> | |s| == 25 witness seq(25, _ => ZERO)

  const ZERO_STATE: State := seq(25, _ => ZERO)

  /** The coordinates of the lane at index i: X is i % 5 and Y is i / 5, written without division. */
  function X(i: nat): (x: nat)
    requires i < 25
    ensures x < 5
  {
    if i < 5 then i else if i < 10 then i - 5 else if i < 15 then i - 10 else if i < 20 then i - 15 else i - 20
  }

  function Y(i: nat): (y: nat)
    requires i < 25
    ensures y < 5
  {
    if i < 5 then 0 else if i < 10 then 1 else if i < 15 then 2 else if i < 20 then 3 else 4
  }

  lemma CoordinatesAreDivMod(i: nat)
    requires i < 25
    ensures X(i) == i % 5 && Y(i) == i / 5
  {}

  /** The lane (x, y), x taken modulo 5. */
  function At(s: State, x: nat, y: nat): Lane
    requires x < 25 && y < 5
  {
    s[X(x) + 5 * y]
  }

  // -------------------------------------------- step mappings (section 3.2)

  function Column(s: State, x: nat): Lane
    requires x < 25
  {
    Xor(Xor(Xor(Xor(At(s, x, 0), At(s, x, 1)), At(s, x, 2)), At(s, x, 3)), At(s, x, 4))
  }

  function ThetaEffect(s: State, x: nat): Lane
    requires x < 5
  {
    Xor(Column(s, x + 4), Rotl(Column(s, x + 1), 1))
  }

  function ThetaLane(s: State, i: nat): Lane
    requires i < 25
  {
    Xor(s[i], ThetaEffect(s, X(i)))
  }

  function Theta(s: State): State {
    seq(25, i requires 0 <= i < 25 => ThetaLane(s, i))
  }

  /** The rotation offset modulo 64 of the lane at index i (Table 2). */
  function Offset(i: nat): bv6 {
    match i
    case 0 => 0 case 1 => 1 case 2 => 62 case 3 => 28 case 4 => 27
    case 5 => 36 case 6 => 44 case 7 => 6 case 8 => 55 case 9 => 20
    case 10 => 3 case 11 => 10 case 12 => 43 case 13 => 25 case 14 => 39
    case 15 => 41 case 16 => 45 case 17 => 15 case 18 => 21 case 19 => 8
    case 20 => 18 case 21 => 2 case 22 => 61 case 23 => 56 case _ => 14
  }

  function Rho(s: State): State {
    seq(25, i requires 0 <= i < 25 => Rotl(s[i], Offset(i)))
  }

  function Pi(s: State): State {
    seq(25, i requires 0 <= i < 25 => At(s, X(i) + 3 * Y(i), X(i)))
  }

  function ChiLane(s: State, i: nat): Lane
    requires i < 25
  {
    Xor(s[i], AndNot(At(s, X(i) + 1, Y(i)), At(s, X(i) + 2, Y(i))))
  }

  function Chi(s: State): State {
    seq(25, i requires 0 <= i < 25 => ChiLane(s, i))
  }

  /** The register of Algorithm 5 after t steps, as eight bits. */
  function Register(t: nat): (r: seq<bool>)
    ensures |r| == 8
  {
    if t == 0 then [true, false, false, false, false, false, false, false]
    else
      var r := Register(t - 1);
      [r[7], r[0], r[1], r[2], r[3] != r[7], r[4] != r[7], r[5] != r[7], r[6]]
  }

  /** The bit 2^j - 1 of a lane. */
  function Single(j: nat): Lane {
    match j
    case 0 => Lane(0x1) case 1 => Lane(0x2) case 2 => Lane(0x8) case 3 => Lane(0x80)
    case 4 => Lane(0x8000) case 5 => Lane(0x80000000) case _ => Lane(0x8000000000000000)
  }

  function Term(i: nat, j: nat): Lane {
    if Register(7 * i + j)[0] then Single(j) else ZERO
  }

  function AddTerms(a: Lane, i: nat, j: nat): Lane {
    if j == 0 then a else Xor(AddTerms(a, i, j - 1), Term(i, j - 1))
  }

  /** The round constant of round i (Algorithm 6). */
  function RoundConstant(i: nat): Lane {
    AddTerms(ZERO, i, 7)
  }

  function Iota(s: State, i: nat): State {
    s[0 := Xor(s[0], RoundConstant(i))]
  }

  function Round(s: State, i: nat): State {
    Iota(Chi(Pi(Rho(Theta(s)))), i)
  }

  function Rounds(s: State, k: nat): State {
    if k == 0 then s else Round(Rounds(s, k - 1), k - 1)
  }

  function Permute(s: State): State {
    Rounds(s, 24)
  }

  // ------------------------------------------------------ rho and pi together

  /** The lane that rho and pi move to index i. */
  function Source(i: nat): (j: nat)
    ensures j < 25
  {
    match i
    case 0 => 0 case 1 => 6 case 2 => 12 case 3 => 18 case 4 => 24
    case 5 => 3 case 6 => 9 case 7 => 10 case 8 => 16 case 9 => 22
    case 10 => 1 case 11 => 7 case 12 => 13 case 13 => 19 case 14 => 20
    case 15 => 4 case 16 => 5 case 17 => 11 case 18 => 17 case 19 => 23
    case 20 => 2 case 21 => 8 case 22 => 14 case 23 => 15 case _ => 21
  }

  lemma SourceIsPi(i: nat)
    requires i < 25
    ensures Source(i) == X(X(i) + 3 * Y(i)) + 5 * X(i)
  {}

  lemma RhoPiLane(s: State, i: nat)
    requires i < 25
    ensures Pi(Rho(s))[i] == Rotl(s[Source(i)], Offset(Source(i)))
  {
    hide Rotl, Offset, Source;
    SourceIsPi(i);
    hide X, Y;
    assert Pi(Rho(s))[i] == Rho(s)[Source(i)];
  }

  // ------------------------------------- the offsets are those of Algorithm 2

  /** The lane (x, y) and the offset of step t of Algorithm 2. */
  function Walk(t: nat): (nat, nat, nat) {
    if t == 0 then (1, 0, 1)
    else
      var (x, y, n) := Walk(t - 1);
      (y, (2 * x + 3 * y) % 5, (n + t + 1) % 64)
  }

  lemma NextOffset(t: nat, x: nat, y: nat, n: nat)
    requires Walk(t) == (x, y, n)
    ensures Walk(t + 1) == (y, (2 * x + 3 * y) % 5, (n + t + 2) % 64)
  {}

  ghost predicate OffsetAtStep(t: nat) {
    var (x, y, n) := Walk(t);
    x < 5 && y < 5 && Offset(x + 5 * y) as nat == n
  }

  /** The table is what the walk of Algorithm 2 assigns: step t adds t + 1 to the offset. */
  lemma OffsetsFollowTheWalk()
    ensures forall t: nat | t < 24 :: OffsetAtStep(t)
  {
    hide Walk;
    WalkStarts();
    NextOffset(0, 1, 0, 1);
    NextOffset(1, 0, 2, 3);
    NextOffset(2, 2, 1, 6);
    NextOffset(3, 1, 2, 10);
    NextOffset(4, 2, 3, 15);
    NextOffset(5, 3, 3, 21);
    NextOffset(6, 3, 0, 28);
    NextOffset(7, 0, 1, 36);
    NextOffset(8, 1, 3, 45);
    NextOffset(9, 3, 1, 55);
    NextOffset(10, 1, 4, 2);
    NextOffset(11, 4, 4, 14);
    NextOffset(12, 4, 0, 27);
    NextOffset(13, 0, 3, 41);
    NextOffset(14, 3, 4, 56);
    NextOffset(15, 4, 3, 8);
    NextOffset(16, 3, 2, 25);
    NextOffset(17, 2, 2, 43);
    NextOffset(18, 2, 0, 62);
    NextOffset(19, 0, 4, 18);
    NextOffset(20, 4, 2, 39);
    NextOffset(21, 2, 4, 61);
    NextOffset(22, 4, 1, 20);
  }

  lemma WalkStarts()
    ensures Walk(0) == (1, 0, 1)
  {}

  // -------------------------------------------- the feedback register in a byte

  /** The step of `kec256::absorb`: (r << 1) ^ ((r >> 7) * 0x171), cut to eight bits. */
  function Lfsr(r: bv8): bv8 {
    (((r as bv16 << 1) ^ ((r as bv16 >> 7) * 0x171)) & 0xFF) as bv8
  }

  function LfsrAt(t: nat): bv8 {
    if t == 0 then 1 else Lfsr(LfsrAt(t - 1))
  }

  ghost predicate HoldsBits(r: bv8, bits: seq<bool>)
    requires |bits| == 8
  {
    && (bits[0] <==> r & 1 != 0) && (bits[1] <==> r & 2 != 0) && (bits[2] <==> r & 4 != 0)
    && (bits[3] <==> r & 8 != 0) && (bits[4] <==> r & 16 != 0) && (bits[5] <==> r & 32 != 0)
    && (bits[6] <==> r & 64 != 0) && (bits[7] <==> r & 128 != 0)
  }

  /** The byte of `kec256::absorb` is the register of Algorithm 5. */
  lemma {:induction false} LfsrIsRegister(t: nat)
    ensures HoldsBits(LfsrAt(t), Register(t))
  {
    hide Lfsr;
    if t > 0 {
      LfsrIsRegister(t - 1);
      LfsrStepBits(LfsrAt(t - 1), Register(t - 1));
    }
  }

  lemma LfsrStepBits(r: bv8, b: seq<bool>)
    requires |b| == 8 && HoldsBits(r, b)
    ensures HoldsBits(Lfsr(r), [b[7], b[0], b[1], b[2], b[3] != b[7], b[4] != b[7], b[5] != b[7], b[6]])
  {}

  // ------------------------------------------------- the table of constants

  /** `XorMasks` of SHA3. */
  function XorMask(i: nat): Lane {
    match i
    case 0 => Lane(0x0000000000000001) case 1 => Lane(0x0000000000008082) case 2 => Lane(0x800000000000808a)
    case 3 => Lane(0x8000000080008000) case 4 => Lane(0x000000000000808b) case 5 => Lane(0x0000000080000001)
    case 6 => Lane(0x8000000080008081) case 7 => Lane(0x8000000000008009) case 8 => Lane(0x000000000000008a)
    case 9 => Lane(0x0000000000000088) case 10 => Lane(0x0000000080008009) case 11 => Lane(0x000000008000000a)
    case 12 => Lane(0x000000008000808b) case 13 => Lane(0x800000000000008b) case 14 => Lane(0x8000000000008089)
    case 15 => Lane(0x8000000000008003) case 16 => Lane(0x8000000000008002) case 17 => Lane(0x8000000000000080)
    case 18 => Lane(0x000000000000800a) case 19 => Lane(0x800000008000000a) case 20 => Lane(0x8000000080008081)
    case 21 => Lane(0x8000000000008080) case 22 => Lane(0x0000000080000001) case _ => Lane(0x8000000080008008)
  }

  /** The register before round i. */
  function RoundRegister(i: nat): bv8 {
    match i
    case 0 => 0x01 case 1 => 0x80 case 2 => 0xD8 case 3 => 0x1A case 4 => 0xDF case 5 => 0x09 case 6 => 0x35 case 7 => 0x4F
    case 8 => 0xCA case 9 => 0x70 case 10 => 0x41 case 11 => 0xEC case 12 => 0xD5 case 13 => 0xCD case 14 => 0x63 case 15 => 0xAB
    case 16 => 0xAA case 17 => 0x2A case 18 => 0xF2 case 19 => 0xE8 case 20 => 0x37 case 21 => 0x3E case 22 => 0x0B case _ => 0x44
  }

  function Picked(r: bv8, j: nat): Lane {
    if r & 1 != 0 then Single(j) else ZERO
  }

  /** The seven bits that the register r feeds into one round. */
  function Picks(r: bv8): Lane {
    var r1 := Lfsr(r);
    var r2 := Lfsr(r1);
    var r3 := Lfsr(r2);
    var r4 := Lfsr(r3);
    var r5 := Lfsr(r4);
    Xor(Xor(Xor(Xor(Xor(Xor(Xor(ZERO, Picked(r, 0)), Picked(r1, 1)), Picked(r2, 2)), Picked(r3, 3)),
      Picked(r4, 4)), Picked(r5, 5)), Picked(Lfsr(r5), 6))
  }

  function SevenSteps(r: bv8): bv8 {
    Lfsr(Lfsr(Lfsr(Lfsr(Lfsr(Lfsr(Lfsr(r)))))))
  }

  lemma RoundRegisterStep(i: nat)
    requires i < 23
    ensures SevenSteps(RoundRegister(i)) == RoundRegister(i + 1)
  {
    hide SevenSteps;
    StepsOfRegisters();
  }

  lemma StepsOfRegisters()
    ensures SevenSteps(0x01) == 0x80 && SevenSteps(0x80) == 0xD8 && SevenSteps(0xD8) == 0x1A && SevenSteps(0x1A) == 0xDF
    ensures SevenSteps(0xDF) == 0x09 && SevenSteps(0x09) == 0x35 && SevenSteps(0x35) == 0x4F && SevenSteps(0x4F) == 0xCA
    ensures SevenSteps(0xCA) == 0x70 && SevenSteps(0x70) == 0x41 && SevenSteps(0x41) == 0xEC && SevenSteps(0xEC) == 0xD5
    ensures SevenSteps(0xD5) == 0xCD && SevenSteps(0xCD) == 0x63 && SevenSteps(0x63) == 0xAB && SevenSteps(0xAB) == 0xAA
    ensures SevenSteps(0xAA) == 0x2A && SevenSteps(0x2A) == 0xF2 && SevenSteps(0xF2) == 0xE8 && SevenSteps(0xE8) == 0x37
    ensures SevenSteps(0x37) == 0x3E && SevenSteps(0x3E) == 0x0B && SevenSteps(0x0B) == 0x44
  {}

  lemma RoundRegisterPicks(i: nat)
    requires i < 24
    ensures Picks(RoundRegister(i)) == XorMask(i)
  {
    hide Picks;
    PicksOfRegisters0();
    PicksOfRegisters6();
    PicksOfRegisters12();
    PicksOfRegisters18();
  }

  lemma PicksOfRegisters0()
    ensures Picks(0x01) == Lane(0x0000000000000001) && Picks(0x80) == Lane(0x0000000000008082)
    ensures Picks(0xD8) == Lane(0x800000000000808a) && Picks(0x1A) == Lane(0x8000000080008000)
    ensures Picks(0xDF) == Lane(0x000000000000808b) && Picks(0x09) == Lane(0x0000000080000001)
  {}

  lemma PicksOfRegisters6()
    ensures Picks(0x35) == Lane(0x8000000080008081) && Picks(0x4F) == Lane(0x8000000000008009)
    ensures Picks(0xCA) == Lane(0x000000000000008a) && Picks(0x70) == Lane(0x0000000000000088)
    ensures Picks(0x41) == Lane(0x0000000080008009) && Picks(0xEC) == Lane(0x000000008000000a)
  {}

  lemma PicksOfRegisters12()
    ensures Picks(0xD5) == Lane(0x000000008000808b) && Picks(0xCD) == Lane(0x800000000000008b)
    ensures Picks(0x63) == Lane(0x8000000000008089) && Picks(0xAB) == Lane(0x8000000000008003)
    ensures Picks(0xAA) == Lane(0x8000000000008002) && Picks(0x2A) == Lane(0x8000000000000080)
  {}

  lemma PicksOfRegisters18()
    ensures Picks(0xF2) == Lane(0x000000000000800a) && Picks(0xE8) == Lane(0x800000008000000a)
    ensures Picks(0x37) == Lane(0x8000000080008081) && Picks(0x3E) == Lane(0x8000000000008080)
    ensures Picks(0x0B) == Lane(0x0000000080000001) && Picks(0x44) == Lane(0x8000000080008008)
  {}

  lemma {:induction false} RoundRegisterIs(i: nat)
    requires i < 24
    ensures LfsrAt(7 * i) == RoundRegister(i)
  {
    hide Lfsr, RoundRegister;
    if i == 0 {
      StartRegister();
    } else {
      RoundRegisterIs(i - 1);
      RoundRegisterStep(i - 1);
      var t := 7 * (i - 1);
      assert LfsrAt(t + 1) == Lfsr(LfsrAt(t));
      assert LfsrAt(t + 2) == Lfsr(LfsrAt(t + 1));
      assert LfsrAt(t + 3) == Lfsr(LfsrAt(t + 2));
      assert LfsrAt(t + 4) == Lfsr(LfsrAt(t + 3));
      assert LfsrAt(t + 5) == Lfsr(LfsrAt(t + 4));
      assert LfsrAt(t + 6) == Lfsr(LfsrAt(t + 5));
      assert LfsrAt(t + 7) == Lfsr(LfsrAt(t + 6));
    }
  }

  lemma StartRegister()
    ensures RoundRegister(0) == 1
  {}

  lemma TermIsPicked(i: nat, j: nat)
    ensures Term(i, j) == Picked(LfsrAt(7 * i + j), j)
  {
    hide LfsrAt, Register, Single;
    LfsrIsRegister(7 * i + j);
  }

  /** Every entry of the table is the round constant of Algorithm 6. */
  lemma MaskIsRoundConstant(i: nat)
    requires i < 24
    ensures RoundConstant(i) == XorMask(i)
  {
    hide Lfsr, Picked, RoundRegister, XorMask, Xor, Term;
    RoundRegisterIs(i);
    RoundRegisterPicks(i);
    var t := 7 * i;
    assert LfsrAt(t + 1) == Lfsr(LfsrAt(t));
    assert LfsrAt(t + 2) == Lfsr(LfsrAt(t + 1));
    assert LfsrAt(t + 3) == Lfsr(LfsrAt(t + 2));
    assert LfsrAt(t + 4) == Lfsr(LfsrAt(t + 3));
    assert LfsrAt(t + 5) == Lfsr(LfsrAt(t + 4));
    assert LfsrAt(t + 6) == Lfsr(LfsrAt(t + 5));
    forall j: nat | j < 7 ensures Term(i, j) == Picked(LfsrAt(t + j), j) { TermIsPicked(i, j); }
    assert AddTerms(ZERO, i, 1) == Xor(ZERO, Term(i, 0));
    assert AddTerms(ZERO, i, 2) == Xor(AddTerms(ZERO, i, 1), Term(i, 1));
    assert AddTerms(ZERO, i, 3) == Xor(AddTerms(ZERO, i, 2), Term(i, 2));
    assert AddTerms(ZERO, i, 4) == Xor(AddTerms(ZERO, i, 3), Term(i, 3));
    assert AddTerms(ZERO, i, 5) == Xor(AddTerms(ZERO, i, 4), Term(i, 4));
    assert AddTerms(ZERO, i, 6) == Xor(AddTerms(ZERO, i, 5), Term(i, 5));
    assert AddTerms(ZERO, i, 7) == Picks(LfsrAt(t));
  }

  lemma {:induction false} AddTermsIsXor(a: Lane, i: nat, j: nat)
    ensures AddTerms(a, i, j) == Xor(a, AddTerms(ZERO, i, j))
  {
    hide Xor, Term;
    if j == 0 {
      XorZero(a);
    } else {
      AddTermsIsXor(a, i, j - 1);
      XorAssociates(a, AddTerms(ZERO, i, j - 1), Term(i, j - 1));
    }
  }
}
