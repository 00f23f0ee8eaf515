/** Keccak-f[1600] bit by bit, as section 3.2 of FIPS 202 writes it, and the proof that the lanes
    compute it. */
module KeccakBits {
  import opened Bits
  import opened Keccak

  // ------------------------------------------------------------ lane operations

  /** Bit z of a lane. */
  function B(lane: Lane, z: bv6): bool {
    Bit64(lane.bits, z)
  }

  lemma XorBit(x: Lane, y: Lane, z: bv6)
    ensures B(Xor(x, y), z) == (B(x, z) != B(y, z))
  {
    hide Bit64, XorBits;
    XorWord(x.bits, y.bits, z);
  }

  lemma XorWord(x: bv64, y: bv64, z: bv6)
    ensures Bit64(XorBits(x, y), z) == (Bit64(x, z) != Bit64(y, z))
  {
    var r := XorBits(x, y);
    assert r == x ^ y;
    hide *;
    XorLaw(x, y, r, z);
  }

  lemma AndNotBit(x: Lane, y: Lane, z: bv6)
    ensures B(AndNot(x, y), z) == (!B(x, z) && B(y, z))
  {
    hide Bit64, AndNotBits;
    AndNotWord(x.bits, y.bits, z);
  }

  lemma AndNotWord(x: bv64, y: bv64, z: bv6)
    ensures Bit64(AndNotBits(x, y), z) == (!Bit64(x, z) && Bit64(y, z))
  {
    var r := AndNotBits(x, y);
    assert r == !x & y;
    hide *;
    AndNotLaw(x, y, r, z);
  }

  /** Rotating left by n moves the bit at z - n to z. */
  lemma RotlBit(x: Lane, n: bv6, z: bv6)
    ensures B(Rotl(x, n), z) == B(x, z - n)
  {
    hide Bit64, RotlBits;
    RotlWord(x.bits, n, z);
  }

  lemma RotlWord(x: bv64, n: bv6, z: bv6)
    ensures Bit64(RotlBits(x, n), z) == Bit64(x, z - n)
  {
    RotlIs(x, n);
    hide *;
    if n == 0 {
      assert z - n == z;
    } else {
      RotateLaw(x, n, z, RotlBits(x, n));
    }
  }

  lemma RotlIs(x: bv64, n: bv6)
    ensures if n == 0 then RotlBits(x, n) == x else Rotated(x, n, RotlBits(x, n))
  {}

  // ------------------------------------------------- the step mappings on bits

  /** A state array: the bit A[x, y, z].  Positions z are taken modulo 64. */
  type Cube = (nat, nat, bv6) -> bool

  function C(a: Cube, x: nat, z: bv6): bool {
    (((a(x, 0, z) != a(x, 1, z)) != a(x, 2, z)) != a(x, 3, z)) != a(x, 4, z)
  }

  function D(a: Cube, x: nat, z: bv6): bool {
    C(a, (x + 4) % 5, z) != C(a, (x + 1) % 5, z - 1)
  }

  function ThetaCube(a: Cube): Cube {
    (x: nat, y: nat, z: bv6) => a(x, y, z) != D(a, x, z)
  }

  function RhoCube(a: Cube): Cube {
    (x: nat, y: nat, z: bv6) => a(x, y, z - Offset(x + 5 * y))
  }

  function PiCube(a: Cube): Cube {
    (x: nat, y: nat, z: bv6) => a((x + 3 * y) % 5, x, z)
  }

  function ChiCube(a: Cube): Cube {
    (x: nat, y: nat, z: bv6) => a(x, y, z) != (!a((x + 1) % 5, y, z) && a((x + 2) % 5, y, z))
  }

  /** Bit z of the round constant: position 2^j - 1 holds rc(j + 7i). */
  function RC(i: nat, z: bv6): bool {
    || (z == 0 && Register(7 * i)[0]) || (z == 1 && Register(7 * i + 1)[0])
    || (z == 3 && Register(7 * i + 2)[0]) || (z == 7 && Register(7 * i + 3)[0])
    || (z == 15 && Register(7 * i + 4)[0]) || (z == 31 && Register(7 * i + 5)[0])
    || (z == 63 && Register(7 * i + 6)[0])
  }

  function IotaCube(a: Cube, i: nat): Cube {
    (x: nat, y: nat, z: bv6) => a(x, y, z) != (x == 0 && y == 0 && RC(i, z))
  }

  function RoundCube(a: Cube, i: nat): Cube {
    IotaCube(ChiCube(PiCube(RhoCube(ThetaCube(a)))), i)
  }

  function RoundsCube(a: Cube, k: nat): Cube {
    if k == 0 then a else RoundCube(RoundsCube(a, k - 1), k - 1)
  }

  // ------------------------------------------------------ the lanes compute them

  /** Lane x + 5y holds the bits A[x, y, 0] to A[x, y, 63]. */
  ghost predicate Agree(s: State, a: Cube) {
    forall x: nat, y: nat, z: bv6 | x < 5 && y < 5 :: a(x, y, z) == B(s[x + 5 * y], z)
  }

  lemma ColumnBits(s: State, a: Cube, x: nat, z: bv6)
    requires Agree(s, a) && x < 5
    ensures C(a, x, z) == B(Column(s, x), z)
  {
    hide B, Xor;
    var l0, l1, l2, l3, l4 := s[x], s[x + 5], s[x + 10], s[x + 15], s[x + 20];
    assert a(x, 0, z) == B(l0, z) && a(x, 1, z) == B(l1, z) && a(x, 2, z) == B(l2, z)
      && a(x, 3, z) == B(l3, z) && a(x, 4, z) == B(l4, z);
    XorBit(l0, l1, z);
    XorBit(Xor(l0, l1), l2, z);
    XorBit(Xor(Xor(l0, l1), l2), l3, z);
    XorBit(Xor(Xor(Xor(l0, l1), l2), l3), l4, z);
  }

  lemma ThetaBits(s: State, a: Cube)
    requires Agree(s, a)
    ensures Agree(Theta(s), ThetaCube(a))
  {
    hide B, Xor, Rotl, Column, C;
    forall x: nat, y: nat, z: bv6 | x < 5 && y < 5 ensures ThetaCube(a)(x, y, z) == B(Theta(s)[x + 5 * y], z) {
      var c, d := Column(s, (x + 4) % 5), Column(s, (x + 1) % 5);
      EffectLanes(s, x, y);
      ColumnBits(s, a, (x + 4) % 5, z);
      ColumnBits(s, a, (x + 1) % 5, z - 1);
      RotlBit(d, 1, z);
      XorBit(c, Rotl(d, 1), z);
      XorBit(s[x + 5 * y], Xor(c, Rotl(d, 1)), z);
    }
  }

  lemma EffectLanes(s: State, x: nat, y: nat)
    requires x < 5 && y < 5
    ensures Theta(s)[x + 5 * y] == Xor(s[x + 5 * y], Xor(Column(s, (x + 4) % 5), Rotl(Column(s, (x + 1) % 5), 1)))
  {
    Coordinates(x, y);
    ColumnAround(s, x + 4, (x + 4) % 5);
    ColumnAround(s, x + 1, (x + 1) % 5);
    hide Xor, Rotl, X, Y, Column;
  }

  lemma ColumnAround(s: State, x: nat, m: nat)
    requires x < 10 && m == x % 5
    ensures Column(s, x) == Column(s, m)
  {
    CoordinatesAreDivMod(x);
    CoordinatesAreDivMod(m);
    hide Xor, X, Y;
  }

  lemma RhoBits(s: State, a: Cube)
    requires Agree(s, a)
    ensures Agree(Rho(s), RhoCube(a))
  {
    hide B, Rotl, Offset;
    forall x: nat, y: nat, z: bv6 | x < 5 && y < 5 ensures RhoCube(a)(x, y, z) == B(Rho(s)[x + 5 * y], z) {
      RotlBit(s[x + 5 * y], Offset(x + 5 * y), z);
    }
  }

  lemma AgreeAt(s: State, a: Cube, x: nat, y: nat, z: bv6)
    requires Agree(s, a) && x < 5 && y < 5
    ensures a(x, y, z) == B(s[x + 5 * y], z)
  {}

  lemma PiBit(s: State, a: Cube, x: nat, y: nat, z: bv6)
    requires Agree(s, a) && x < 5 && y < 5
    ensures PiCube(a)(x, y, z) == B(Pi(s)[x + 5 * y], z)
  {
    hide B, Pi, Agree, PiCube;
    var m := PiCubeAt(a, x, y, z);
    PiLane(s, x, y, m);
    AgreeAt(s, a, m, x, z);
  }

  lemma PiCubeAt(a: Cube, x: nat, y: nat, z: bv6) returns (m: nat)
    ensures m == (x + 3 * y) % 5 && m < 5 && PiCube(a)(x, y, z) == a(m, x, z)
  {
    m := (x + 3 * y) % 5;
  }

  lemma PiBits(s: State, a: Cube)
    requires Agree(s, a)
    ensures Agree(Pi(s), PiCube(a))
  {
    hide B, Pi, PiCube;
    forall x: nat, y: nat, z: bv6 | x < 5 && y < 5 ensures PiCube(a)(x, y, z) == B(Pi(s)[x + 5 * y], z) {
      PiBit(s, a, x, y, z);
    }
  }

  lemma PiLane(s: State, x: nat, y: nat, m: nat)
    requires x < 5 && y < 5 && m == (x + 3 * y) % 5
    ensures Pi(s)[x + 5 * y] == s[m + 5 * x]
  {
    Coordinates(x, y);
    CoordinatesAreDivMod(x + 3 * y);
    hide X, Y;
  }

  lemma Coordinates(x: nat, y: nat)
    requires x < 5 && y < 5
    ensures X(x + 5 * y) == x && Y(x + 5 * y) == y
  {}

  lemma ChiBit(s: State, a: Cube, x: nat, y: nat, z: bv6)
    requires Agree(s, a) && x < 5 && y < 5
    ensures ChiCube(a)(x, y, z) == B(Chi(s)[x + 5 * y], z)
  {
    hide B, Xor, AndNot, Chi, Agree, ChiCube;
    var x1, x2 := ChiCubeAt(a, x, y, z);
    var k, l, m := s[x + 5 * y], s[x1 + 5 * y], s[x2 + 5 * y];
    ChiLanes(s, x, y, x1, x2);
    AndNotBit(l, m, z);
    XorBit(k, AndNot(l, m), z);
    AgreeAt(s, a, x, y, z);
    AgreeAt(s, a, x1, y, z);
    AgreeAt(s, a, x2, y, z);
  }

  lemma ChiCubeAt(a: Cube, x: nat, y: nat, z: bv6) returns (x1: nat, x2: nat)
    ensures x1 == (x + 1) % 5 && x1 < 5 && x2 == (x + 2) % 5 && x2 < 5
    ensures ChiCube(a)(x, y, z) == (a(x, y, z) != (!a(x1, y, z) && a(x2, y, z)))
  {
    x1, x2 := (x + 1) % 5, (x + 2) % 5;
  }

  lemma ChiBits(s: State, a: Cube)
    requires Agree(s, a)
    ensures Agree(Chi(s), ChiCube(a))
  {
    hide B, Chi, ChiCube;
    forall x: nat, y: nat, z: bv6 | x < 5 && y < 5 ensures ChiCube(a)(x, y, z) == B(Chi(s)[x + 5 * y], z) {
      ChiBit(s, a, x, y, z);
    }
  }

  lemma ChiLanes(s: State, x: nat, y: nat, x1: nat, x2: nat)
    requires x < 5 && y < 5 && x1 == (x + 1) % 5 && x2 == (x + 2) % 5
    ensures Chi(s)[x + 5 * y] == Xor(s[x + 5 * y], AndNot(s[x1 + 5 * y], s[x2 + 5 * y]))
  {
    ChiNeighbours(s, x, y);
    hide Xor, AndNot, X, Y;
    Around(x + 1, x1);
    Around(x + 2, x2);
  }

  lemma ChiNeighbours(s: State, x: nat, y: nat)
    requires x < 5 && y < 5
    ensures Chi(s)[x + 5 * y] == Xor(s[x + 5 * y], AndNot(At(s, x + 1, y), At(s, x + 2, y)))
  {
    Coordinates(x, y);
    hide Xor, AndNot, X, Y, At;
  }

  lemma Around(x: nat, m: nat)
    requires x < 10 && m == x % 5
    ensures X(x) == m
  {}

  lemma IotaBits(s: State, a: Cube, i: nat)
    requires Agree(s, a)
    ensures Agree(Iota(s, i), IotaCube(a, i))
  {
    hide B, Xor, RoundConstant, RC;
    forall x: nat, y: nat, z: bv6 | x < 5 && y < 5 ensures IotaCube(a, i)(x, y, z) == B(Iota(s, i)[x + 5 * y], z) {
      ConstantBits(i, z);
      XorBit(s[0], RoundConstant(i), z);
    }
  }

  lemma SingleBit(j: nat, z: bv6)
    ensures B(Single(j), z) == match j case 0 => z == 0 case 1 => z == 1 case 2 => z == 3 case 3 => z == 7
                                 case 4 => z == 15 case 5 => z == 31 case _ => z == 63
    ensures !B(ZERO, z)
  {}

  lemma TermBit(i: nat, j: nat, z: bv6)
    ensures B(Term(i, j), z) == (B(Single(j), z) && Register(7 * i + j)[0])
  {
    hide B, Single, Register;
    SingleBit(j, z);
  }

  lemma ConstantBits(i: nat, z: bv6)
    ensures RC(i, z) == B(RoundConstant(i), z)
  {
    hide B, Xor, Term, Single, Register;
    SingleBit(0, z);
    AddTermBit(i, 0, z);
    AddTermBit(i, 1, z);
    AddTermBit(i, 2, z);
    AddTermBit(i, 3, z);
    AddTermBit(i, 4, z);
    AddTermBit(i, 5, z);
    AddTermBit(i, 6, z);
  }

  lemma AddTermBit(i: nat, j: nat, z: bv6)
    ensures B(AddTerms(ZERO, i, j + 1), z) == (B(AddTerms(ZERO, i, j), z) != (B(Single(j), z) && Register(7 * i + j)[0]))
    ensures B(Single(j), z) == match j case 0 => z == 0 case 1 => z == 1 case 2 => z == 3 case 3 => z == 7
                                 case 4 => z == 15 case 5 => z == 31 case _ => z == 63
    ensures AddTerms(ZERO, i, 0) == ZERO
  {
    hide B, Xor, Term, Single, Register;
    XorBit(AddTerms(ZERO, i, j), Term(i, j), z);
    TermBit(i, j, z);
    SingleBit(j, z);
  }

  lemma RoundBits(s: State, a: Cube, i: nat)
    requires Agree(s, a)
    ensures Agree(Round(s, i), RoundCube(a, i))
  {
    hide *;
    RoundsNamed(s, a, i);
    ThetaBits(s, a);
    RhoBits(Theta(s), ThetaCube(a));
    PiBits(Rho(Theta(s)), RhoCube(ThetaCube(a)));
    ChiBits(Pi(Rho(Theta(s))), PiCube(RhoCube(ThetaCube(a))));
    IotaBits(Chi(Pi(Rho(Theta(s)))), ChiCube(PiCube(RhoCube(ThetaCube(a)))), i);
  }

  lemma RoundsNamed(s: State, a: Cube, i: nat)
    ensures Round(s, i) == Iota(Chi(Pi(Rho(Theta(s)))), i)
    ensures RoundCube(a, i) == IotaCube(ChiCube(PiCube(RhoCube(ThetaCube(a)))), i)
  {}

  /** The permutation that both implementations compute is the one of FIPS 202 on bits. */
  lemma {:induction false} PermutationBits(s: State, a: Cube, k: nat)
    requires Agree(s, a)
    ensures Agree(Rounds(s, k), RoundsCube(a, k))
  {
    hide Agree, Round, RoundCube;
    if k > 0 {
      PermutationBits(s, a, k - 1);
      RoundBits(Rounds(s, k - 1), RoundsCube(a, k - 1), k - 1);
    }
  }
}
