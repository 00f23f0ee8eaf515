/** The unrolled, in-place rounds of `SHA3::processBlock`. */
module Sha3Rounds {
  import opened Keccak

  // ------------------------------------------------------------------ theta

  /** `mod5`: x % 5 for 0 <= x <= 9. */
  function Mod5(x: nat): nat {
    if x < 5 then x else x - 5
  }

  method Columns(h: array<Lane>) returns (coefficients: array<Lane>)
    requires h.Length == 25
    ensures fresh(coefficients) && coefficients.Length == 5
    ensures forall x | 0 <= x < 5 :: coefficients[x] == Column(h[..], x)
  {
    hide Xor, Column;
    coefficients := new Lane[5](_ => ZERO);
    for i := 0 to 5
      invariant forall x | 0 <= x < i :: coefficients[x] == Column(h[..], x)
    {
      ColumnOf(h[..], i);
      coefficients[i] := Xor(Xor(Xor(Xor(h[i], h[i + 5]), h[i + 10]), h[i + 15]), h[i + 20]);
    }
  }

  method AddToColumn(h: array<Lane>, i: nat, one: Lane)
    requires h.Length == 25 && i < 5
    modifies h
    ensures forall k | 0 <= k < 25 && X(k) == i :: h[k] == Xor(old(h[k]), one)
    ensures forall k | 0 <= k < 25 && X(k) != i :: h[k] == old(h[k])
  {
    hide Xor;
    h[i] := Xor(h[i], one);
    h[i + 5] := Xor(h[i + 5], one);
    h[i + 10] := Xor(h[i + 10], one);
    h[i + 15] := Xor(h[i + 15], one);
    h[i + 20] := Xor(h[i + 20], one);
  }

  method ThetaInPlace(h: array<Lane>)
    requires h.Length == 25
    modifies h
    ensures h[..] == Theta(old(h[..]))
  {
    hide Xor, Rotl, ThetaLane, Column, X;
    ghost var s: State := h[..];
    var coefficients := Columns(h);
    for i := 0 to 5
      invariant forall x | 0 <= x < 5 :: coefficients[x] == Column(s, x)
      invariant forall k | 0 <= k < 25 :: h[k] == if X(k) < i then ThetaLane(s, k) else s[k]
    {
      var one := Xor(coefficients[Mod5(i + 4)], Rotl(coefficients[Mod5(i + 1)], 1));
      forall k | 0 <= k < 25 && X(k) == i ensures ThetaLane(s, k) == Xor(s[k], one) {
        ThetaColumn(s, i, k);
      }
      AddToColumn(h, i, one);
    }
  }

  lemma ColumnOf(s: State, i: nat)
    requires i < 5
    ensures Column(s, i) == Xor(Xor(Xor(Xor(s[i], s[i + 5]), s[i + 10]), s[i + 15]), s[i + 20])
  {
    hide Xor;
  }

  lemma ThetaColumn(s: State, x: nat, i: nat)
    requires i < 25 && x == X(i)
    ensures ThetaLane(s, i) == Xor(s[i], Xor(Column(s, Mod5(x + 4)), Rotl(Column(s, Mod5(x + 1)), 1)))
  {
    hide Xor, Rotl, Column, X, Mod5;
    EffectOf(s, x);
  }

  lemma EffectOf(s: State, x: nat)
    requires x < 5
    ensures ThetaEffect(s, x) == Xor(Column(s, Mod5(x + 4)), Rotl(Column(s, Mod5(x + 1)), 1))
  {
    hide Xor, Rotl;
  }

  // ------------------------------------------------------------ rho and pi

  /** The step of the unrolled cycle that writes lane i; lane 0 is never written. */
  function StepOf(i: nat): nat {
    match i
    case 0 => 24 case 1 => 23 case 2 => 17 case 3 => 5 case 4 => 11
    case 5 => 6 case 6 => 22 case 7 => 1 case 8 => 8 case 9 => 21
    case 10 => 0 case 11 => 2 case 12 => 16 case 13 => 15 case 14 => 19
    case 15 => 12 case 16 => 7 case 17 => 3 case 18 => 4 case 19 => 14
    case 20 => 18 case 21 => 9 case 22 => 20 case 23 => 13 case _ => 10
  }

  function LaneOf(t: nat): nat {
    match t
    case 0 => 10 case 1 => 7 case 2 => 11 case 3 => 17 case 4 => 18
    case 5 => 3 case 6 => 5 case 7 => 16 case 8 => 8 case 9 => 21
    case 10 => 24 case 11 => 4 case 12 => 15 case 13 => 23 case 14 => 19
    case 15 => 13 case 16 => 12 case 17 => 2 case 18 => 20 case 19 => 14
    case 20 => 22 case 21 => 9 case 22 => 6 case 23 => 1 case _ => 0
  }

  lemma StepsAreDistinct(i: nat)
    requires i < 25
    ensures LaneOf(StepOf(i)) == i
  {}

  /** After t steps of the cycle the lanes it has written hold their final values. */
  ghost predicate Cycled(s: State, h: State, t: nat) {
    forall i | 0 <= i < 25 :: h[i] == if StepOf(i) < t then Rotl(s[Source(i)], Offset(Source(i))) else s[i]
  }

  /** Step t of the cycle moves lane j to lane i, rotated by n. */
  ghost predicate Move(t: nat, i: nat, j: nat, n: bv6) {
    i < 25 && j < 25 && StepOf(i) == t && Source(i) == j && Offset(j) == n
  }

  lemma Moves0()
    ensures Move(0, 10, 1, 1) && Move(1, 7, 10, 3) && Move(2, 11, 7, 6) && Move(3, 17, 11, 10)
    ensures Move(4, 18, 17, 15) && Move(5, 3, 18, 21) && Move(6, 5, 3, 28) && Move(7, 16, 5, 36)
  {}

  lemma Moves8()
    ensures Move(8, 8, 16, 45) && Move(9, 21, 8, 55) && Move(10, 24, 21, 2) && Move(11, 4, 24, 14)
    ensures Move(12, 15, 4, 27) && Move(13, 23, 15, 41) && Move(14, 19, 23, 56) && Move(15, 13, 19, 8)
  {}

  lemma Moves16()
    ensures Move(16, 12, 13, 25) && Move(17, 2, 12, 43) && Move(18, 20, 2, 62) && Move(19, 14, 20, 18)
    ensures Move(20, 22, 14, 39) && Move(21, 9, 22, 61) && Move(22, 6, 9, 20) && Move(23, 1, 6, 44)
  {}

  method CarryLane(h: array<Lane>, ghost s: State, ghost t: nat, i: nat, ghost j: nat,
                   n: bv6, last: Lane)
    returns (next: Lane)
    requires h.Length == 25 && i < 25 && j < 25
    requires Cycled(s, h[..], t)
    requires Move(t, i, j, n) && last == s[j]
    modifies h
    ensures Cycled(s, h[..], t + 1)
    ensures next == s[i]
  {
    hide Rotl, Offset, Source, StepOf, LaneOf;
    next := h[i];
    h[i] := Rotl(last, n);
    forall k | 0 <= k < 25
      ensures h[k] == if StepOf(k) < t + 1 then Rotl(s[Source(k)], Offset(Source(k))) else s[k]
    {
      StepsAreDistinct(k);
      StepsAreDistinct(i);
    }
  }

  method RhoPi(h: array<Lane>)
    requires h.Length == 25
    modifies h
    ensures h[..] == Pi(Rho(old(h[..])))
  {
    hide *;
    ghost var s := h[..];
    CycleStarts(s);
    Moves0();
    Moves8();
    Moves16();
    var last := h[1];
    last := CarryLane(h, s, 0, 10, 1, 1, last);
    last := CarryLane(h, s, 1, 7, 10, 3, last);
    last := CarryLane(h, s, 2, 11, 7, 6, last);
    last := CarryLane(h, s, 3, 17, 11, 10, last);
    last := CarryLane(h, s, 4, 18, 17, 15, last);
    last := CarryLane(h, s, 5, 3, 18, 21, last);
    last := CarryLane(h, s, 6, 5, 3, 28, last);
    last := CarryLane(h, s, 7, 16, 5, 36, last);
    last := CarryLane(h, s, 8, 8, 16, 45, last);
    last := CarryLane(h, s, 9, 21, 8, 55, last);
    last := CarryLane(h, s, 10, 24, 21, 2, last);
    last := CarryLane(h, s, 11, 4, 24, 14, last);
    last := CarryLane(h, s, 12, 15, 4, 27, last);
    last := CarryLane(h, s, 13, 23, 15, 41, last);
    last := CarryLane(h, s, 14, 19, 23, 56, last);
    last := CarryLane(h, s, 15, 13, 19, 8, last);
    last := CarryLane(h, s, 16, 12, 13, 25, last);
    last := CarryLane(h, s, 17, 2, 12, 43, last);
    last := CarryLane(h, s, 18, 20, 2, 62, last);
    last := CarryLane(h, s, 19, 14, 20, 18, last);
    last := CarryLane(h, s, 20, 22, 14, 39, last);
    last := CarryLane(h, s, 21, 9, 22, 61, last);
    last := CarryLane(h, s, 22, 6, 9, 20, last);
    last := CarryLane(h, s, 23, 1, 6, 44, last);
    CycleEnds(s, h[..]);
  }

  lemma CycleStarts(s: State)
    ensures Cycled(s, s, 0)
  {}

  lemma CycleEnds(s: State, h: State)
    requires Cycled(s, h, 24)
    ensures h == Pi(Rho(s))
  {
    hide Rotl, Pi, Rho;
    forall i | 0 <= i < 25 ensures h[i] == Pi(Rho(s))[i] {
      RhoPiLane(s, i);
      if i == 0 { RotlZero(s[0]); }
    }
  }

  // -------------------------------------------------------------------- chi

  method ChiInPlace(h: array<Lane>)
    requires h.Length == 25
    modifies h
    ensures h[..] == Chi(old(h[..]))
  {
    hide ChiLane, Xor, AndNot;
    ghost var s: State := h[..];
    var j := 0;
    ghost var y := 0;
    while j < 25
      invariant j == 5 * y && y <= 5
      invariant forall k | 0 <= k < 25 :: h[k] == if k < j then ChiLane(s, k) else s[k]
    {
      ChiPlane(s, y);
      ChiRow(h, j);
      j := j + 5;
      y := y + 1;
    }
    assert h[..] == Chi(s);
  }

  /** The body of the loop: one plane of five lanes. */
  method ChiRow(h: array<Lane>, j: nat)
    requires j + 5 <= h.Length
    modifies h
    ensures h[j] == Xor(old(h[j]), AndNot(old(h[j + 1]), old(h[j + 2])))
    ensures h[j + 1] == Xor(old(h[j + 1]), AndNot(old(h[j + 2]), old(h[j + 3])))
    ensures h[j + 2] == Xor(old(h[j + 2]), AndNot(old(h[j + 3]), old(h[j + 4])))
    ensures h[j + 3] == Xor(old(h[j + 3]), AndNot(old(h[j + 4]), old(h[j])))
    ensures h[j + 4] == Xor(old(h[j + 4]), AndNot(old(h[j]), old(h[j + 1])))
    ensures forall k | 0 <= k < h.Length && (k < j || j + 5 <= k) :: h[k] == old(h[k])
  {
    hide Xor, AndNot;
    var one := h[j];
    var two := h[j + 1];
    h[j] := Xor(h[j], AndNot(two, h[j + 2]));
    h[j + 1] := Xor(h[j + 1], AndNot(h[j + 2], h[j + 3]));
    h[j + 2] := Xor(h[j + 2], AndNot(h[j + 3], h[j + 4]));
    h[j + 3] := Xor(h[j + 3], AndNot(h[j + 4], one));
    h[j + 4] := Xor(h[j + 4], AndNot(one, two));
  }

  lemma ChiPlane(s: State, y: nat)
    requires y < 5
    ensures var j := 5 * y;
      && ChiLane(s, j) == Xor(s[j], AndNot(s[j + 1], s[j + 2]))
      && ChiLane(s, j + 1) == Xor(s[j + 1], AndNot(s[j + 2], s[j + 3]))
      && ChiLane(s, j + 2) == Xor(s[j + 2], AndNot(s[j + 3], s[j + 4]))
      && ChiLane(s, j + 3) == Xor(s[j + 3], AndNot(s[j + 4], s[j]))
      && ChiLane(s, j + 4) == Xor(s[j + 4], AndNot(s[j], s[j + 1]))
  {
    hide Xor, AndNot;
  }

  // ----------------------------------------------------------- all 24 rounds

  /** The rounds of `processBlock` are the permutation of FIPS 202. */
  method PermuteInPlace(h: array<Lane>)
    requires h.Length == 25
    modifies h
    ensures h[..] == Permute(old(h[..]))
  {
    hide Theta, Rho, Pi, Chi, Xor, XorMask, RoundConstant;
    ghost var s: State := h[..];
    for i := 0 to 24
      invariant h[..] == Rounds(s, i)
    {
      ThetaInPlace(h);
      RhoPi(h);
      ChiInPlace(h);
      MaskIsRoundConstant(i);
      h[0] := Xor(h[0], XorMask(i));
      assert h[..] == Round(Rounds(s, i), i);
    }
  }
}
