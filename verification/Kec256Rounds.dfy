/** The out-of-place rounds of `kec256::absorb`, on a 5 by 5 array indexed [x][y]. */
module Kec256Rounds {
  import opened Keccak
  import Sha3Rounds

  /** The state as FIPS 202 orders it. */
  ghost function Flat(a: array2<Lane>): State
    requires a.Length0 == 5 && a.Length1 == 5
    reads a
  {
    seq(25, i requires 0 <= i < 25 reads a => a[X(i), Y(i)])
  }

  /** Lanes with x' < x, or with x' == x and y' < y: those the nested loops have passed. */
  ghost predicate Passed(i: nat, x: nat, y: nat)
    requires i < 25
  {
    X(i) < x || (X(i) == x && Y(i) < y)
  }

  lemma LaneIndex(x: nat, y: nat)
    requires x < 5 && y < 5
    ensures X(x + 5 * y) == x && Y(x + 5 * y) == y
  {}

  // ------------------------------------------------------------------ theta

  function PartialColumn(s: State, x: nat, y: nat): Lane
    requires x < 5 && y <= 5
  {
    if y == 0 then ZERO else Xor(PartialColumn(s, x, y - 1), s[x + 5 * (y - 1)])
  }

  lemma PartialColumnEnds(s: State, x: nat)
    requires x < 5
    ensures PartialColumn(s, x, 5) == Column(s, x)
  {
    hide Xor;
    assert PartialColumn(s, x, 2) == Xor(PartialColumn(s, x, 1), s[x + 5]);
    assert PartialColumn(s, x, 4) == Xor(Xor(PartialColumn(s, x, 2), s[x + 10]), s[x + 15]);
    XorZero(s[x]);
  }

  method Columns(a: array2<Lane>) returns (c: array<Lane>)
    requires a.Length0 == 5 && a.Length1 == 5
    ensures fresh(c) && c.Length == 5
    ensures forall x | 0 <= x < 5 :: c[x] == Column(Flat(a), x)
  {
    hide Xor, Column, PartialColumn;
    c := new Lane[5](_ => ZERO);
    ghost var s := Flat(a);
    for x := 0 to 5
      invariant Flat(a) == s
      invariant forall k | 0 <= k < x :: c[k] == Column(s, k)
      invariant forall k | x <= k < 5 :: c[k] == ZERO
    {
      PartialStarts(s, x);
      for y := 0 to 5
        invariant Flat(a) == s
        invariant forall k | 0 <= k < x :: c[k] == Column(s, k)
        invariant forall k | x < k < 5 :: c[k] == ZERO
        invariant c[x] == PartialColumn(s, x, y)
      {
        LaneIndex(x, y);
        PartialNext(s, x, y);
        assert s[x + 5 * y] == a[x, y];
        c[x] := Xor(c[x], a[x, y]);
      }
      PartialColumnEnds(s, x);
    }
  }

  lemma PartialStarts(s: State, x: nat)
    requires x < 5
    ensures PartialColumn(s, x, 0) == ZERO
  {}

  lemma PartialNext(s: State, x: nat, y: nat)
    requires x < 5 && y < 5
    ensures PartialColumn(s, x, y + 1) == Xor(PartialColumn(s, x, y), s[x + 5 * y])
  {}

  method ThetaStep(a: array2<Lane>)
    requires a.Length0 == 5 && a.Length1 == 5
    modifies a
    ensures Flat(a) == Theta(old(Flat(a)))
  {
    hide Xor, Rotl, Column, ThetaEffect;
    ghost var s := Flat(a);
    var c := Columns(a);
    for x := 0 to 5
      invariant forall k | 0 <= k < 5 :: c[k] == Column(s, k)
      invariant forall i | 0 <= i < 25 :: a[X(i), Y(i)] == if X(i) < x then ThetaLane(s, i) else s[i]
    {
      var d := Xor(c[(x + 4) % 5], Rotl(c[(x + 1) % 5], 1));
      EffectOf(s, x);
      for y := 0 to 5
        invariant forall k | 0 <= k < 5 :: c[k] == Column(s, k)
        invariant forall i | 0 <= i < 25 :: a[X(i), Y(i)] == if Passed(i, x, y) then ThetaLane(s, i) else s[i]
      {
        LaneIndex(x, y);
        assert a[x, y] == s[x + 5 * y];
        a[x, y] := Xor(a[x, y], d);
      }
    }
  }

  lemma EffectOf(s: State, x: nat)
    requires x < 5
    ensures ThetaEffect(s, x) == Xor(Column(s, (x + 4) % 5), Rotl(Column(s, (x + 1) % 5), 1))
  {
    hide Xor, Rotl;
  }

  // ------------------------------------------------------------ rho and pi

  /** `ROTATION[x][y]`. */
  function Rotation(x: nat, y: nat): bv6 {
    match x
    case 0 => (match y case 0 => 0 case 1 => 36 case 2 => 3 case 3 => 41 case _ => 18)
    case 1 => (match y case 0 => 1 case 1 => 44 case 2 => 10 case 3 => 45 case _ => 2)
    case 2 => (match y case 0 => 62 case 1 => 6 case 2 => 43 case 3 => 15 case _ => 61)
    case 3 => (match y case 0 => 28 case 1 => 55 case 2 => 25 case 3 => 21 case _ => 56)
    case _ => (match y case 0 => 27 case 1 => 20 case 2 => 39 case 3 => 8 case _ => 14)
  }

  /** Where rho and pi move the lane at index j. */
  function Target(j: nat): nat {
    match j
    case 0 => 0 case 1 => 10 case 2 => 20 case 3 => 5 case 4 => 15
    case 5 => 16 case 6 => 1 case 7 => 11 case 8 => 21 case 9 => 6
    case 10 => 7 case 11 => 17 case 12 => 2 case 13 => 12 case 14 => 22
    case 15 => 23 case 16 => 8 case 17 => 18 case 18 => 3 case 19 => 13
    case 20 => 14 case 21 => 24 case 22 => 9 case 23 => 19 case _ => 4
  }

  lemma TargetOfSource(i: nat)
    requires i < 25
    ensures Target(Source(i)) == i
  {}

  lemma TargetOf(x: nat, y: nat)
    requires x < 5 && y < 5
    ensures var i := y + 5 * ((x * 2 + y * 3) % 5);
      i < 25 && Source(i) == x + 5 * y && X(i) == y && Y(i) == (x * 2 + y * 3) % 5
    ensures Rotation(x, y) == Offset(x + 5 * y)
  {
    RotationIsOffset(x, y);
    hide Rotation, Offset;
    PlaneOf(x, y);
    SourceOf(x, y);
  }

  /** The plane that pi gives lane (x, y), without division. */
  function Plane(x: nat, y: nat): nat
    requires x < 5 && y < 5
  {
    match x
    case 0 => (match y case 0 => 0 case 1 => 3 case 2 => 1 case 3 => 4 case _ => 2)
    case 1 => (match y case 0 => 2 case 1 => 0 case 2 => 3 case 3 => 1 case _ => 4)
    case 2 => (match y case 0 => 4 case 1 => 2 case 2 => 0 case 3 => 3 case _ => 1)
    case 3 => (match y case 0 => 1 case 1 => 4 case 2 => 2 case 3 => 0 case _ => 3)
    case _ => (match y case 0 => 3 case 1 => 1 case 2 => 4 case 3 => 2 case _ => 0)
  }

  lemma PlaneOf(x: nat, y: nat)
    requires x < 5 && y < 5
    ensures Plane(x, y) == (x * 2 + y * 3) % 5
  {}

  lemma SourceOf(x: nat, y: nat)
    requires x < 5 && y < 5
    ensures var m := Plane(x, y); Source(y + 5 * m) == x + 5 * y && X(y + 5 * m) == y && Y(y + 5 * m) == m
  {}

  lemma RotationIsOffset(x: nat, y: nat)
    requires x < 5 && y < 5
    ensures Rotation(x, y) == Offset(x + 5 * y)
  {}

  /** The targets of the lanes passed so far hold their final values. */
  ghost predicate Moved(s: State, b: State, x: nat, y: nat) {
    forall i | 0 <= i < 25 && Passed(Source(i), x, y) :: b[i] == Pi(Rho(s))[i]
  }

  lemma MoveLane(s: State, b: State, x: nat, y: nat, t: nat)
    requires x < 5 && y < 5 && t == y + 5 * ((x * 2 + y * 3) % 5) && t < 25
    requires Moved(s, b, x, y)
    ensures Moved(s, b[t := Rotl(s[x + 5 * y], Rotation(x, y))], x, y + 1)
  {
    hide Rotl, Source, Offset, Rotation, Pi, Rho, X, Y;
    TargetOf(x, y);
    RhoPiLane(s, t);
    forall i | 0 <= i < 25 && i != t && Passed(Source(i), x, y + 1) ensures Passed(Source(i), x, y) {
      TargetOfSource(i);
      TargetOfSource(t);
      if X(Source(i)) == x && Y(Source(i)) == y {
        IndexOfCoordinates(Source(i));
      }
    }
  }

  lemma IndexOfCoordinates(i: nat)
    requires i < 25
    ensures i == X(i) + 5 * Y(i)
  {}

  lemma NextRow(s: State, b: State, x: nat)
    requires Moved(s, b, x, 5)
    ensures Moved(s, b, x + 1, 0)
  {}

  lemma NothingMoved(s: State, b: State)
    ensures Moved(s, b, 0, 0)
  {}

  lemma AllMoved(s: State, b: State)
    requires Moved(s, b, 5, 0)
    ensures b == Pi(Rho(s))
  {
    hide Source, Pi, Rho;
  }

  method RhoPiStep(a: array2<Lane>) returns (b: array2<Lane>)
    requires a.Length0 == 5 && a.Length1 == 5
    ensures fresh(b) && b.Length0 == 5 && b.Length1 == 5
    ensures Flat(b) == Pi(Rho(Flat(a)))
  {
    hide Rotl, Rotation, Pi, Rho, Moved;
    ghost var s := Flat(a);
    b := new Lane[5, 5]((_, _) => ZERO);
    NothingMoved(s, Flat(b));
    for x := 0 to 5
      invariant Flat(a) == s && Moved(s, Flat(b), x, 0)
    {
      for y := 0 to 5
        invariant Flat(a) == s && Moved(s, Flat(b), x, y)
      {
        ghost var f := Flat(b);
        ghost var t := y + 5 * ((x * 2 + y * 3) % 5);
        MoveLane(s, f, x, y, t);
        b[y, (x * 2 + y * 3) % 5] := Rotl(a[x, y], Rotation(x, y));
        WrittenLane(s, a, x, y);
        assert Flat(b) == f[t := Rotl(s[x + 5 * y], Rotation(x, y))] by {
          LaneIndex(y, (x * 2 + y * 3) % 5);
        }
      }
      NextRow(s, Flat(b), x);
    }
    AllMoved(s, Flat(b));
  }

  lemma WrittenLane(s: State, a: array2<Lane>, x: nat, y: nat)
    requires a.Length0 == 5 && a.Length1 == 5 && s == Flat(a) && x < 5 && y < 5
    ensures s[x + 5 * y] == a[x, y]
  {
    LaneIndex(x, y);
  }

  // -------------------------------------------------------------------- chi

  method ChiStep(b: array2<Lane>, a: array2<Lane>)
    requires a.Length0 == 5 && a.Length1 == 5 && b.Length0 == 5 && b.Length1 == 5 && a != b
    modifies a
    ensures Flat(a) == Chi(Flat(b))
  {
    hide Xor, AndNot, ChiLane;
    ghost var t := Flat(b);
    for x := 0 to 5
      invariant Flat(b) == t
      invariant forall i | 0 <= i < 25 && X(i) < x :: a[X(i), Y(i)] == ChiLane(t, i)
    {
      for y := 0 to 5
        invariant Flat(b) == t
        invariant forall i | 0 <= i < 25 && Passed(i, x, y) :: a[X(i), Y(i)] == ChiLane(t, i)
      {
        ChiLaneOf(b, x, y);
        a[x, y] := Xor(b[x, y], AndNot(b[(x + 1) % 5, y], b[(x + 2) % 5, y]));
      }
    }
  }

  lemma ChiLaneOf(b: array2<Lane>, x: nat, y: nat)
    requires b.Length0 == 5 && b.Length1 == 5 && x < 5 && y < 5
    ensures ChiLane(Flat(b), x + 5 * y) == Xor(b[x, y], AndNot(b[(x + 1) % 5, y], b[(x + 2) % 5, y]))
    ensures X(x + 5 * y) == x && Y(x + 5 * y) == y
  {
    hide Xor, AndNot;
  }

  // ------------------------------------------------------------------- iota

  /** (1 << j) - 1. */
  function Power(j: nat): (n: nat)
    ensures n < 64
  {
    match j
    case 0 => 0 case 1 => 1 case 2 => 3 case 3 => 7 case 4 => 15 case 5 => 31 case _ => 63
  }

  /** `static_cast<uint64_t>(r & 1) << ((1 << j) - 1)`. */
  function Feed(r: bv8, j: nat): Lane {
    Lane((r & 1) as bv64 << Power(j))
  }

  lemma FeedIsPicked(r: bv8, j: nat)
    requires j < 7
    ensures Feed(r, j) == Picked(r, j)
  {}

  method IotaStep(a: array2<Lane>, i: nat, r0: bv8) returns (r: bv8)
    requires a.Length0 == 5 && a.Length1 == 5 && r0 == LfsrAt(7 * i)
    modifies a
    ensures Flat(a) == Iota(old(Flat(a)), i) && r == LfsrAt(7 * i + 7)
  {
    hide Xor, Lfsr, Feed, AddTerms, Term;
    ghost var s := Flat(a);
    r := r0;
    TermsStart(s[0], i);
    for j := 0 to 7
      invariant Flat(a) == s[0 := AddTerms(s[0], i, j)]
      invariant r == LfsrAt(7 * i + j)
    {
      TermsNext(s[0], i, j);
      FeedIsPicked(r, j);
      TermIsPicked(i, j);
      ghost var f := Flat(a);
      assert f[0] == a[0, 0];
      a[0, 0] := Xor(a[0, 0], Feed(r, j));
      assert Flat(a) == f[0 := Xor(f[0], Feed(r, j))];
      r := Lfsr(r);
    }
    AddTermsIsXor(s[0], i, 7);
  }

  lemma TermsStart(a: Lane, i: nat)
    ensures AddTerms(a, i, 0) == a
  {}

  lemma TermsNext(a: Lane, i: nat, j: nat)
    ensures AddTerms(a, i, j + 1) == Xor(AddTerms(a, i, j), Term(i, j))
  {}

  // ----------------------------------------------------------- all 24 rounds

  /** `kec256::absorb` is the permutation of FIPS 202. */
  method Absorb(a: array2<Lane>)
    requires a.Length0 == 5 && a.Length1 == 5
    modifies a
    ensures Flat(a) == Permute(old(Flat(a)))
  {
    hide Theta, Rho, Pi, Chi, Iota, LfsrAt;
    ghost var s := Flat(a);
    var r: bv8 := 1;
    RegisterStarts();
    for i := 0 to 24
      invariant Flat(a) == Rounds(s, i)
      invariant r == LfsrAt(7 * i)
    {
      ThetaStep(a);
      var b := RhoPiStep(a);
      ChiStep(b, a);
      r := IotaStep(a, i, r);
    }
  }

  lemma RegisterStarts()
    ensures LfsrAt(0) == 1
  {}

  /** The two implementations, started on equal states, end in equal states. */
  method PermuteBoth(h: array<Lane>, a: array2<Lane>)
    requires h.Length == 25 && a.Length0 == 5 && a.Length1 == 5 && Flat(a) == h[..]
    modifies h, a
    ensures Flat(a) == h[..]
  {
    hide Permute;
    Sha3Rounds.PermuteInPlace(h);
    Absorb(a);
  }
}
