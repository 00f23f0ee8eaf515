/** The first eighty primes, and the fractional parts of roots that FIPS 180-4 takes its constants
    from (sections 4.2.2, 4.2.3, 5.3.3 and 5.3.5). */
module Primes {

  function Product(d: nat, e: nat): nat {
    d * e
  }

  ghost predicate IsPrime(n: nat) {
    n >= 2 && forall d, e | d >= 2 && e >= 2 :: Product(d, e) != n
  }

  /** The first eighty primes, in rows of ten. */
  function Prime(t: nat): nat {
    if t < 40 then
      if t < 20 then (if t < 10 then Row0(t) else Row1(t)) else (if t < 30 then Row2(t) else Row3(t))
    else
      if t < 60 then (if t < 50 then Row4(t) else Row5(t)) else (if t < 70 then Row6(t) else Row7(t))
  }

  function Row0(t: nat): nat {
    match t
    case 0 => 2 case 1 => 3 case 2 => 5 case 3 => 7 case 4 => 11
    case 5 => 13 case 6 => 17 case 7 => 19 case 8 => 23 case _ => 29
  }

  function Row1(t: nat): nat {
    match t
    case 10 => 31 case 11 => 37 case 12 => 41 case 13 => 43 case 14 => 47
    case 15 => 53 case 16 => 59 case 17 => 61 case 18 => 67 case _ => 71
  }

  function Row2(t: nat): nat {
    match t
    case 20 => 73 case 21 => 79 case 22 => 83 case 23 => 89 case 24 => 97
    case 25 => 101 case 26 => 103 case 27 => 107 case 28 => 109 case _ => 113
  }

  function Row3(t: nat): nat {
    match t
    case 30 => 127 case 31 => 131 case 32 => 137 case 33 => 139 case 34 => 149
    case 35 => 151 case 36 => 157 case 37 => 163 case 38 => 167 case _ => 173
  }

  function Row4(t: nat): nat {
    match t
    case 40 => 179 case 41 => 181 case 42 => 191 case 43 => 193 case 44 => 197
    case 45 => 199 case 46 => 211 case 47 => 223 case 48 => 227 case _ => 229
  }

  function Row5(t: nat): nat {
    match t
    case 50 => 233 case 51 => 239 case 52 => 241 case 53 => 251 case 54 => 257
    case 55 => 263 case 56 => 269 case 57 => 271 case 58 => 277 case _ => 281
  }

  function Row6(t: nat): nat {
    match t
    case 60 => 283 case 61 => 293 case 62 => 307 case 63 => 311 case 64 => 313
    case 65 => 317 case 66 => 331 case 67 => 337 case 68 => 347 case _ => 349
  }

  function Row7(t: nat): nat {
    match t
    case 70 => 353 case 71 => 359 case 72 => 367 case 73 => 373 case 74 => 379
    case 75 => 383 case 76 => 389 case 77 => 397 case 78 => 401 case _ => 409
  }

  // ----------------------------------------------------------- trial division

  /** No prime divisor up to 19 but itself. */
  predicate Sieved(n: nat) {
    && n >= 2
    && (2 >= n || n % 2 != 0) && (3 >= n || n % 3 != 0) && (5 >= n || n % 5 != 0) && (7 >= n || n % 7 != 0)
    && (11 >= n || n % 11 != 0) && (13 >= n || n % 13 != 0) && (17 >= n || n % 17 != 0) && (19 >= n || n % 19 != 0)
  }

  lemma SievedIsPrime(n: nat)
    requires n < 441
    ensures Sieved(n) <==> IsPrime(n)
  {
    if Sieved(n) {
      forall d: nat, e: nat | d >= 2 && e >= 2 ensures Product(d, e) != n {
        if Product(d, e) == n {
          OneIsSmall(d, e);
          if d <= 20 { NoFactor(n, d, e); } else { NoFactor(n, e, d); }
        }
      }
    } else if n >= 2 {
      var d := Divisor(n);
      assert Product(d, n / d) == n;
    }
  }

  lemma OneIsSmall(d: nat, e: nat)
    requires d * e < 441
    ensures d <= 20 || e <= 20
  {
    if d >= 21 && e >= 21 { Grows(d, e); }
  }

  lemma Grows(d: nat, e: nat)
    requires d >= 21 && e >= 21
    ensures d * e >= 441
  {
    assert d * e >= 21 * e;
  }

  lemma NoFactor(n: nat, d: nat, e: nat)
    requires Sieved(n) && 2 <= d <= 20 && e >= 2
    ensures d * e != n
  {
    var p := PrimeFactor(d);
    var f := d / p * e;
    Rearrange(p, d / p, e);
    AtLeast(p, f - 1);
    if d * e == n {
      SievedAt(n, p);
      Remainder(n, p, f);
    }
  }

  lemma Rearrange(p: nat, q: nat, e: nat)
    requires q >= 1 && e >= 2
    ensures (p * q) * e == p * (q * e) && q * e >= 2
  {
    assert q * e >= e;
  }

  lemma PrimeFactor(d: nat) returns (p: nat)
    requires 2 <= d <= 20
    ensures p in {2, 3, 5, 7, 11, 13, 17, 19} && d == p * (d / p) && d / p >= 1
  {
    p := if d % 2 == 0 then 2 else if d % 3 == 0 then 3 else d;
  }

  lemma SievedAt(n: nat, p: nat)
    requires Sieved(n) && p in {2, 3, 5, 7, 11, 13, 17, 19} && p < n
    ensures n % p != 0
  {}

  lemma Remainder(n: nat, d: nat, e: nat)
    requires d > 0 && n == d * e
    ensures n % d == 0
  {
    var k := e - n / d;
    assert d * k == n % d;
    if k >= 1 { AtLeast(d, k); }
    if k <= -1 { AtLeast(d, -k); }
  }

  lemma AtLeast(d: nat, k: nat)
    requires k >= 1
    ensures d * k >= d
  {}

  lemma Divisor(n: nat) returns (d: nat)
    requires n >= 2 && !Sieved(n)
    ensures d >= 2 && n / d >= 2 && d * (n / d) == n
  {
    d := if 2 < n && n % 2 == 0 then 2
      else if 3 < n && n % 3 == 0 then 3
      else if 5 < n && n % 5 == 0 then 5
      else if 7 < n && n % 7 == 0 then 7
      else if 11 < n && n % 11 == 0 then 11
      else if 13 < n && n % 13 == 0 then 13
      else if 17 < n && n % 17 == 0 then 17
      else 19;
  }

  // -------------------------------------------------------- the first eighty primes

  /** n is in the table. */
  ghost predicate Listed(n: nat) {
    exists t: nat | t < 80 :: Prime(t) == n
  }

  lemma Values0()
    ensures Prime(0) == 2 && Prime(1) == 3 && Prime(2) == 5 && Prime(3) == 7 && Prime(4) == 11
    ensures Prime(5) == 13 && Prime(6) == 17 && Prime(7) == 19 && Prime(8) == 23 && Prime(9) == 29
  {}

  lemma Values1()
    ensures Prime(10) == 31 && Prime(11) == 37 && Prime(12) == 41 && Prime(13) == 43 && Prime(14) == 47
    ensures Prime(15) == 53 && Prime(16) == 59 && Prime(17) == 61 && Prime(18) == 67 && Prime(19) == 71
  {}

  lemma Values2()
    ensures Prime(20) == 73 && Prime(21) == 79 && Prime(22) == 83 && Prime(23) == 89 && Prime(24) == 97
    ensures Prime(25) == 101 && Prime(26) == 103 && Prime(27) == 107 && Prime(28) == 109 && Prime(29) == 113
  {}

  lemma Values3()
    ensures Prime(30) == 127 && Prime(31) == 131 && Prime(32) == 137 && Prime(33) == 139 && Prime(34) == 149
    ensures Prime(35) == 151 && Prime(36) == 157 && Prime(37) == 163 && Prime(38) == 167 && Prime(39) == 173
  {}

  lemma Values4()
    ensures Prime(40) == 179 && Prime(41) == 181 && Prime(42) == 191 && Prime(43) == 193 && Prime(44) == 197
    ensures Prime(45) == 199 && Prime(46) == 211 && Prime(47) == 223 && Prime(48) == 227 && Prime(49) == 229
  {}

  lemma Values5()
    ensures Prime(50) == 233 && Prime(51) == 239 && Prime(52) == 241 && Prime(53) == 251 && Prime(54) == 257
    ensures Prime(55) == 263 && Prime(56) == 269 && Prime(57) == 271 && Prime(58) == 277 && Prime(59) == 281
  {}

  lemma Values6()
    ensures Prime(60) == 283 && Prime(61) == 293 && Prime(62) == 307 && Prime(63) == 311 && Prime(64) == 313
    ensures Prime(65) == 317 && Prime(66) == 331 && Prime(67) == 337 && Prime(68) == 347 && Prime(69) == 349
  {}

  lemma Values7()
    ensures Prime(70) == 353 && Prime(71) == 359 && Prime(72) == 367 && Prime(73) == 373 && Prime(74) == 379
    ensures Prime(75) == 383 && Prime(76) == 389 && Prime(77) == 397 && Prime(78) == 401 && Prime(79) == 409
  {}

  lemma Primes0(n: nat)
    requires 0 <= n < 13 && Sieved(n)
    ensures Listed(n)
  {
    hide Prime;
    assert n % 2 == 1 || n <= 2;
    assert !Sieved(0) && !Sieved(1) && !Sieved(9);
    hide Sieved;
    Values0();
  }

  lemma Primes5(n: nat)
    requires 13 <= n < 31 && Sieved(n)
    ensures Listed(n)
  {
    hide Prime;
    assert n % 2 == 1;
    assert !Sieved(15) && !Sieved(21) && !Sieved(25) && !Sieved(27);
    hide Sieved;
    Values0();
  }

  lemma Primes10(n: nat)
    requires 31 <= n < 53 && Sieved(n)
    ensures Listed(n)
  {
    hide Prime;
    assert n % 2 == 1;
    assert !Sieved(33) && !Sieved(35) && !Sieved(39) && !Sieved(45) && !Sieved(49) && !Sieved(51);
    hide Sieved;
    Values1();
  }

  lemma Primes15(n: nat)
    requires 53 <= n < 73 && Sieved(n)
    ensures Listed(n)
  {
    hide Prime;
    assert n % 2 == 1;
    assert !Sieved(55) && !Sieved(57) && !Sieved(63) && !Sieved(65) && !Sieved(69);
    hide Sieved;
    Values1();
  }

  lemma Primes20(n: nat)
    requires 73 <= n < 101 && Sieved(n)
    ensures Listed(n)
  {
    hide Prime;
    assert n % 2 == 1;
    assert !Sieved(75) && !Sieved(77) && !Sieved(81) && !Sieved(85) && !Sieved(87) && !Sieved(91) && !Sieved(93) && !Sieved(95)
      && !Sieved(99);
    hide Sieved;
    Values2();
  }

  lemma Primes25(n: nat)
    requires 101 <= n < 127 && Sieved(n)
    ensures Listed(n)
  {
    hide Prime;
    assert n % 2 == 1;
    assert !Sieved(105) && !Sieved(111) && !Sieved(115) && !Sieved(117) && !Sieved(119) && !Sieved(121) && !Sieved(123) && !Sieved(125);
    hide Sieved;
    Values2();
  }

  lemma Primes30(n: nat)
    requires 127 <= n < 151 && Sieved(n)
    ensures Listed(n)
  {
    hide Prime;
    assert n % 2 == 1;
    assert !Sieved(129) && !Sieved(133) && !Sieved(135) && !Sieved(141) && !Sieved(143) && !Sieved(145) && !Sieved(147);
    hide Sieved;
    Values3();
  }

  lemma Primes35(n: nat)
    requires 151 <= n < 179 && Sieved(n)
    ensures Listed(n)
  {
    hide Prime;
    assert n % 2 == 1;
    assert !Sieved(153) && !Sieved(155) && !Sieved(159) && !Sieved(161) && !Sieved(165) && !Sieved(169) && !Sieved(171) && !Sieved(175)
      && !Sieved(177);
    hide Sieved;
    Values3();
  }

  lemma Primes40(n: nat)
    requires 179 <= n < 199 && Sieved(n)
    ensures Listed(n)
  {
    hide Prime;
    assert n % 2 == 1;
    assert !Sieved(183) && !Sieved(185) && !Sieved(187) && !Sieved(189) && !Sieved(195);
    hide Sieved;
    Values4();
  }

  lemma Primes45(n: nat)
    requires 199 <= n < 233 && Sieved(n)
    ensures Listed(n)
  {
    hide Prime;
    assert n % 2 == 1;
    assert !Sieved(201) && !Sieved(203) && !Sieved(205) && !Sieved(207) && !Sieved(209) && !Sieved(213) && !Sieved(215) && !Sieved(217)
      && !Sieved(219) && !Sieved(221) && !Sieved(225) && !Sieved(231);
    hide Sieved;
    Values4();
  }

  lemma Primes50(n: nat)
    requires 233 <= n < 263 && Sieved(n)
    ensures Listed(n)
  {
    hide Prime;
    assert n % 2 == 1;
    assert !Sieved(235) && !Sieved(237) && !Sieved(243) && !Sieved(245) && !Sieved(247) && !Sieved(249) && !Sieved(253) && !Sieved(255)
      && !Sieved(259) && !Sieved(261);
    hide Sieved;
    Values5();
  }

  lemma Primes55(n: nat)
    requires 263 <= n < 283 && Sieved(n)
    ensures Listed(n)
  {
    hide Prime;
    assert n % 2 == 1;
    assert !Sieved(265) && !Sieved(267) && !Sieved(273) && !Sieved(275) && !Sieved(279);
    hide Sieved;
    Values5();
  }

  lemma Primes60(n: nat)
    requires 283 <= n < 317 && Sieved(n)
    ensures Listed(n)
  {
    hide Prime;
    assert n % 2 == 1;
    assert !Sieved(285) && !Sieved(287) && !Sieved(289) && !Sieved(291) && !Sieved(295) && !Sieved(297) && !Sieved(299) && !Sieved(301)
      && !Sieved(303) && !Sieved(305) && !Sieved(309) && !Sieved(315);
    hide Sieved;
    Values6();
  }

  lemma Primes65(n: nat)
    requires 317 <= n < 353 && Sieved(n)
    ensures Listed(n)
  {
    hide Prime;
    assert n % 2 == 1;
    assert !Sieved(319) && !Sieved(321) && !Sieved(323) && !Sieved(325) && !Sieved(327) && !Sieved(329) && !Sieved(333) && !Sieved(335)
      && !Sieved(339) && !Sieved(341) && !Sieved(343) && !Sieved(345) && !Sieved(351);
    hide Sieved;
    Values6();
  }

  lemma Primes70(n: nat)
    requires 353 <= n < 383 && Sieved(n)
    ensures Listed(n)
  {
    hide Prime;
    assert n % 2 == 1;
    assert !Sieved(355) && !Sieved(357) && !Sieved(361) && !Sieved(363) && !Sieved(365) && !Sieved(369) && !Sieved(371) && !Sieved(375)
      && !Sieved(377) && !Sieved(381);
    hide Sieved;
    Values7();
  }

  lemma Primes75(n: nat)
    requires 383 <= n < 410 && Sieved(n)
    ensures Listed(n)
  {
    hide Prime;
    assert n % 2 == 1;
    assert !Sieved(385) && !Sieved(387) && !Sieved(391) && !Sieved(393) && !Sieved(395) && !Sieved(399) && !Sieved(403) && !Sieved(405)
      && !Sieved(407);
    hide Sieved;
    Values7();
  }

  lemma TableSieved(t: nat)
    requires t < 80
    ensures Sieved(Prime(t)) && (t < 79 ==> Prime(t) < Prime(t + 1)) && Prime(t) < 410
  {
    hide TableFact;
    if t < 5 { Table0(); }
    else if t < 10 { Table5(); }
    else if t < 15 { Table10(); }
    else if t < 20 { Table15(); }
    else if t < 25 { Table20(); }
    else if t < 30 { Table25(); }
    else if t < 35 { Table30(); }
    else if t < 40 { Table35(); }
    else if t < 45 { Table40(); }
    else if t < 50 { Table45(); }
    else if t < 55 { Table50(); }
    else if t < 60 { Table55(); }
    else if t < 65 { Table60(); }
    else if t < 70 { Table65(); }
    else if t < 75 { Table70(); }
    else { Table75(); }
    TableFactMeans(t);
  }

  ghost predicate TableFact(t: nat) {
    Sieved(Prime(t)) && (t < 79 ==> Prime(t) < Prime(t + 1)) && Prime(t) < 410
  }

  lemma TableFactMeans(t: nat)
    requires TableFact(t)
    ensures Sieved(Prime(t)) && (t < 79 ==> Prime(t) < Prime(t + 1)) && Prime(t) < 410
  {}

  lemma Table0()
    ensures TableFact(0) && TableFact(1) && TableFact(2) && TableFact(3) && TableFact(4)
  {}

  lemma Table5()
    ensures TableFact(5) && TableFact(6) && TableFact(7) && TableFact(8) && TableFact(9)
  {}

  lemma Table10()
    ensures TableFact(10) && TableFact(11) && TableFact(12) && TableFact(13) && TableFact(14)
  {}

  lemma Table15()
    ensures TableFact(15) && TableFact(16) && TableFact(17) && TableFact(18) && TableFact(19)
  {}

  lemma Table20()
    ensures TableFact(20) && TableFact(21) && TableFact(22) && TableFact(23) && TableFact(24)
  {}

  lemma Table25()
    ensures TableFact(25) && TableFact(26) && TableFact(27) && TableFact(28) && TableFact(29)
  {}

  lemma Table30()
    ensures TableFact(30) && TableFact(31) && TableFact(32) && TableFact(33) && TableFact(34)
  {}

  lemma Table35()
    ensures TableFact(35) && TableFact(36) && TableFact(37) && TableFact(38) && TableFact(39)
  {}

  lemma Table40()
    ensures TableFact(40) && TableFact(41) && TableFact(42) && TableFact(43) && TableFact(44)
  {}

  lemma Table45()
    ensures TableFact(45) && TableFact(46) && TableFact(47) && TableFact(48) && TableFact(49)
  {}

  lemma Table50()
    ensures TableFact(50) && TableFact(51) && TableFact(52) && TableFact(53) && TableFact(54)
  {}

  lemma Table55()
    ensures TableFact(55) && TableFact(56) && TableFact(57) && TableFact(58) && TableFact(59)
  {}

  lemma Table60()
    ensures TableFact(60) && TableFact(61) && TableFact(62) && TableFact(63) && TableFact(64)
  {}

  lemma Table65()
    ensures TableFact(65) && TableFact(66) && TableFact(67) && TableFact(68) && TableFact(69)
  {}

  lemma Table70()
    ensures TableFact(70) && TableFact(71) && TableFact(72) && TableFact(73) && TableFact(74)
  {}

  lemma Table75()
    ensures TableFact(75) && TableFact(76) && TableFact(77) && TableFact(78) && TableFact(79)
  {}

  /** The table lists the primes up to 409, in order. */
  lemma PrimesInOrder(n: nat, t: nat)
    requires n < 410 && t < 80
    ensures IsPrime(n) <==> Listed(n)
    ensures t < 79 ==> Prime(t) < Prime(t + 1)
  {
    SievedIsPrime(n);
    TableSieved(t);
    hide Sieved, IsPrime, Prime;
    if Sieved(n) {
      if n < 13 { Primes0(n); }
      else if n < 31 { Primes5(n); }
      else if n < 53 { Primes10(n); }
      else if n < 73 { Primes15(n); }
      else if n < 101 { Primes20(n); }
      else if n < 127 { Primes25(n); }
      else if n < 151 { Primes30(n); }
      else if n < 179 { Primes35(n); }
      else if n < 199 { Primes40(n); }
      else if n < 233 { Primes45(n); }
      else if n < 263 { Primes50(n); }
      else if n < 283 { Primes55(n); }
      else if n < 317 { Primes60(n); }
      else if n < 353 { Primes65(n); }
      else if n < 383 { Primes70(n); }
      else { Primes75(n); }
    }
    if Listed(n) {
      var u: nat :| u < 80 && Prime(u) == n;
      TableSieved(u);
    }
  }

  // ------------------------------------------------------- fractional parts of roots

  function Cube(n: nat): nat {
    n * n * n
  }

  function Square(n: nat): nat {
    n * n
  }

  function CubeRoot(p: nat): nat {
    if p < 8 then 1 else if p < 27 then 2 else if p < 64 then 3 else if p < 125 then 4
    else if p < 216 then 5 else if p < 343 then 6 else 7
  }

  function SquareRoot(p: nat): nat {
    if p < 4 then 1 else if p < 9 then 2 else if p < 16 then 3 else 4
  }

  /** f / unit is the fractional part of the cube root of p, cut off at the last place of the unit. */
  predicate CubeRootFraction(p: nat, unit: nat, f: nat) {
    var n := CubeRoot(p) * unit + f;
    f < unit && Cube(n) <= p * Cube(unit) < Cube(n + 1)
  }

  /** The same for the square root. */
  predicate SquareRootFraction(p: nat, unit: nat, f: nat) {
    var n := SquareRoot(p) * unit + f;
    f < unit && Square(n) <= p * Square(unit) < Square(n + 1)
  }
}
