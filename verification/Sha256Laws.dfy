/** What the standard says of its constants and functions in its own terms: roots of primes, and single bits. */
module Sha256Laws {
  import opened Bytes
  import opened Sha256Spec
  import opened Sha256

  // ----- the first 64 primes -----

  ghost predicate IsPrime(n: nat) {
    n >= 2 && forall d :: 2 <= d < n ==> n % d != 0
  }

  ghost function PrimesBelow(n: nat): nat {
    if n == 0 then 0 else PrimesBelow(n - 1) + if IsPrime(n - 1) then 1 else 0
  }

  /** None of the primes up to 17 divides n, but n itself. */
  predicate Sieved(n: nat) {
    && n >= 2 && (n == 2 || n % 2 != 0) && (n == 3 || n % 3 != 0) && (n == 5 || n % 5 != 0) && (n == 7 || n % 7 != 0)
    && (n == 11 || n % 11 != 0) && (n == 13 || n % 13 != 0) && (n == 17 || n % 17 != 0)
  }

  /** Below 18 * 18 that is enough. */
  lemma PrimeIff(n: nat)
    requires n < 324
    ensures IsPrime(n) <==> Sieved(n)
  {
    if Sieved(n) {
      forall d | 2 <= d < n ensures n % d != 0 { NoDivisor(n, d); }
    } else if n >= 2 {
      assert n % 2 == 0 || n % 3 == 0 || n % 5 == 0 || n % 7 == 0 || n % 11 == 0 || n % 13 == 0 || n % 17 == 0;
    }
  }

  lemma NoDivisor(n: nat, d: nat)
    requires Sieved(n) && n < 324 && 2 <= d < n
    ensures n % d != 0
  {
    if n % d == 0 {
      if d <= 17 {
        NoSmallDivisor(n, d);
      } else {
        Cofactor(n, d);
        NoSmallDivisor(n, n / d);
      }
    }
  }

  lemma MultipleOf(n: nat, a: nat, b: nat)
    requires a > 0 && b > 0 && n % (a * b) == 0
    ensures n % a == 0
  {
    var q := n / (a * b);
    assert n == a * b * q;
    Regrouped(a, b, q);
    ModOf(a, b * q, 0);
  }

  lemma Regrouped(a: nat, b: nat, q: nat)
    ensures a * b * q == a * (b * q)
  {
  }

  lemma Multiples(n: nat)
    ensures (n % 4 == 0 ==> n % 2 == 0) && (n % 6 == 0 ==> n % 2 == 0) && (n % 8 == 0 ==> n % 2 == 0)
    ensures (n % 9 == 0 ==> n % 3 == 0) && (n % 10 == 0 ==> n % 2 == 0) && (n % 12 == 0 ==> n % 2 == 0)
    ensures (n % 14 == 0 ==> n % 2 == 0) && (n % 15 == 0 ==> n % 3 == 0) && (n % 16 == 0 ==> n % 2 == 0)
  {
    if n % 4 == 0 { MultipleOf(n, 2, 2); }
    if n % 6 == 0 { MultipleOf(n, 2, 3); }
    if n % 8 == 0 { MultipleOf(n, 2, 4); }
    if n % 9 == 0 { MultipleOf(n, 3, 3); }
    if n % 10 == 0 { MultipleOf(n, 2, 5); }
    if n % 12 == 0 { MultipleOf(n, 2, 6); }
    if n % 14 == 0 { MultipleOf(n, 2, 7); }
    if n % 15 == 0 { MultipleOf(n, 3, 5); }
    if n % 16 == 0 { MultipleOf(n, 2, 8); }
  }

  lemma NoSmallDivisor(n: nat, d: nat)
    requires Sieved(n) && 2 <= d < n && d <= 17
    ensures n % d != 0
  {
    Multiples(n);
    match d {
      case 2 => case 3 => case 4 => case 5 => case 6 => case 7 => case 8 => case 9 => case 10 => case 11 => case 12 =>
      case 13 => case 14 => case 15 => case 16 => case _ =>
    }
  }

  /** The other factor is small. */
  lemma Cofactor(n: nat, d: nat)
    requires 18 <= d < n < 324 && n % d == 0
    ensures var e := n / d; 2 <= e <= 17 && e < n && n % e == 0
  {
    var e := n / d;
    assert n == d * e;
    if e >= 18 { Products(d, e); }
    ModOf(e, d, 0);
  }

  lemma Products(d: nat, e: nat)
    requires d >= 18 && e >= 18
    ensures d * e >= 324
  {
  }

  const PRIMES: seq<seq<nat>> := [
    [2, 3, 5, 7, 11, 13, 17, 19],
    [23, 29, 31, 37, 41, 43, 47, 53],
    [59, 61, 67, 71, 73, 79, 83, 89],
    [97, 101, 103, 107, 109, 113, 127, 131],
    [137, 139, 149, 151, 157, 163, 167, 173],
    [179, 181, 191, 193, 197, 199, 211, 223],
    [227, 229, 233, 239, 241, 251, 257, 263],
    [269, 271, 277, 281, 283, 293, 307, 311]]

  function Prime(t: nat): nat
    requires t < 64
  {
    PRIMES[t / 8][t % 8]
  }

  /** How many of the numbers from a up to b are primes, by trial. */
  function Found(a: nat, b: nat): nat {
    if b <= a then 0 else Found(a, b - 1) + if Sieved(b - 1) then 1 else 0
  }

  lemma {:induction false} FoundIs(a: nat, b: nat)
    requires a <= b < 325
    ensures PrimesBelow(b) == PrimesBelow(a) + Found(a, b)
  {
    if a < b {
      FoundIs(a, b - 1);
      PrimeIff(b - 1);
    }
  }

  /** The next prime of the table is the next prime. */
  predicate Follows(t: nat)
    requires t < 63
  {
    Prime(t) < Prime(t + 1) && Prime(t + 1) < 324 && Found(Prime(t), Prime(t + 1)) == 1 && Sieved(Prime(t + 1))
  }

  lemma Follows0()
    ensures Follows(0) && Follows(1)
  {
    assert Prime(0) == 2 && Prime(1) == 3 && Prime(2) == 5;
    assert Found(2, 3) == 1 && Sieved(3);
    assert Found(3, 5) == 1 && Sieved(5);
  }

  lemma Follows1()
    ensures Follows(2) && Follows(3)
  {
    assert Prime(2) == 5 && Prime(3) == 7 && Prime(4) == 11;
    assert Found(5, 7) == 1 && Sieved(7);
    assert Found(7, 11) == 1 && Sieved(11);
  }

  lemma Follows2()
    ensures Follows(4) && Follows(5)
  {
    assert Prime(4) == 11 && Prime(5) == 13 && Prime(6) == 17;
    assert Found(11, 13) == 1 && Sieved(13);
    assert Found(13, 17) == 1 && Sieved(17);
  }

  lemma Follows3()
    ensures Follows(6) && Follows(7)
  {
    assert Prime(6) == 17 && Prime(7) == 19 && Prime(8) == 23;
    assert Found(17, 19) == 1 && Sieved(19);
    assert Found(19, 23) == 1 && Sieved(23);
  }

  lemma Follows4()
    ensures Follows(8) && Follows(9)
  {
    assert Prime(8) == 23 && Prime(9) == 29 && Prime(10) == 31;
    assert Found(23, 29) == 1 && Sieved(29);
    assert Found(29, 31) == 1 && Sieved(31);
  }

  lemma Follows5()
    ensures Follows(10) && Follows(11)
  {
    assert Prime(10) == 31 && Prime(11) == 37 && Prime(12) == 41;
    assert Found(31, 37) == 1 && Sieved(37);
    assert Found(37, 41) == 1 && Sieved(41);
  }

  lemma Follows6()
    ensures Follows(12) && Follows(13)
  {
    assert Prime(12) == 41 && Prime(13) == 43 && Prime(14) == 47;
    assert Found(41, 43) == 1 && Sieved(43);
    assert Found(43, 47) == 1 && Sieved(47);
  }

  lemma Follows7()
    ensures Follows(14) && Follows(15)
  {
    assert Prime(14) == 47 && Prime(15) == 53 && Prime(16) == 59;
    assert Found(47, 53) == 1 && Sieved(53);
    assert Found(53, 59) == 1 && Sieved(59);
  }

  lemma Follows8()
    ensures Follows(16) && Follows(17)
  {
    assert Prime(16) == 59 && Prime(17) == 61 && Prime(18) == 67;
    assert Found(59, 61) == 1 && Sieved(61);
    assert Found(61, 67) == 1 && Sieved(67);
  }

  lemma Follows9()
    ensures Follows(18) && Follows(19)
  {
    assert Prime(18) == 67 && Prime(19) == 71 && Prime(20) == 73;
    assert Found(67, 71) == 1 && Sieved(71);
    assert Found(71, 73) == 1 && Sieved(73);
  }

  lemma Follows10()
    ensures Follows(20) && Follows(21)
  {
    assert Prime(20) == 73 && Prime(21) == 79 && Prime(22) == 83;
    assert Found(73, 79) == 1 && Sieved(79);
    assert Found(79, 83) == 1 && Sieved(83);
  }

  lemma Follows11()
    ensures Follows(22) && Follows(23)
  {
    assert Prime(22) == 83 && Prime(23) == 89 && Prime(24) == 97;
    assert Found(83, 89) == 1 && Sieved(89);
    assert Found(89, 97) == 1 && Sieved(97);
  }

  lemma Follows12()
    ensures Follows(24) && Follows(25)
  {
    assert Prime(24) == 97 && Prime(25) == 101 && Prime(26) == 103;
    assert Found(97, 101) == 1 && Sieved(101);
    assert Found(101, 103) == 1 && Sieved(103);
  }

  lemma Follows13()
    ensures Follows(26) && Follows(27)
  {
    assert Prime(26) == 103 && Prime(27) == 107 && Prime(28) == 109;
    assert Found(103, 107) == 1 && Sieved(107);
    assert Found(107, 109) == 1 && Sieved(109);
  }

  lemma Follows14()
    ensures Follows(28) && Follows(29)
  {
    assert Prime(28) == 109 && Prime(29) == 113 && Prime(30) == 127;
    assert Found(109, 113) == 1 && Sieved(113);
    assert Found(113, 127) == 1 && Sieved(127);
  }

  lemma Follows15()
    ensures Follows(30) && Follows(31)
  {
    assert Prime(30) == 127 && Prime(31) == 131 && Prime(32) == 137;
    assert Found(127, 131) == 1 && Sieved(131);
    assert Found(131, 137) == 1 && Sieved(137);
  }

  lemma Follows16()
    ensures Follows(32) && Follows(33)
  {
    assert Prime(32) == 137 && Prime(33) == 139 && Prime(34) == 149;
    assert Found(137, 139) == 1 && Sieved(139);
    assert Found(139, 149) == 1 && Sieved(149);
  }

  lemma Follows17()
    ensures Follows(34) && Follows(35)
  {
    assert Prime(34) == 149 && Prime(35) == 151 && Prime(36) == 157;
    assert Found(149, 151) == 1 && Sieved(151);
    assert Found(151, 157) == 1 && Sieved(157);
  }

  lemma Follows18()
    ensures Follows(36) && Follows(37)
  {
    assert Prime(36) == 157 && Prime(37) == 163 && Prime(38) == 167;
    assert Found(157, 163) == 1 && Sieved(163);
    assert Found(163, 167) == 1 && Sieved(167);
  }

  lemma Follows19()
    ensures Follows(38) && Follows(39)
  {
    assert Prime(38) == 167 && Prime(39) == 173 && Prime(40) == 179;
    assert Found(167, 173) == 1 && Sieved(173);
    assert Found(173, 179) == 1 && Sieved(179);
  }

  lemma Follows20()
    ensures Follows(40) && Follows(41)
  {
    assert Prime(40) == 179 && Prime(41) == 181 && Prime(42) == 191;
    assert Found(179, 181) == 1 && Sieved(181);
    assert Found(181, 191) == 1 && Sieved(191);
  }

  lemma Follows21()
    ensures Follows(42) && Follows(43)
  {
    assert Prime(42) == 191 && Prime(43) == 193 && Prime(44) == 197;
    assert Found(191, 193) == 1 && Sieved(193);
    assert Found(193, 197) == 1 && Sieved(197);
  }

  lemma Follows22()
    ensures Follows(44) && Follows(45)
  {
    assert Prime(44) == 197 && Prime(45) == 199 && Prime(46) == 211;
    assert Found(197, 199) == 1 && Sieved(199);
    assert Found(199, 211) == 1 && Sieved(211);
  }

  lemma Follows23()
    ensures Follows(46) && Follows(47)
  {
    assert Prime(46) == 211 && Prime(47) == 223 && Prime(48) == 227;
    assert Found(211, 223) == 1 && Sieved(223);
    assert Found(223, 227) == 1 && Sieved(227);
  }

  lemma Follows24()
    ensures Follows(48) && Follows(49)
  {
    assert Prime(48) == 227 && Prime(49) == 229 && Prime(50) == 233;
    assert Found(227, 229) == 1 && Sieved(229);
    assert Found(229, 233) == 1 && Sieved(233);
  }

  lemma Follows25()
    ensures Follows(50) && Follows(51)
  {
    assert Prime(50) == 233 && Prime(51) == 239 && Prime(52) == 241;
    assert Found(233, 239) == 1 && Sieved(239);
    assert Found(239, 241) == 1 && Sieved(241);
  }

  lemma Follows26()
    ensures Follows(52) && Follows(53)
  {
    assert Prime(52) == 241 && Prime(53) == 251 && Prime(54) == 257;
    assert Found(241, 251) == 1 && Sieved(251);
    assert Found(251, 257) == 1 && Sieved(257);
  }

  lemma Follows27()
    ensures Follows(54) && Follows(55)
  {
    assert Prime(54) == 257 && Prime(55) == 263 && Prime(56) == 269;
    assert Found(257, 263) == 1 && Sieved(263);
    assert Found(263, 269) == 1 && Sieved(269);
  }

  lemma Follows28()
    ensures Follows(56) && Follows(57)
  {
    assert Prime(56) == 269 && Prime(57) == 271 && Prime(58) == 277;
    assert Found(269, 271) == 1 && Sieved(271);
    assert Found(271, 277) == 1 && Sieved(277);
  }

  lemma Follows29()
    ensures Follows(58) && Follows(59)
  {
    assert Prime(58) == 277 && Prime(59) == 281 && Prime(60) == 283;
    assert Found(277, 281) == 1 && Sieved(281);
    assert Found(281, 283) == 1 && Sieved(283);
  }

  lemma Follows30()
    ensures Follows(60) && Follows(61)
  {
    assert Prime(60) == 283 && Prime(61) == 293 && Prime(62) == 307;
    assert Found(283, 293) == 1 && Sieved(293);
    assert Found(293, 307) == 1 && Sieved(307);
  }

  lemma Follows31()
    ensures Follows(62)
  {
    assert Prime(62) == 307 && Prime(63) == 311;
    assert Found(307, 311) == 1 && Sieved(311);
  }

  lemma AllFollow(t: nat)
    requires t < 63
    ensures Follows(t)
  {
    hide Follows;
    match t {
      case 0 => Follows0(); case 1 => Follows0(); case 2 => Follows1(); case 3 => Follows1(); case 4 => Follows2();
      case 5 => Follows2(); case 6 => Follows3(); case 7 => Follows3(); case 8 => Follows4(); case 9 => Follows4();
      case 10 => Follows5(); case 11 => Follows5(); case 12 => Follows6(); case 13 => Follows6();
      case 14 => Follows7(); case 15 => Follows7(); case 16 => Follows8(); case 17 => Follows8();
      case 18 => Follows9(); case 19 => Follows9(); case 20 => Follows10(); case 21 => Follows10();
      case 22 => Follows11(); case 23 => Follows11(); case 24 => Follows12(); case 25 => Follows12();
      case 26 => Follows13(); case 27 => Follows13(); case 28 => Follows14(); case 29 => Follows14();
      case 30 => Follows15(); case 31 => Follows15(); case 32 => Follows16(); case 33 => Follows16();
      case 34 => Follows17(); case 35 => Follows17(); case 36 => Follows18(); case 37 => Follows18();
      case 38 => Follows19(); case 39 => Follows19(); case 40 => Follows20(); case 41 => Follows20();
      case 42 => Follows21(); case 43 => Follows21(); case 44 => Follows22(); case 45 => Follows22();
      case 46 => Follows23(); case 47 => Follows23(); case 48 => Follows24(); case 49 => Follows24();
      case 50 => Follows25(); case 51 => Follows25(); case 52 => Follows26(); case 53 => Follows26();
      case 54 => Follows27(); case 55 => Follows27(); case 56 => Follows28(); case 57 => Follows28();
      case 58 => Follows29(); case 59 => Follows29(); case 60 => Follows30(); case 61 => Follows30();
      case _ => Follows31();
    }
  }

  /** The t-th prime, counted from 0. */
  lemma {:induction false} PrimesInOrder(t: nat)
    requires t < 64
    ensures IsPrime(Prime(t)) && PrimesBelow(Prime(t)) == t
  {
    if t == 0 {
      FoundIs(0, 2);
      assert Found(0, 2) == 0;
      PrimeIff(2);
    } else {
      AllFollow(t - 1);
      PrimesInOrder(t - 1);
      FoundIs(Prime(t - 1), Prime(t));
      PrimeIff(Prime(t));
    }
  }

  // ----- the constants -----

  /** r is the cube root of p, in units of 2^-32 and rounded down. */
  predicate IsCubeRoot(p: nat, r: nat) {
    r * r * r <= p * 0x1_0000_0000_0000_0000_0000_0000 < (r + 1) * (r + 1) * (r + 1)
  }

  predicate IsSquareRoot(p: nat, r: nat) {
    r * r <= p * 0x1_0000_0000_0000_0000 < (r + 1) * (r + 1)
  }

  const ROOTS: seq<seq<nat>> := [
    [0x1428a2f98, 0x171374491, 0x1b5c0fbcf, 0x1e9b5dba5, 0x23956c25b, 0x259f111f1, 0x2923f82a4, 0x2ab1c5ed5],
    [0x2d807aa98, 0x312835b01, 0x3243185be, 0x3550c7dc3, 0x372be5d74, 0x380deb1fe, 0x39bdc06a7, 0x3c19bf174],
    [0x3e49b69c1, 0x3efbe4786, 0x40fc19dc6, 0x4240ca1cc, 0x42de92c6f, 0x44a7484aa, 0x45cb0a9dc, 0x476f988da],
    [0x4983e5152, 0x4a831c66d, 0x4b00327c8, 0x4bf597fc7, 0x4c6e00bf3, 0x4d5a79147, 0x506ca6351, 0x514292967],
    [0x527b70a85, 0x52e1b2138, 0x54d2c6dfc, 0x553380d13, 0x5650a7354, 0x5766a0abb, 0x581c2c92e, 0x592722c85],
    [0x5a2bfe8a1, 0x5a81a664b, 0x5c24b8b70, 0x5c76c51a3, 0x5d192e819, 0x5d6990624, 0x5f40e3585, 0x6106aa070],
    [0x619a4c116, 0x61e376c08, 0x62748774c, 0x634b0bcb5, 0x6391c0cb3, 0x64ed8aa4a, 0x65b9cca4f, 0x6682e6ff3],
    [0x6748f82ee, 0x678a5636f, 0x684c87814, 0x68cc70208, 0x690befffa, 0x6a4506ceb, 0x6bef9a3f7, 0x6c67178f2]]

  function Root(t: nat): nat
    requires t < 64
  {
    ROOTS[t / 8][t % 8]
  }

  predicate FromRoot(t: nat)
    requires t < 64
  {
    K(t) as nat == Root(t) % TWO_32 && IsCubeRoot(Prime(t), Root(t))
  }

  lemma FromRoots0()
    ensures FromRoot(0) && FromRoot(1) && FromRoot(2) && FromRoot(3)
  {
  }

  lemma FromRoots1()
    ensures FromRoot(4) && FromRoot(5) && FromRoot(6) && FromRoot(7)
  {
  }

  lemma FromRoots2()
    ensures FromRoot(8) && FromRoot(9) && FromRoot(10) && FromRoot(11)
  {
  }

  lemma FromRoots3()
    ensures FromRoot(12) && FromRoot(13) && FromRoot(14) && FromRoot(15)
  {
  }

  lemma FromRoots4()
    ensures FromRoot(16) && FromRoot(17) && FromRoot(18) && FromRoot(19)
  {
  }

  lemma FromRoots5()
    ensures FromRoot(20) && FromRoot(21) && FromRoot(22) && FromRoot(23)
  {
  }

  lemma FromRoots6()
    ensures FromRoot(24) && FromRoot(25) && FromRoot(26) && FromRoot(27)
  {
  }

  lemma FromRoots7()
    ensures FromRoot(28) && FromRoot(29) && FromRoot(30) && FromRoot(31)
  {
  }

  lemma FromRoots8()
    ensures FromRoot(32) && FromRoot(33) && FromRoot(34) && FromRoot(35)
  {
  }

  lemma FromRoots9()
    ensures FromRoot(36) && FromRoot(37) && FromRoot(38) && FromRoot(39)
  {
  }

  lemma FromRoots10()
    ensures FromRoot(40) && FromRoot(41) && FromRoot(42) && FromRoot(43)
  {
  }

  lemma FromRoots11()
    ensures FromRoot(44) && FromRoot(45) && FromRoot(46) && FromRoot(47)
  {
  }

  lemma FromRoots12()
    ensures FromRoot(48) && FromRoot(49) && FromRoot(50) && FromRoot(51)
  {
  }

  lemma FromRoots13()
    ensures FromRoot(52) && FromRoot(53) && FromRoot(54) && FromRoot(55)
  {
  }

  lemma FromRoots14()
    ensures FromRoot(56) && FromRoot(57) && FromRoot(58) && FromRoot(59)
  {
  }

  lemma FromRoots15()
    ensures FromRoot(60) && FromRoot(61) && FromRoot(62) && FromRoot(63)
  {
  }

  /** Section 4.2.2: the constants are the first 32 bits of the fractional parts of the cube roots of the first 64
      primes. */
  lemma CubeRoots(t: nat) returns (r: nat)
    requires t < 64
    ensures IsCubeRoot(Prime(t), r) && K(t) as nat == r % TWO_32
  {
    FromRoots0(); FromRoots1(); FromRoots2(); FromRoots3(); FromRoots4(); FromRoots5(); FromRoots6(); FromRoots7();
    FromRoots8(); FromRoots9(); FromRoots10(); FromRoots11(); FromRoots12(); FromRoots13(); FromRoots14();
    FromRoots15();
    assert FromRoot(t) by {
      hide FromRoot;
      match t {
        case 0 => case 1 => case 2 => case 3 => case 4 => case 5 => case 6 => case 7 => case 8 => case 9 =>
        case 10 => case 11 => case 12 => case 13 => case 14 => case 15 => case 16 => case 17 => case 18 =>
        case 19 => case 20 => case 21 => case 22 => case 23 => case 24 => case 25 => case 26 => case 27 =>
        case 28 => case 29 => case 30 => case 31 => case 32 => case 33 => case 34 => case 35 => case 36 =>
        case 37 => case 38 => case 39 => case 40 => case 41 => case 42 => case 43 => case 44 => case 45 =>
        case 46 => case 47 => case 48 => case 49 => case 50 => case 51 => case 52 => case 53 => case 54 =>
        case 55 => case 56 => case 57 => case 58 => case 59 => case 60 => case 61 => case 62 => case _ =>
      }
    }
    r := Root(t);
  }

  /** Section 5.3.3: and the initial value those of the square roots of the first eight. */
  lemma SquareRoots(i: nat) returns (r: nat)
    requires i < 8
    ensures IsSquareRoot(Prime(i), r) && Words(H0)[i] as nat == r % TWO_32
  {
    r := [0x16a09e667, 0x1bb67ae85, 0x23c6ef372, 0x2a54ff53a, 0x3510e527f, 0x39b05688c, 0x41f83d9ab, 0x45be0cd19][i];
    match i { case 0 => case 1 => case 2 => case 3 => case 4 => case 5 => case 6 => case _ => }
  }

  // ----- bit by bit -----

  predicate Odd(x: word) { x & 1 == 1 }

  function Half(x: word): word { x >> 1 }

  /** The i-th bit, counted from the least. */
  predicate Bit(x: word, i: nat) {
    if i == 0 then Odd(x) else Bit(Half(x), i - 1)
  }

  function Or(x: word, y: word): word { x | y }

  lemma HalfXor(x: word, y: word)
    ensures Half(Xor(x, y)) == Xor(Half(x), Half(y))
  {
  }

  lemma HalfAnd(x: word, y: word)
    ensures Half(And(x, y)) == And(Half(x), Half(y))
  {
  }

  lemma HalfOr(x: word, y: word)
    ensures Half(Or(x, y)) == Or(Half(x), Half(y))
  {
  }

  lemma OddXor(x: word, y: word)
    ensures Odd(Xor(x, y)) <==> Odd(x) != Odd(y)
  {
  }

  lemma OddAnd(x: word, y: word)
    ensures Odd(And(x, y)) <==> Odd(x) && Odd(y)
  {
  }

  lemma OddOr(x: word, y: word)
    ensures Odd(Or(x, y)) <==> Odd(x) || Odd(y)
  {
  }

  lemma {:induction false} BitOf(x: word, y: word, i: nat)
    ensures Bit(Xor(x, y), i) <==> Bit(x, i) != Bit(y, i)
    ensures Bit(And(x, y), i) <==> Bit(x, i) && Bit(y, i)
    ensures Bit(Or(x, y), i) <==> Bit(x, i) || Bit(y, i)
    decreases i
  {
    hide Half, Odd, Xor, And, Or;
    OddXor(x, y);
    OddAnd(x, y);
    OddOr(x, y);
    if i > 0 {
      HalfXor(x, y);
      HalfAnd(x, y);
      HalfOr(x, y);
      BitOf(Half(x), Half(y), i - 1);
    }
  }

  function Dropped(x: word, n: nat): word {
    if n == 0 then x else Half(Dropped(x, n - 1))
  }

  lemma {:induction false} DroppedBit(x: word, n: nat, i: nat)
    ensures Bit(Dropped(x, n), i) == Bit(x, i + n)
  {
    hide Half, Odd;
    if n > 0 { DroppedBit(x, n - 1, i + 1); }
  }

  const ONES: word := 0xffffffff
  const TOP: word := 0x80000000

  /** All ones, and the highest bit. */
  lemma BitsOfOnes(i: nat)
    requires i <= 32
    ensures Bit(ONES, i) <==> i < 32
    ensures Bit(TOP, i) <==> i == 31
  {
    DroppedBit(ONES, i, 0);
    DroppedBit(TOP, i, 0);
    OnesDropped(i);
  }

  lemma OnesDropped(i: nat)
    requires i <= 32
    ensures Odd(Dropped(ONES, i)) <==> i < 32
    ensures Odd(Dropped(TOP, i)) <==> i == 31
  {
    assert Dropped(ONES, 1) == 0x7fffffff && Dropped(TOP, 1) == 0x40000000;
    assert Dropped(ONES, 2) == 0x3fffffff && Dropped(TOP, 2) == 0x20000000;
    assert Dropped(ONES, 3) == 0x1fffffff && Dropped(TOP, 3) == 0x10000000;
    assert Dropped(ONES, 4) == 0xfffffff && Dropped(TOP, 4) == 0x8000000;
    assert Dropped(ONES, 5) == 0x7ffffff && Dropped(TOP, 5) == 0x4000000;
    assert Dropped(ONES, 6) == 0x3ffffff && Dropped(TOP, 6) == 0x2000000;
    assert Dropped(ONES, 7) == 0x1ffffff && Dropped(TOP, 7) == 0x1000000;
    assert Dropped(ONES, 8) == 0xffffff && Dropped(TOP, 8) == 0x800000;
    assert Dropped(ONES, 9) == 0x7fffff && Dropped(TOP, 9) == 0x400000;
    assert Dropped(ONES, 10) == 0x3fffff && Dropped(TOP, 10) == 0x200000;
    assert Dropped(ONES, 11) == 0x1fffff && Dropped(TOP, 11) == 0x100000;
    assert Dropped(ONES, 12) == 0xfffff && Dropped(TOP, 12) == 0x80000;
    assert Dropped(ONES, 13) == 0x7ffff && Dropped(TOP, 13) == 0x40000;
    assert Dropped(ONES, 14) == 0x3ffff && Dropped(TOP, 14) == 0x20000;
    assert Dropped(ONES, 15) == 0x1ffff && Dropped(TOP, 15) == 0x10000;
    assert Dropped(ONES, 16) == 0xffff && Dropped(TOP, 16) == 0x8000;
    assert Dropped(ONES, 17) == 0x7fff && Dropped(TOP, 17) == 0x4000;
    assert Dropped(ONES, 18) == 0x3fff && Dropped(TOP, 18) == 0x2000;
    assert Dropped(ONES, 19) == 0x1fff && Dropped(TOP, 19) == 0x1000;
    assert Dropped(ONES, 20) == 0xfff && Dropped(TOP, 20) == 0x800;
    assert Dropped(ONES, 21) == 0x7ff && Dropped(TOP, 21) == 0x400;
    assert Dropped(ONES, 22) == 0x3ff && Dropped(TOP, 22) == 0x200;
    assert Dropped(ONES, 23) == 0x1ff && Dropped(TOP, 23) == 0x100;
    assert Dropped(ONES, 24) == 0xff && Dropped(TOP, 24) == 0x80;
    assert Dropped(ONES, 25) == 0x7f && Dropped(TOP, 25) == 0x40;
    assert Dropped(ONES, 26) == 0x3f && Dropped(TOP, 26) == 0x20;
    assert Dropped(ONES, 27) == 0x1f && Dropped(TOP, 27) == 0x10;
    assert Dropped(ONES, 28) == 0xf && Dropped(TOP, 28) == 0x8;
    assert Dropped(ONES, 29) == 0x7 && Dropped(TOP, 29) == 0x4;
    assert Dropped(ONES, 30) == 0x3 && Dropped(TOP, 30) == 0x2;
    assert Dropped(ONES, 31) == 0x1 && Dropped(TOP, 31) == 0x1;
    assert Dropped(ONES, 32) == 0x0 && Dropped(TOP, 32) == 0x0;
    match i {
      case 0 => case 1 => case 2 => case 3 => case 4 => case 5 => case 6 => case 7 => case 8 => case 9 =>
      case 10 => case 11 => case 12 => case 13 => case 14 => case 15 => case 16 => case 17 => case 18 => case 19 =>
      case 20 => case 21 => case 22 => case 23 => case 24 => case 25 => case 26 => case 27 => case 28 => case 29 =>
      case 30 => case 31 => case _ =>
    }
  }

  lemma {:induction false} BitNone(i: nat)
    ensures !Bit(0, i)
  {
    if i > 0 {
      assert Half(0) == 0;
      BitNone(i - 1);
    }
  }

  lemma BitNot(x: word, i: nat)
    requires i < 32
    ensures Bit(Not(x), i) <==> !Bit(x, i)
  {
    hide *;
    NotIs(x);
    BitOf(x, ONES, i);
    BitsOfOnes(i);
  }

  lemma NotIs(x: word)
    ensures Not(x) == Xor(x, ONES)
  {
  }

  lemma AllOf(x: word)
    ensures x == And(x, ONES)
  {
  }

  /** There are 32 bits. */
  lemma NoMoreBits(x: word)
    ensures !Bit(x, 32)
  {
    hide *;
    AllOf(x);
    BitOf(x, ONES, 32);
    BitsOfOnes(32);
  }

  // ----- rotations -----

  /** The lowest bit, as the highest. */
  function Raised(x: word): word { if Odd(x) then TOP else 0 }

  lemma TurnIs(x: word)
    ensures RotR(x, 1) == Or(Half(x), Raised(x))
  {
  }

  lemma RaisedBit(x: word, i: nat)
    requires i < 32
    ensures Bit(Raised(x), i) <==> i == 31 && Odd(x)
  {
    hide Bit, Odd;
    BitsOfOnes(i);
    BitNone(i);
  }

  lemma NextBit(x: word, i: nat)
    ensures Bit(Half(x), i) == Bit(x, i + 1)
    ensures Bit(x, 0) == Odd(x)
  {
  }

  /** n places up, and round. */
  function Up(i: nat, n: nat): (j: nat)
    ensures j < 32
  {
    (i + n) % 32
  }

  lemma UpTwice(i: nat, m: nat, n: nat)
    ensures Up(Up(i, m), n) == Up(i, n + m)
  {
  }

  lemma UpByOne(i: nat)
    requires i < 32
    ensures Up(i, 1) == if i == 31 then 0 else i + 1
  {
  }

  lemma RotBit1(x: word, i: nat)
    requires i < 32
    ensures Bit(RotR(x, 1), i) == Bit(x, Up(i, 1))
  {
    hide *;
    UpByOne(i);
    TurnIs(x);
    BitOf(Half(x), Raised(x), i);
    RaisedBit(x, i);
    NoMoreBits(x);
    NextBit(x, i);
    NextBit(x, 0);
  }

  lemma Turns2(x: word)
    ensures RotR(x, 2) == RotR(RotR(x, 1), 1)
  {
  }

  lemma RotBit2(x: word, i: nat)
    requires i < 32
    ensures Bit(RotR(x, 2), i) == Bit(x, Up(i, 2))
  {
    hide *;
    Turns2(x);
    RotBit1(RotR(x, 1), i);
    RotBit1(x, Up(i, 1));
    UpTwice(i, 1, 1);
  }

  lemma Turns4(x: word)
    ensures RotR(x, 4) == RotR(RotR(x, 2), 2)
  {
  }

  lemma RotBit4(x: word, i: nat)
    requires i < 32
    ensures Bit(RotR(x, 4), i) == Bit(x, Up(i, 4))
  {
    hide *;
    Turns4(x);
    RotBit2(RotR(x, 2), i);
    RotBit2(x, Up(i, 2));
    UpTwice(i, 2, 2);
  }

  lemma Turns6(x: word)
    ensures RotR(x, 6) == RotR(RotR(x, 4), 2)
  {
  }

  lemma RotBit6(x: word, i: nat)
    requires i < 32
    ensures Bit(RotR(x, 6), i) == Bit(x, Up(i, 6))
  {
    hide *;
    Turns6(x);
    RotBit2(RotR(x, 4), i);
    RotBit4(x, Up(i, 2));
    UpTwice(i, 2, 4);
  }

  lemma Turns7(x: word)
    ensures RotR(x, 7) == RotR(RotR(x, 6), 1)
  {
  }

  lemma RotBit7(x: word, i: nat)
    requires i < 32
    ensures Bit(RotR(x, 7), i) == Bit(x, Up(i, 7))
  {
    hide *;
    Turns7(x);
    RotBit1(RotR(x, 6), i);
    RotBit6(x, Up(i, 1));
    UpTwice(i, 1, 6);
  }

  lemma Turns11(x: word)
    ensures RotR(x, 11) == RotR(RotR(x, 7), 4)
  {
  }

  lemma RotBit11(x: word, i: nat)
    requires i < 32
    ensures Bit(RotR(x, 11), i) == Bit(x, Up(i, 11))
  {
    hide *;
    Turns11(x);
    RotBit4(RotR(x, 7), i);
    RotBit7(x, Up(i, 4));
    UpTwice(i, 4, 7);
  }

  lemma Turns13(x: word)
    ensures RotR(x, 13) == RotR(RotR(x, 11), 2)
  {
  }

  lemma RotBit13(x: word, i: nat)
    requires i < 32
    ensures Bit(RotR(x, 13), i) == Bit(x, Up(i, 13))
  {
    hide *;
    Turns13(x);
    RotBit2(RotR(x, 11), i);
    RotBit11(x, Up(i, 2));
    UpTwice(i, 2, 11);
  }

  lemma Turns17(x: word)
    ensures RotR(x, 17) == RotR(RotR(x, 13), 4)
  {
  }

  lemma RotBit17(x: word, i: nat)
    requires i < 32
    ensures Bit(RotR(x, 17), i) == Bit(x, Up(i, 17))
  {
    hide *;
    Turns17(x);
    RotBit4(RotR(x, 13), i);
    RotBit13(x, Up(i, 4));
    UpTwice(i, 4, 13);
  }

  lemma Turns18(x: word)
    ensures RotR(x, 18) == RotR(RotR(x, 17), 1)
  {
  }

  lemma RotBit18(x: word, i: nat)
    requires i < 32
    ensures Bit(RotR(x, 18), i) == Bit(x, Up(i, 18))
  {
    hide *;
    Turns18(x);
    RotBit1(RotR(x, 17), i);
    RotBit17(x, Up(i, 1));
    UpTwice(i, 1, 17);
  }

  lemma Turns19(x: word)
    ensures RotR(x, 19) == RotR(RotR(x, 17), 2)
  {
  }

  lemma RotBit19(x: word, i: nat)
    requires i < 32
    ensures Bit(RotR(x, 19), i) == Bit(x, Up(i, 19))
  {
    hide *;
    Turns19(x);
    RotBit2(RotR(x, 17), i);
    RotBit17(x, Up(i, 2));
    UpTwice(i, 2, 17);
  }

  lemma Turns22(x: word)
    ensures RotR(x, 22) == RotR(RotR(x, 18), 4)
  {
  }

  lemma RotBit22(x: word, i: nat)
    requires i < 32
    ensures Bit(RotR(x, 22), i) == Bit(x, Up(i, 22))
  {
    hide *;
    Turns22(x);
    RotBit4(RotR(x, 18), i);
    RotBit18(x, Up(i, 4));
    UpTwice(i, 4, 18);
  }

  lemma Turns25(x: word)
    ensures RotR(x, 25) == RotR(RotR(x, 19), 6)
  {
  }

  lemma RotBit25(x: word, i: nat)
    requires i < 32
    ensures Bit(RotR(x, 25), i) == Bit(x, Up(i, 25))
  {
    hide *;
    Turns25(x);
    RotBit6(RotR(x, 19), i);
    RotBit19(x, Up(i, 6));
    UpTwice(i, 6, 19);
  }

  lemma ShiftIs3(x: word)
    ensures ShR(x, 3) == Half(Half(Half(x)))
  {
  }

  lemma ShiftIs10(x: word)
    ensures ShR(x, 10) == Half(Half(Half(Half(Half(Half(Half(ShR(x, 3))))))))
  {
  }

  lemma ShiftBit3(x: word, i: nat)
    ensures Bit(ShR(x, 3), i) == Bit(x, i + 3)
  {
    hide *;
    ShiftIs3(x);
    NextBit(Half(Half(x)), i);
    NextBit(Half(x), i + 1);
    NextBit(x, i + 2);
  }

  lemma ShiftBit10(x: word, i: nat)
    ensures Bit(ShR(x, 10), i) == Bit(x, i + 10)
  {
    hide *;
    ShiftIs10(x);
    var y := ShR(x, 3);
    NextBit(Half(Half(Half(Half(Half(Half(y)))))), i);
    NextBit(Half(Half(Half(Half(Half(y))))), i + 1);
    NextBit(Half(Half(Half(Half(y)))), i + 2);
    NextBit(Half(Half(Half(y))), i + 3);
    NextBit(Half(Half(y)), i + 4);
    NextBit(Half(y), i + 5);
    NextBit(y, i + 6);
    ShiftBit3(x, i + 7);
  }

  // ----- section 4.1.2 -----

  lemma ChBits(x: word, y: word, z: word, i: nat)
    requires i < 32
    ensures Bit(Ch(x, y, z), i) == if Bit(x, i) then Bit(y, i) else Bit(z, i)
  {
    hide Bit, Xor, And, Not;
    BitNot(x, i);
    BitOf(x, y, i);
    BitOf(Not(x), z, i);
    BitOf(And(x, y), And(Not(x), z), i);
  }

  /** The majority of the three. */
  lemma MajBits(x: word, y: word, z: word, i: nat)
    ensures Bit(Maj(x, y, z), i) <==> (Bit(x, i) && Bit(y, i)) || (Bit(x, i) && Bit(z, i)) || (Bit(y, i) && Bit(z, i))
  {
    hide Bit, Xor, And;
    BitOf(x, y, i);
    BitOf(x, z, i);
    BitOf(y, z, i);
    BitOf(And(x, y), And(x, z), i);
    BitOf(Xor(And(x, y), And(x, z)), And(y, z), i);
  }

  lemma Sum0Bits(x: word, i: nat)
    requires i < 32
    ensures Bit(Sum0(x), i) <==> (Bit(x, Up(i, 2)) != Bit(x, Up(i, 13))) != Bit(x, Up(i, 22))
  {
    hide Bit, Xor, RotR, ShR;
    RotBit2(x, i);
    RotBit13(x, i);
    RotBit22(x, i);
    BitOf(RotR(x, 2), RotR(x, 13), i);
    BitOf(Xor(RotR(x, 2), RotR(x, 13)), RotR(x, 22), i);
  }

  lemma Sum1Bits(x: word, i: nat)
    requires i < 32
    ensures Bit(Sum1(x), i) <==> (Bit(x, Up(i, 6)) != Bit(x, Up(i, 11))) != Bit(x, Up(i, 25))
  {
    hide Bit, Xor, RotR, ShR;
    RotBit6(x, i);
    RotBit11(x, i);
    RotBit25(x, i);
    BitOf(RotR(x, 6), RotR(x, 11), i);
    BitOf(Xor(RotR(x, 6), RotR(x, 11)), RotR(x, 25), i);
  }

  /** The last term is a shift: zeros come in from above. */
  lemma Mix0Bits(x: word, i: nat)
    requires i < 32
    ensures Bit(Mix0(x), i) <==> (Bit(x, Up(i, 7)) != Bit(x, Up(i, 18))) != Bit(x, i + 3)
  {
    hide Bit, Xor, RotR, ShR;
    RotBit7(x, i);
    RotBit18(x, i);
    ShiftBit3(x, i);
    BitOf(RotR(x, 7), RotR(x, 18), i);
    BitOf(Xor(RotR(x, 7), RotR(x, 18)), ShR(x, 3), i);
  }

  lemma Mix1Bits(x: word, i: nat)
    requires i < 32
    ensures Bit(Mix1(x), i) <==> (Bit(x, Up(i, 17)) != Bit(x, Up(i, 19))) != Bit(x, i + 10)
  {
    hide Bit, Xor, RotR, ShR;
    RotBit17(x, i);
    RotBit19(x, i);
    ShiftBit10(x, i);
    BitOf(RotR(x, 17), RotR(x, 19), i);
    BitOf(Xor(RotR(x, 17), RotR(x, 19)), ShR(x, 10), i);
  }
}
