/** Where the constants of SHA-256 come from (sections 4.2.2 and 5.3.3 of FIPS 180-4): the first 32
    bits of the fractional parts of the cube roots of the first 64 primes, and of the square roots
    of the first eight. */
module Sha256Constants {
  import opened Bitwise
  import opened Sha256Spec

  // ---- the first 64 primes --------------------------------------------------------------------------

  ghost predicate IsPrime(n: nat) {
    n >= 2 && forall d :: 2 <= d < n ==> n % d != 0
  }

  const P0: seq<nat> := [2, 3, 5, 7, 11, 13, 17, 19]
  const P1: seq<nat> := [23, 29, 31, 37, 41, 43, 47, 53]
  const P2: seq<nat> := [59, 61, 67, 71, 73, 79, 83, 89]
  const P3: seq<nat> := [97, 101, 103, 107, 109, 113, 127, 131]
  const P4: seq<nat> := [137, 139, 149, 151, 157, 163, 167, 173]
  const P5: seq<nat> := [179, 181, 191, 193, 197, 199, 211, 223]
  const P6: seq<nat> := [227, 229, 233, 239, 241, 251, 257, 263]
  const P7: seq<nat> := [269, 271, 277, 281, 283, 293, 307, 311]

  const PRIMES: seq<nat> := P0 + P1 + P2 + P3 + P4 + P5 + P6 + P7

  lemma Composite(n: nat, d: nat)
    requires 2 <= d < n && n % d == 0
    ensures !IsPrime(n)
  {}

  /** Divisible by none of the primes up to 17, but itself. */
  predicate Sieved(n: nat) {
    && (n % 2 == 0 ==> n == 2) && (n % 3 == 0 ==> n == 3) && (n % 5 == 0 ==> n == 5) && (n % 7 == 0 ==> n == 7)
    && (n % 11 == 0 ==> n == 11) && (n % 13 == 0 ==> n == 13) && (n % 17 == 0 ==> n == 17)
  }

  lemma Multiple(n: nat, d: nat, q: nat)
    requires d > 0 && q > 0 && n % d == 0 && d % q == 0
    ensures n % q == 0
  {
    var a, b := n / d, d / q;
    assert n == q * (b * a);
    ModUnique(n, q, b * a, 0);
  }

  // A divisor below 19 is a multiple of one of them.
  lemma SmallDivisor(n: nat, d: nat)
    requires Sieved(n) && 2 <= d < 19 && d < n
    ensures n % d != 0
  {
    if n % d == 0 {
      if
      case d % 2 == 0 => Multiple(n, d, 2);
      case d % 3 == 0 => Multiple(n, d, 3);
      case d % 5 == 0 => Multiple(n, d, 5);
      case d % 7 == 0 => Multiple(n, d, 7);
      case d in {11, 13, 17} =>
    }
  }

  lemma SievedIsPrime(n: nat)
    requires 2 <= n < 19 * 19 && Sieved(n)
    ensures IsPrime(n)
  {
    forall d | 2 <= d < n ensures n % d != 0 {
      if d < 19 {
        SmallDivisor(n, d);
      } else if n % d == 0 {
        var e := n / d;
        assert n == d * e;
        assert 2 <= e < 19 by { assert e >= 19 ==> d * e >= 19 * 19; assert e <= 1 ==> d * e <= d; }
        ModUnique(n, e, d, 0);
        SmallDivisor(n, e);
      }
    }
  }

  /** No prime lies between p and q. */
  ghost predicate Adjacent(p: nat, q: nat) {
    p < q && forall n :: p < n < q ==> !IsPrime(n)
  }

  lemma Primes0()
    ensures forall i :: 0 <= i < 8 ==> IsPrime(P0[i])
  {
    SievedIsPrime(2); SievedIsPrime(3); SievedIsPrime(5); SievedIsPrime(7);
    SievedIsPrime(11); SievedIsPrime(13); SievedIsPrime(17); SievedIsPrime(19);
  }

  lemma Gaps0()
    ensures forall i :: 0 <= i < 7 ==> Adjacent(P0[i], P0[i + 1])
  {
    assert Adjacent(2, 3);
    Composite(4, 2);
    assert Adjacent(3, 5);
    Composite(6, 2);
    assert Adjacent(5, 7);
    Composite(8, 2); Composite(9, 3); Composite(10, 2);
    assert Adjacent(7, 11);
    Composite(12, 2);
    assert Adjacent(11, 13);
    Composite(14, 2); Composite(15, 3); Composite(16, 2);
    assert Adjacent(13, 17);
    Composite(18, 2);
    assert Adjacent(17, 19);
  }

  lemma Primes1()
    ensures forall i :: 0 <= i < 8 ==> IsPrime(P1[i])
  {
    SievedIsPrime(23); SievedIsPrime(29); SievedIsPrime(31); SievedIsPrime(37);
    SievedIsPrime(41); SievedIsPrime(43); SievedIsPrime(47); SievedIsPrime(53);
  }

  lemma Gaps1()
    ensures forall i :: 0 <= i < 7 ==> Adjacent(P1[i], P1[i + 1])
    ensures Adjacent(P0[7], P1[0])
  {
    Composite(20, 2); Composite(21, 3); Composite(22, 2);
    assert Adjacent(19, 23);
    Composite(24, 2); Composite(25, 5); Composite(26, 2); Composite(27, 3); Composite(28, 2);
    assert Adjacent(23, 29);
    Composite(30, 2);
    assert Adjacent(29, 31);
    Composite(32, 2); Composite(33, 3); Composite(34, 2); Composite(35, 5); Composite(36, 2);
    assert Adjacent(31, 37);
    Composite(38, 2); Composite(39, 3); Composite(40, 2);
    assert Adjacent(37, 41);
    Composite(42, 2);
    assert Adjacent(41, 43);
    Composite(44, 2); Composite(45, 3); Composite(46, 2);
    assert Adjacent(43, 47);
    Composite(48, 2); Composite(49, 7); Composite(50, 2); Composite(51, 3); Composite(52, 2);
    assert Adjacent(47, 53);
  }

  lemma Primes2()
    ensures forall i :: 0 <= i < 8 ==> IsPrime(P2[i])
  {
    SievedIsPrime(59); SievedIsPrime(61); SievedIsPrime(67); SievedIsPrime(71);
    SievedIsPrime(73); SievedIsPrime(79); SievedIsPrime(83); SievedIsPrime(89);
  }

  lemma Gaps2()
    ensures forall i :: 0 <= i < 7 ==> Adjacent(P2[i], P2[i + 1])
    ensures Adjacent(P1[7], P2[0])
  {
    Composite(54, 2); Composite(55, 5); Composite(56, 2); Composite(57, 3); Composite(58, 2);
    assert Adjacent(53, 59);
    Composite(60, 2);
    assert Adjacent(59, 61);
    Composite(62, 2); Composite(63, 3); Composite(64, 2); Composite(65, 5); Composite(66, 2);
    assert Adjacent(61, 67);
    Composite(68, 2); Composite(69, 3); Composite(70, 2);
    assert Adjacent(67, 71);
    Composite(72, 2);
    assert Adjacent(71, 73);
    Composite(74, 2); Composite(75, 3); Composite(76, 2); Composite(77, 7); Composite(78, 2);
    assert Adjacent(73, 79);
    Composite(80, 2); Composite(81, 3); Composite(82, 2);
    assert Adjacent(79, 83);
    Composite(84, 2); Composite(85, 5); Composite(86, 2); Composite(87, 3); Composite(88, 2);
    assert Adjacent(83, 89);
  }

  lemma Primes3()
    ensures forall i :: 0 <= i < 8 ==> IsPrime(P3[i])
  {
    SievedIsPrime(97); SievedIsPrime(101); SievedIsPrime(103); SievedIsPrime(107);
    SievedIsPrime(109); SievedIsPrime(113); SievedIsPrime(127); SievedIsPrime(131);
  }

  lemma Gaps3()
    ensures forall i :: 0 <= i < 7 ==> Adjacent(P3[i], P3[i + 1])
    ensures Adjacent(P2[7], P3[0])
  {
    Composite(90, 2); Composite(91, 7); Composite(92, 2); Composite(93, 3); Composite(94, 2); Composite(95, 5); Composite(96, 2);
    assert Adjacent(89, 97);
    Composite(98, 2); Composite(99, 3); Composite(100, 2);
    assert Adjacent(97, 101);
    Composite(102, 2);
    assert Adjacent(101, 103);
    Composite(104, 2); Composite(105, 3); Composite(106, 2);
    assert Adjacent(103, 107);
    Composite(108, 2);
    assert Adjacent(107, 109);
    Composite(110, 2); Composite(111, 3); Composite(112, 2);
    assert Adjacent(109, 113);
    Composite(114, 2); Composite(115, 5); Composite(116, 2); Composite(117, 3); Composite(118, 2); Composite(119, 7); Composite(120, 2);
    Composite(121, 11); Composite(122, 2); Composite(123, 3); Composite(124, 2); Composite(125, 5); Composite(126, 2);
    assert Adjacent(113, 127);
    Composite(128, 2); Composite(129, 3); Composite(130, 2);
    assert Adjacent(127, 131);
  }

  lemma Primes4()
    ensures forall i :: 0 <= i < 8 ==> IsPrime(P4[i])
  {
    SievedIsPrime(137); SievedIsPrime(139); SievedIsPrime(149); SievedIsPrime(151);
    SievedIsPrime(157); SievedIsPrime(163); SievedIsPrime(167); SievedIsPrime(173);
  }

  lemma Gaps4()
    ensures forall i :: 0 <= i < 7 ==> Adjacent(P4[i], P4[i + 1])
    ensures Adjacent(P3[7], P4[0])
  {
    Composite(132, 2); Composite(133, 7); Composite(134, 2); Composite(135, 3); Composite(136, 2);
    assert Adjacent(131, 137);
    Composite(138, 2);
    assert Adjacent(137, 139);
    Composite(140, 2); Composite(141, 3); Composite(142, 2); Composite(143, 11); Composite(144, 2); Composite(145, 5); Composite(146, 2);
    Composite(147, 3); Composite(148, 2);
    assert Adjacent(139, 149);
    Composite(150, 2);
    assert Adjacent(149, 151);
    Composite(152, 2); Composite(153, 3); Composite(154, 2); Composite(155, 5); Composite(156, 2);
    assert Adjacent(151, 157);
    Composite(158, 2); Composite(159, 3); Composite(160, 2); Composite(161, 7); Composite(162, 2);
    assert Adjacent(157, 163);
    Composite(164, 2); Composite(165, 3); Composite(166, 2);
    assert Adjacent(163, 167);
    Composite(168, 2); Composite(169, 13); Composite(170, 2); Composite(171, 3); Composite(172, 2);
    assert Adjacent(167, 173);
  }

  lemma Primes5()
    ensures forall i :: 0 <= i < 8 ==> IsPrime(P5[i])
  {
    SievedIsPrime(179); SievedIsPrime(181); SievedIsPrime(191); SievedIsPrime(193);
    SievedIsPrime(197); SievedIsPrime(199); SievedIsPrime(211); SievedIsPrime(223);
  }

  lemma Gaps5()
    ensures forall i :: 0 <= i < 7 ==> Adjacent(P5[i], P5[i + 1])
    ensures Adjacent(P4[7], P5[0])
  {
    Composite(174, 2); Composite(175, 5); Composite(176, 2); Composite(177, 3); Composite(178, 2);
    assert Adjacent(173, 179);
    Composite(180, 2);
    assert Adjacent(179, 181);
    Composite(182, 2); Composite(183, 3); Composite(184, 2); Composite(185, 5); Composite(186, 2); Composite(187, 11); Composite(188, 2);
    Composite(189, 3); Composite(190, 2);
    assert Adjacent(181, 191);
    Composite(192, 2);
    assert Adjacent(191, 193);
    Composite(194, 2); Composite(195, 3); Composite(196, 2);
    assert Adjacent(193, 197);
    Composite(198, 2);
    assert Adjacent(197, 199);
    Composite(200, 2); Composite(201, 3); Composite(202, 2); Composite(203, 7); Composite(204, 2); Composite(205, 5); Composite(206, 2);
    Composite(207, 3); Composite(208, 2); Composite(209, 11); Composite(210, 2);
    assert Adjacent(199, 211);
    Composite(212, 2); Composite(213, 3); Composite(214, 2); Composite(215, 5); Composite(216, 2); Composite(217, 7); Composite(218, 2);
    Composite(219, 3); Composite(220, 2); Composite(221, 13); Composite(222, 2);
    assert Adjacent(211, 223);
  }

  lemma Primes6()
    ensures forall i :: 0 <= i < 8 ==> IsPrime(P6[i])
  {
    SievedIsPrime(227); SievedIsPrime(229); SievedIsPrime(233); SievedIsPrime(239);
    SievedIsPrime(241); SievedIsPrime(251); SievedIsPrime(257); SievedIsPrime(263);
  }

  lemma Gaps6()
    ensures forall i :: 0 <= i < 7 ==> Adjacent(P6[i], P6[i + 1])
    ensures Adjacent(P5[7], P6[0])
  {
    Composite(224, 2); Composite(225, 3); Composite(226, 2);
    assert Adjacent(223, 227);
    Composite(228, 2);
    assert Adjacent(227, 229);
    Composite(230, 2); Composite(231, 3); Composite(232, 2);
    assert Adjacent(229, 233);
    Composite(234, 2); Composite(235, 5); Composite(236, 2); Composite(237, 3); Composite(238, 2);
    assert Adjacent(233, 239);
    Composite(240, 2);
    assert Adjacent(239, 241);
    Composite(242, 2); Composite(243, 3); Composite(244, 2); Composite(245, 5); Composite(246, 2); Composite(247, 13); Composite(248, 2);
    Composite(249, 3); Composite(250, 2);
    assert Adjacent(241, 251);
    Composite(252, 2); Composite(253, 11); Composite(254, 2); Composite(255, 3); Composite(256, 2);
    assert Adjacent(251, 257);
    Composite(258, 2); Composite(259, 7); Composite(260, 2); Composite(261, 3); Composite(262, 2);
    assert Adjacent(257, 263);
  }

  lemma Primes7()
    ensures forall i :: 0 <= i < 8 ==> IsPrime(P7[i])
  {
    SievedIsPrime(269); SievedIsPrime(271); SievedIsPrime(277); SievedIsPrime(281);
    SievedIsPrime(283); SievedIsPrime(293); SievedIsPrime(307); SievedIsPrime(311);
  }

  lemma Gaps7()
    ensures forall i :: 0 <= i < 7 ==> Adjacent(P7[i], P7[i + 1])
    ensures Adjacent(P6[7], P7[0])
  {
    Composite(264, 2); Composite(265, 5); Composite(266, 2); Composite(267, 3); Composite(268, 2);
    assert Adjacent(263, 269);
    Composite(270, 2);
    assert Adjacent(269, 271);
    Composite(272, 2); Composite(273, 3); Composite(274, 2); Composite(275, 5); Composite(276, 2);
    assert Adjacent(271, 277);
    Composite(278, 2); Composite(279, 3); Composite(280, 2);
    assert Adjacent(277, 281);
    Composite(282, 2);
    assert Adjacent(281, 283);
    Composite(284, 2); Composite(285, 3); Composite(286, 2); Composite(287, 7); Composite(288, 2); Composite(289, 17); Composite(290, 2);
    Composite(291, 3); Composite(292, 2);
    assert Adjacent(283, 293);
    Composite(294, 2); Composite(295, 5); Composite(296, 2); Composite(297, 3); Composite(298, 2); Composite(299, 13); Composite(300, 2);
    Composite(301, 7); Composite(302, 2); Composite(303, 3); Composite(304, 2); Composite(305, 5); Composite(306, 2);
    assert Adjacent(293, 307);
    Composite(308, 2); Composite(309, 3); Composite(310, 2);
    assert Adjacent(307, 311);
  }

  /** Place i of the two tables, by row. */
  lemma RowOf(i: nat) returns (r: nat, j: nat)
    requires i < 64
    ensures r < 8 && j < 8 && i == 8 * r + j
  {
    r, j := i / 8, i % 8;
  }

  function Row(r: nat): seq<nat> {
    Pick(P0, P1, P2, P3, P4, P5, P6, P7, r)
  }

  function ConstantRow(r: nat): seq<Word> {
    Pick(K0, K1, K2, K3, K4, K5, K6, K7, r)
  }

  lemma TableAt(r: nat, j: nat)
    requires r < 8 && j < 8
    ensures |PRIMES| == |K| == 64 && |Row(r)| == |ConstantRow(r)| == 8
    ensures PRIMES[8 * r + j] == Row(r)[j] && K[8 * r + j] == ConstantRow(r)[j]
  {
    Concat8(P0, P1, P2, P3, P4, P5, P6, P7, r, j);
    Concat8(K0, K1, K2, K3, K4, K5, K6, K7, r, j);
  }

  function Pick<T>(a: seq<T>, b: seq<T>, c: seq<T>, d: seq<T>, e: seq<T>, f: seq<T>, g: seq<T>, h: seq<T>, r: nat): seq<T> {
    match r case 0 => a case 1 => b case 2 => c case 3 => d case 4 => e case 5 => f case 6 => g case _ => h
  }

  lemma Concat8<T>(a: seq<T>, b: seq<T>, c: seq<T>, d: seq<T>, e: seq<T>, f: seq<T>, g: seq<T>, h: seq<T>, r: nat, j: nat)
    requires |a| == |b| == |c| == |d| == |e| == |f| == |g| == |h| == 8 && r < 8 && j < 8
    ensures |a + b + c + d + e + f + g + h| == 64 && |Pick(a, b, c, d, e, f, g, h, r)| == 8
    ensures (a + b + c + d + e + f + g + h)[8 * r + j] == Pick(a, b, c, d, e, f, g, h, r)[j]
  {}

  lemma PrimeRow(r: nat)
    requires r < 8
    ensures |Row(r)| == 8 && (forall j :: 0 <= j < 8 ==> IsPrime(Row(r)[j]))
  {
    match r
    case 0 => Primes0();
    case 1 => Primes1();
    case 2 => Primes2();
    case 3 => Primes3();
    case 4 => Primes4();
    case 5 => Primes5();
    case 6 => Primes6();
    case 7 => Primes7();
  }

  lemma GapRow(r: nat)
    requires r < 8
    ensures |Row(r)| == 8 && (forall j :: 0 <= j < 7 ==> Adjacent(Row(r)[j], Row(r)[j + 1]))
    ensures r > 0 ==> |Row(r - 1)| == 8 && Adjacent(Row(r - 1)[7], Row(r)[0])
  {
    match r
    case 0 => Gaps0();
    case 1 => Gaps1();
    case 2 => Gaps2();
    case 3 => Gaps3();
    case 4 => Gaps4();
    case 5 => Gaps5();
    case 6 => Gaps6();
    case 7 => Gaps7();
  }

  // The table by rows: how a fact about neighbours in rows is one about neighbours.
  lemma Neighbours(s: seq<nat>, rows: seq<seq<nat>>, i: nat)
    requires |s| == 64 && |rows| == 8 && i < 63
    requires forall r :: 0 <= r < 8 ==> |rows[r]| == 8
    requires forall r, j :: 0 <= r < 8 && 0 <= j < 8 ==> s[8 * r + j] == rows[r][j]
    requires forall r, j :: 0 <= r < 8 && 0 <= j < 7 ==> Adjacent(rows[r][j], rows[r][j + 1])
    requires forall r :: 0 < r < 8 ==> Adjacent(rows[r - 1][7], rows[r][0])
    ensures Adjacent(s[i], s[i + 1])
  {
    var r, j := RowOf(i);
    if j < 7 {
      assert s[8 * r + j] == rows[r][j] && s[8 * r + (j + 1)] == rows[r][j + 1];
    } else {
      assert s[8 * r + j] == rows[r][7] && s[8 * (r + 1) + 0] == rows[r + 1][0];
      assert Adjacent(rows[r + 1 - 1][7], rows[r + 1][0]);
    }
  }

  lemma NextPrime(i: nat)
    requires i < 63
    ensures |PRIMES| == 64 && Adjacent(PRIMES[i], PRIMES[i + 1])
  {
    TableAt(0, 0);
    var s, rows := PRIMES, seq(8, r requires 0 <= r < 8 => Row(r));
    forall r, j | 0 <= r < 8 && 0 <= j < 8 ensures |rows[r]| == 8 && s[8 * r + j] == rows[r][j] { TableAt(r, j); }
    forall r, j | 0 <= r < 8 && 0 <= j < 7 ensures Adjacent(rows[r][j], rows[r][j + 1]) { GapRow(r); }
    forall r | 0 < r < 8 ensures Adjacent(rows[r - 1][7], rows[r][0]) { GapRow(r); }
    Neighbours(s, rows, i);
  }

  /** PRIMES are the first 64 primes, in order. */
  lemma PrimesAreFirst()
    ensures |PRIMES| == 64 && PRIMES[0] == 2
    ensures forall i :: 0 <= i < 64 ==> IsPrime(PRIMES[i])
    ensures forall i :: 0 <= i < 63 ==> Adjacent(PRIMES[i], PRIMES[i + 1])
  {
    forall i | 0 <= i < 64 ensures IsPrime(PRIMES[i]) {
      var r, j := RowOf(i);
      TableAt(r, j);
      PrimeRow(r);
    }
    forall i | 0 <= i < 63 ensures Adjacent(PRIMES[i], PRIMES[i + 1]) {
      NextPrime(i);
    }
  }

  // ---- roots --------------------------------------------------------------------------------------------

  function Cube(x: nat): nat { x * x * x }

  /** k is the first 32 bits of the fractional part of the cube root of p: with n its whole part,
      n * 2^32 + k is the whole part of 2^32 times the root. */
  ghost predicate IsCubeFraction(k: nat, p: nat) {
    k < WORD && exists n: nat :: Cube(WORD * n + k) <= p * Cube(WORD) < Cube(WORD * n + k + 1)
  }

  function Square(x: nat): nat { x * x }

  ghost predicate IsSquareFraction(k: nat, p: nat) {
    k < WORD && exists n: nat :: Square(WORD * n + k) <= p * Square(WORD) < Square(WORD * n + k + 1)
  }

  lemma CubeFraction(k: nat, p: nat, n: nat)
    requires k < WORD && Cube(WORD * n + k) <= p * Cube(WORD) < Cube(WORD * n + k + 1)
    ensures IsCubeFraction(k, p)
  {}

  lemma SquareFraction(k: nat, p: nat, n: nat)
    requires k < WORD && Square(WORD * n + k) <= p * Square(WORD) < Square(WORD * n + k + 1)
    ensures IsSquareFraction(k, p)
  {}

  lemma Cubes0()
    ensures forall i :: 0 <= i < 8 ==> IsCubeFraction(K0[i], P0[i])
  {
    CubeFraction(0x428a2f98, 2, 1);
    CubeFraction(0x71374491, 3, 1);
    CubeFraction(0xb5c0fbcf, 5, 1);
    CubeFraction(0xe9b5dba5, 7, 1);
    CubeFraction(0x3956c25b, 11, 2);
    CubeFraction(0x59f111f1, 13, 2);
    CubeFraction(0x923f82a4, 17, 2);
    CubeFraction(0xab1c5ed5, 19, 2);
  }

  lemma Cubes1()
    ensures forall i :: 0 <= i < 8 ==> IsCubeFraction(K1[i], P1[i])
  {
    CubeFraction(0xd807aa98, 23, 2);
    CubeFraction(0x12835b01, 29, 3);
    CubeFraction(0x243185be, 31, 3);
    CubeFraction(0x550c7dc3, 37, 3);
    CubeFraction(0x72be5d74, 41, 3);
    CubeFraction(0x80deb1fe, 43, 3);
    CubeFraction(0x9bdc06a7, 47, 3);
    CubeFraction(0xc19bf174, 53, 3);
  }

  lemma Cubes2()
    ensures forall i :: 0 <= i < 8 ==> IsCubeFraction(K2[i], P2[i])
  {
    CubeFraction(0xe49b69c1, 59, 3);
    CubeFraction(0xefbe4786, 61, 3);
    CubeFraction(0x0fc19dc6, 67, 4);
    CubeFraction(0x240ca1cc, 71, 4);
    CubeFraction(0x2de92c6f, 73, 4);
    CubeFraction(0x4a7484aa, 79, 4);
    CubeFraction(0x5cb0a9dc, 83, 4);
    CubeFraction(0x76f988da, 89, 4);
  }

  lemma Cubes3()
    ensures forall i :: 0 <= i < 8 ==> IsCubeFraction(K3[i], P3[i])
  {
    CubeFraction(0x983e5152, 97, 4);
    CubeFraction(0xa831c66d, 101, 4);
    CubeFraction(0xb00327c8, 103, 4);
    CubeFraction(0xbf597fc7, 107, 4);
    CubeFraction(0xc6e00bf3, 109, 4);
    CubeFraction(0xd5a79147, 113, 4);
    CubeFraction(0x06ca6351, 127, 5);
    CubeFraction(0x14292967, 131, 5);
  }

  lemma Cubes4()
    ensures forall i :: 0 <= i < 8 ==> IsCubeFraction(K4[i], P4[i])
  {
    CubeFraction(0x27b70a85, 137, 5);
    CubeFraction(0x2e1b2138, 139, 5);
    CubeFraction(0x4d2c6dfc, 149, 5);
    CubeFraction(0x53380d13, 151, 5);
    CubeFraction(0x650a7354, 157, 5);
    CubeFraction(0x766a0abb, 163, 5);
    CubeFraction(0x81c2c92e, 167, 5);
    CubeFraction(0x92722c85, 173, 5);
  }

  lemma Cubes5()
    ensures forall i :: 0 <= i < 8 ==> IsCubeFraction(K5[i], P5[i])
  {
    CubeFraction(0xa2bfe8a1, 179, 5);
    CubeFraction(0xa81a664b, 181, 5);
    CubeFraction(0xc24b8b70, 191, 5);
    CubeFraction(0xc76c51a3, 193, 5);
    CubeFraction(0xd192e819, 197, 5);
    CubeFraction(0xd6990624, 199, 5);
    CubeFraction(0xf40e3585, 211, 5);
    CubeFraction(0x106aa070, 223, 6);
  }

  lemma Cubes6()
    ensures forall i :: 0 <= i < 8 ==> IsCubeFraction(K6[i], P6[i])
  {
    CubeFraction(0x19a4c116, 227, 6);
    CubeFraction(0x1e376c08, 229, 6);
    CubeFraction(0x2748774c, 233, 6);
    CubeFraction(0x34b0bcb5, 239, 6);
    CubeFraction(0x391c0cb3, 241, 6);
    CubeFraction(0x4ed8aa4a, 251, 6);
    CubeFraction(0x5b9cca4f, 257, 6);
    CubeFraction(0x682e6ff3, 263, 6);
  }

  lemma Cubes7()
    ensures forall i :: 0 <= i < 8 ==> IsCubeFraction(K7[i], P7[i])
  {
    CubeFraction(0x748f82ee, 269, 6);
    CubeFraction(0x78a5636f, 271, 6);
    CubeFraction(0x84c87814, 277, 6);
    CubeFraction(0x8cc70208, 281, 6);
    CubeFraction(0x90befffa, 283, 6);
    CubeFraction(0xa4506ceb, 293, 6);
    CubeFraction(0xbef9a3f7, 307, 6);
    CubeFraction(0xc67178f2, 311, 6);
  }

  lemma CubeRow(r: nat)
    requires r < 8
    ensures |Row(r)| == |ConstantRow(r)| == 8 && forall j :: 0 <= j < 8 ==> IsCubeFraction(ConstantRow(r)[j], Row(r)[j])
  {
    match r
    case 0 => Cubes0();
    case 1 => Cubes1();
    case 2 => Cubes2();
    case 3 => Cubes3();
    case 4 => Cubes4();
    case 5 => Cubes5();
    case 6 => Cubes6();
    case 7 => Cubes7();
  }

  /** The round constants are the fractions of the cube roots of the first 64 primes. */
  lemma RoundConstants()
    ensures |K| == |PRIMES| == 64 && forall t :: 0 <= t < 64 ==> IsCubeFraction(K[t], PRIMES[t])
  {
    forall t | 0 <= t < 64 ensures IsCubeFraction(K[t], PRIMES[t]) {
      var r, j := RowOf(t);
      TableAt(r, j);
      CubeRow(r);
    }
  }

  /** The initial hash is the fractions of the square roots of the first eight. */
  lemma InitialHash()
    ensures IsSquareFraction(INITIAL[0], P0[0]) && IsSquareFraction(INITIAL[1], P0[1]) && IsSquareFraction(INITIAL[2], P0[2])
    ensures IsSquareFraction(INITIAL[3], P0[3]) && IsSquareFraction(INITIAL[4], P0[4]) && IsSquareFraction(INITIAL[5], P0[5])
    ensures IsSquareFraction(INITIAL[6], P0[6]) && IsSquareFraction(INITIAL[7], P0[7])
  {
    FirstSquares();
    MiddleSquares();
    LastSquares();
  }

  lemma FirstSquares()
    ensures IsSquareFraction(INITIAL[0], P0[0]) && IsSquareFraction(INITIAL[1], P0[1]) && IsSquareFraction(INITIAL[2], P0[2])
  {
    SquareFraction(0x6a09e667, 2, 1);
    SquareFraction(0xbb67ae85, 3, 1);
    SquareFraction(0x3c6ef372, 5, 2);
  }

  lemma MiddleSquares()
    ensures IsSquareFraction(INITIAL[3], P0[3]) && IsSquareFraction(INITIAL[4], P0[4]) && IsSquareFraction(INITIAL[5], P0[5])
  {
    SquareFraction(0xa54ff53a, 7, 2);
    SquareFraction(0x510e527f, 11, 3);
    SquareFraction(0x9b05688c, 13, 3);
  }

  lemma LastSquares()
    ensures IsSquareFraction(INITIAL[6], P0[6]) && IsSquareFraction(INITIAL[7], P0[7])
  {
    SquareFraction(0x1f83d9ab, 17, 4);
    SquareFraction(0x5be0cd19, 19, 4);
  }
}
