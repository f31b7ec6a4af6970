/** Which CRC it is: the register over a message is the remainder of the message polynomial by the
    Castagnoli generator, and the check value of "123456789" is the one the standard gives.

    A polynomial over GF(2) is the number whose bit i is the coefficient of x^i; its sum is Xor and
    multiplication by x^n is Shl.  The register holds its remainder with the bits reversed. */
module Crc32cPolynomial {
  import opened Bitwise
  import opened Crc32c
  import opened Folds

  /** x^32 + x^28 + .. + 1, written as in RFC 3720, highest coefficient first. */
  const GENERATOR: nat := 0x1_1EDC_6F41

  /** The product of two polynomials. */
  function Times(a: nat, b: nat): nat {
    if a == 0 then 0 else Xor(2 * Times(a / 2, b), if a % 2 == 1 then b else 0)
  }

  /** The low n bits of c, in reverse order. */
  function Reverse(n: nat, c: nat): nat {
    if n == 0 then 0 else (if c % 2 == 1 then Pow2(n - 1) else 0) + Reverse(n - 1, c / 2)
  }

  /** The message: the bits of each byte enter low end first, and the first is the coefficient of
      the highest power. */
  function Message(data: seq<Byte>): nat {
    Fold(NextMessage, 0, data)
  }

  function NextMessage(m: nat, b: Byte): nat {
    Xor(Shl(m, 8), Reverse(8, b))
  }

  // ---- reversing ------------------------------------------------------------------------------------

  lemma {:induction false} ReverseBound(n: nat, c: nat)
    ensures Reverse(n, c) < Pow2(n)
  {
    if n > 0 { ReverseBound(n - 1, c / 2); }
  }

  /** Reverse, one digit at the low end of the result at a time. */
  lemma ReverseStep(n: nat, c: nat)
    requires n > 0
    ensures Reverse(n, c) == Xor(Reverse(n - 1, c / 2), Shl(c % 2, n - 1))
  {
    ReverseBound(n - 1, c / 2);
    XorDisjoint(Reverse(n - 1, c / 2), c % 2, n - 1);
    if c % 2 == 1 { ShlOne(n - 1); } else { ShlZero(n - 1); }
  }

  lemma {:induction false} ReverseXor(n: nat, a: nat, b: nat)
    ensures Reverse(n, Xor(a, b)) == Xor(Reverse(n, a), Reverse(n, b))
  {
    if n > 0 {
      XorStep(a, b);
      ReverseXor(n - 1, a / 2, b / 2);
      ReverseStep(n, Xor(a, b));
      ReverseStep(n, a);
      ReverseStep(n, b);
      ReverseDigits(Reverse(n - 1, a / 2), Reverse(n - 1, b / 2), a % 2, b % 2, n - 1);
    }
  }

  lemma ReverseDigits(x: nat, y: nat, i: nat, j: nat, k: nat)
    requires i <= 1 && j <= 1
    ensures Xor(Xor(x, y), Shl(if i == j then 0 else 1, k)) == Xor(Xor(x, Shl(i, k)), Xor(y, Shl(j, k)))
  {
    DigitXor(i, j);
    XorShl(i, j, k);
    XorSwap(x, Shl(i, k), y, Shl(j, k));
  }

  lemma DigitXor(i: nat, j: nat)
    requires i <= 1 && j <= 1
    ensures Xor(i, j) == if i == j then 0 else 1
  {
    XorStep(i, j);
  }

  /** A clear top bit is a clear low bit of the reverse. */
  lemma {:induction false} ReverseWider(n: nat, c: nat)
    requires c < Pow2(n)
    ensures Reverse(n + 1, c) == 2 * Reverse(n, c)
  {
    if n > 0 {
      ReverseWider(n - 1, c / 2);
      assert Pow2(n) == 2 * Pow2(n - 1);
    } else {
      assert Pow2(0) == 1;
    }
  }

  lemma {:induction false} ReverseShl(n: nat, m: nat, c: nat)
    requires c < Pow2(n)
    ensures Reverse(n + m, c) == Shl(Reverse(n, c), m)
  {
    if m > 0 {
      ReverseShl(n, m - 1, c);
      Pow2Mono(n, n + m - 1);
      ReverseWider(n + m - 1, c);
    }
  }

  lemma ReverseBit(n: nat, c: nat, h: nat, i: nat, p: nat)
    requires c == 2 * h + i && i <= 1 && p == Pow2(n)
    ensures Reverse(n + 1, c) == (if i == 1 then p else 0) + Reverse(n, h)
  {
    assert c % 2 == i && c / 2 == h;
  }

  /** The bits of a hexadecimal digit in reverse order. */
  function Mirrored(d: nat): nat { 8 * (d % 2) + 4 * (d / 2 % 2) + 2 * (d / 4 % 2) + d / 8 }

  lemma TwoBits(n: nat, h: nat, i: nat, j: nat, p: nat)
    requires i <= 1 && j <= 1 && p == Pow2(n)
    ensures Reverse(n + 2, 4 * h + 2 * j + i) == (if i == 1 then 2 * p else 0) + (if j == 1 then p else 0) + Reverse(n, h)
  {
    ReverseBit(n, 2 * h + j, h, j, p);
    ReverseBit(n + 1, 4 * h + 2 * j + i, 2 * h + j, i, 2 * p);
  }

  lemma DigitBits(d: nat) returns (i: nat, j: nat, k: nat, l: nat)
    requires d < 16
    ensures i <= 1 && j <= 1 && k <= 1 && l <= 1 && d == 8 * l + 4 * k + 2 * j + i && Mirrored(d) == 8 * i + 4 * j + 2 * k + l
  {
    i, j, k, l := d % 2, d / 2 % 2, d / 4 % 2, d / 8;
  }

  lemma ReverseDigit(n: nat, h: nat, d: nat)
    requires d < 16
    ensures Reverse(n + 4, 16 * h + d) == Mirrored(d) * Pow2(n) + Reverse(n, h)
  {
    var i, j, k, l := DigitBits(d);
    var p := Pow2(n);
    assert Pow2(n + 2) == 4 * p by { assert Pow2(n + 1) == 2 * p; }
    TwoBits(n + 2, 4 * h + 2 * l + k, i, j, 4 * p);
    TwoBits(n, h, k, l, p);
    FourDigits(i, j, k, l, p);
  }

  lemma FourDigits(i: nat, j: nat, k: nat, l: nat, p: nat)
    requires i <= 1 && j <= 1 && k <= 1 && l <= 1
    ensures (8 * i + 4 * j + 2 * k + l) * p ==
            (if i == 1 then 8 * p else 0) + (if j == 1 then 4 * p else 0) + (if k == 1 then 2 * p else 0) + if l == 1 then p else 0
  {}

  /** A byte with digits e and d, and the byte m of its bits in reverse order. */
  lemma ReverseByte(n: nat, c: nat, h: nat, e: nat, d: nat, m: nat, p: nat)
    requires d < 16 && e < 16 && c == 256 * h + 16 * e + d && m == 16 * Mirrored(d) + Mirrored(e) && p == Pow2(n)
    ensures Reverse(n + 8, c) == m * p + Reverse(n, h)
  {
    ReverseDigit(n, h, e);
    ReverseDigit(n + 4, 16 * h + e, d);
    assert Pow2(n + 4) == 16 * p by { assert Pow2(n + 1) == 2 * p && Pow2(n + 2) == 4 * p && Pow2(n + 3) == 8 * p; }
    Distribute(Mirrored(d), Mirrored(e), p);
  }

  lemma Distribute(a: nat, b: nat, p: nat)
    ensures (16 * a + b) * p == a * (16 * p) + b * p
  {}

  lemma MirroredDigits()
    ensures Mirrored(0x8) == 0x1 && Mirrored(0x7) == 0xE && Mirrored(0xB) == 0xD && Mirrored(0x3) == 0xC
    ensures Mirrored(0x6) == 0x6 && Mirrored(0xF) == 0xF && Mirrored(0x2) == 0x4
  {}

  /** Byte b below h goes to the top of the reverse, as m. */
  predicate GoesUp(rev: (nat, nat) -> nat, b: nat, m: nat, n: nat, h: nat) {
    rev(n + 8, 256 * h + b) == m * Pow2(n) + rev(n, h)
  }

  ghost predicate Reverses(rev: (nat, nat) -> nat, b: nat, m: nat) {
    forall n, h :: GoesUp(rev, b, m, n, h)
  }

  lemma ByteReverses(b: nat, e: nat, d: nat, m: nat)
    requires d < 16 && e < 16 && b == 16 * e + d && m == 16 * Mirrored(d) + Mirrored(e)
    ensures Reverses(Reverse, b, m)
  {
    forall n: nat, h: nat ensures GoesUp(Reverse, b, m, n, h) {
      ReverseByte(n, 256 * h + b, h, e, d, m, Pow2(n));
    }
  }

  // For any function with this property, so that the numbers are not unfolded bit by bit.
  lemma ReverseHalf(rev: (nat, nat) -> nat, n: nat, h: nat, d: nat, e: nat, d': nat, e': nat, p: nat)
    requires Reverses(rev, d, d') && Reverses(rev, e, e') && p == Pow2(n)
    ensures rev(n + 16, 256 * (256 * h + d) + e) == e' * (256 * p) + d' * p + rev(n, h)
  {
    Pow2Add(8, n);
    ShiftByte(p);
    assert GoesUp(rev, d, d', n, h) && GoesUp(rev, e, e', n + 8, 256 * h + d);
  }

  lemma ReverseWord(rev: (nat, nat) -> nat, c: nat, a: nat, b: nat, d: nat, e: nat, a': nat, b': nat, d': nat, e': nat)
    requires c == 0x100_0000 * a + 0x1_0000 * b + 0x100 * d + e && rev(0, 0) == 0
    requires Reverses(rev, a, a') && Reverses(rev, b, b') && Reverses(rev, d, d') && Reverses(rev, e, e')
    ensures rev(32, c) == 0x100_0000 * e' + 0x1_0000 * d' + 0x100 * b' + a'
  {
    Pow2Values();
    assert Pow2(0) == 1;
    ReverseHalf(rev, 16, 256 * a + b, d, e, d', e', 0x1_0000);
    ReverseHalf(rev, 0, 0, a, b, a', b', 1);
    assert 256 * (256 * (256 * a + b) + d) + e == c && 256 * (256 * 0 + a) + b == 256 * a + b;
  }

  /** The generator, reversed and without its leading coefficient, is the register's constant. */
  lemma PolyIsGenerator()
    ensures WORD + Reverse(32, POLY) == GENERATOR
  {
    MirroredDigits();
    ByteReverses(0x82, 0x8, 0x2, 0x41);
    ByteReverses(0xF6, 0xF, 0x6, 0x6F);
    ByteReverses(0x3B, 0x3, 0xB, 0xDC);
    ByteReverses(0x78, 0x7, 0x8, 0x1E);
    assert Reverse(0, 0) == 0;
    ReverseWord(Reverse, POLY, 0x82, 0xF6, 0x3B, 0x78, 0x41, 0x6F, 0xDC, 0x1E);
  }

  // ---- multiplying by x ----------------------------------------------------------------------------

  /** x * r modulo g, for r of degree at most k and g of degree k + 1. */
  function TimesX(r: nat, k: nat, g: nat): nat {
    if r >= Pow2(k) then Xor(2 * r, g) else 2 * r
  }

  /** A step of the register over one zero bit is multiplication by x. */
  lemma ReversedStep(c: nat, k: nat, poly: nat)
    requires c < Pow2(k + 1) && poly < Pow2(k + 1)
    ensures Reverse(k + 1, if c % 2 == 1 then Xor(poly, c / 2) else c / 2) ==
            TimesX(Reverse(k + 1, c), k, Pow2(k + 1) + Reverse(k + 1, poly))
  {
    var e, r := Reverse(k, c / 2), Reverse(k + 1, poly);
    ReverseBound(k, c / 2);
    ReverseBound(k + 1, poly);
    ReverseWider(k, c / 2);
    ReverseBit(k, c, c / 2, c % 2, Pow2(k));
    if c % 2 == 1 { ReverseXor(k + 1, poly, c / 2); }
    StepValue(e, r, k, c % 2);
  }

  lemma StepValue(e: nat, r: nat, k: nat, i: nat)
    requires e < Pow2(k) && r < Pow2(k + 1) && i <= 1
    ensures TimesX((if i == 1 then Pow2(k) else 0) + e, k, Pow2(k + 1) + r) == if i == 1 then Xor(r, 2 * e) else 2 * e
  {
    XorComm(r, 2 * e);
    if i == 1 { DropTop(2 * e, r, k + 1); }
  }

  lemma BitStepIsTimesX(c: nat)
    requires c < WORD
    ensures Reverse(32, BitStep(c)) == TimesX(Reverse(32, c), 31, GENERATOR)
  {
    Pow2Values();
    PolyIsGenerator();
    ReversedStep(c, 31, POLY);
  }

  // ---- division ----------------------------------------------------------------------------------------

  lemma {:induction false} TimesXor(a: nat, b: nat, g: nat)
    ensures Times(Xor(a, b), g) == Xor(Times(a, g), Times(b, g))
    decreases a + b
  {
    if a == 0 {
      XorZero(b);
      XorZero(Times(b, g));
    } else if b == 0 {
      XorZero(a);
      XorZero(Times(a, g));
    } else {
      XorStep(a, b);
      TimesXor(a / 2, b / 2, g);
      TimesStep(Xor(a, b), g);
      TimesStep(a, g);
      TimesStep(b, g);
      TimesXorStep(Times(a / 2, g), Times(b / 2, g), Part(a, g), Part(b, g), Part(Xor(a, b), g), g, a % 2, b % 2);
    }
  }

  function Part(a: nat, g: nat): nat { if a % 2 == 1 then g else 0 }

  lemma TimesStep(a: nat, g: nat)
    ensures Times(a, g) == Xor(2 * Times(a / 2, g), Part(a, g))
  {
    XorZero(0);
  }

  lemma TimesXorStep(x: nat, y: nat, p: nat, q: nat, r: nat, g: nat, i: nat, j: nat)
    requires i <= 1 && j <= 1 && p == (if i == 1 then g else 0) && q == (if j == 1 then g else 0)
    requires r == if i == j then 0 else g
    ensures Xor(2 * Xor(x, y), r) == Xor(Xor(2 * x, p), Xor(2 * y, q))
  {
    XorDoubled(x, y);
    XorSwap(2 * x, p, 2 * y, q);
    XorSelf(g);
    XorZero(g);
    XorZero(0);
  }

  lemma {:induction false} TimesShl(a: nat, m: nat, g: nat)
    ensures Times(Shl(a, m), g) == Shl(Times(a, g), m)
  {
    if m > 0 {
      TimesShl(a, m - 1, g);
      TimesStep(Shl(a, m), g);
      XorZero(2 * Times(Shl(a, m - 1), g));
    }
  }

  lemma TimesOne(g: nat)
    ensures Times(1, g) == g
  {
    TimesStep(1, g);
    assert Times(0, g) == 0;
    XorZero(g);
  }

  /** The register as a polynomial of degree at most 31. */
  function Mirror(c: nat): nat { Reverse(32, c) }

  predicate StepOk(rev: nat -> nat, c: nat) {
    c < WORD ==> BitStep(c) < WORD && rev(BitStep(c)) == TimesX(rev(c), 31, GENERATOR)
  }

  lemma {:induction false} ZeroBitsDivideBy(rev: nat -> nat, n: nat, c: nat) returns (q: nat)
    requires c < WORD && forall c :: StepOk(rev, c)
    ensures Shl(rev(c), n) == Xor(Times(q, GENERATOR), rev(Bits(n, c)))
    decreases n
  {
    if n == 0 {
      q := 0;
      XorZero(rev(c));
    } else {
      assert StepOk(rev, c);
      q := ZeroBitsDivideBy(rev, n - 1, BitStep(c));
      q := OneDivision(q, n - 1, rev(c), rev(BitStep(c)), rev(Bits(n, c)), GENERATOR);
    }
  }

  /** Advancing the register by n zero bits is division by the generator after n multiplications
      by x: there is a quotient q. */
  lemma ZeroBitsDivide(n: nat, c: nat) returns (q: nat)
    requires c < WORD
    ensures Shl(Mirror(c), n) == Xor(Times(q, GENERATOR), Mirror(Bits(n, c)))
  {
    forall c ensures StepOk(Mirror, c) { MirrorStep(c); }
    q := ZeroBitsDivideBy(Mirror, n, c);
  }

  lemma MirrorStep(c: nat)
    ensures StepOk(Mirror, c)
  {
    if c < WORD {
      BitStepIsTimesX(c);
      XorWord(POLY, c / 2);
    }
  }

  // r is multiplied by x, and the generator taken out if it must be.
  lemma OneDivision(q': nat, m: nat, r: nat, r': nat, s: nat, g: nat) returns (q: nat)
    requires r' == TimesX(r, 31, g) && Shl(r', m) == Xor(Times(q', g), s)
    ensures Shl(r, m + 1) == Xor(Times(q, g), s)
  {
    ShlAdd(r, m, 1);
    assert Shl(r, 1) == 2 * r;
    if r >= Pow2(31) {
      q := Xor(q', Shl(1, m));
      XorCancelRight(2 * r, g);
      XorShl(r', g, m);
      TimesXor(q', Shl(1, m), g);
      TimesShl(1, m, g);
      TimesOne(g);
      XorAssoc(Times(q', g), s, Shl(g, m));
      XorComm(s, Shl(g, m));
      XorAssoc(Times(q', g), Shl(g, m), s);
    } else {
      q := q';
    }
  }

  lemma XorCancelRight(a: nat, b: nat)
    ensures Xor(Xor(a, b), b) == a
  {
    XorAssoc(a, b, b);
    XorSelf(b);
    XorZero(a);
  }

  // ---- the message ----------------------------------------------------------------------------------

  lemma MirrorXor(a: nat, b: nat)
    ensures Mirror(Xor(a, b)) == Xor(Mirror(a), Mirror(b))
  {
    ReverseXor(32, a, b);
  }

  lemma MirrorByte(b: Byte)
    ensures Mirror(b) == Shl(Reverse(8, b), 24)
  {
    Pow2Values();
    ReverseShl(8, 24, b);
  }

  // x^8 times the dividend so far, plus the new byte.
  lemma NextDividend(m: nat, v: nat, r: nat, n: nat, t: nat, s: nat)
    requires Xor(Shl(m, 32), Shl(r, n)) == Xor(t, s)
    ensures Xor(Shl(Xor(Shl(m, 8), v), 32), Shl(r, n + 8)) == Xor(Shl(t, 8), Shl(Xor(s, Shl(v, 24)), 8))
  {
    XorShl(Shl(m, 8), v, 32);
    ShlAdd(m, 32, 8);
    ShlAdd(m, 8, 32);
    ShlAdd(v, 8, 24);
    ShlAdd(r, 8, n);
    XorShl(Shl(m, 32), Shl(r, n), 8);
    XorShl(t, s, 8);
    XorShl(s, Shl(v, 24), 8);
    Rearrange(Shl(Shl(m, 32), 8), Shl(v, 32), Shl(r, n + 8), Shl(t, 8), Shl(s, 8));
  }

  lemma Rearrange(a: nat, v: nat, r: nat, t: nat, s: nat)
    requires Xor(a, r) == Xor(t, s)
    ensures Xor(Xor(a, v), r) == Xor(t, Xor(s, v))
  {
    XorAssoc(a, v, r);
    XorComm(v, r);
    XorAssoc(a, r, v);
    XorAssoc(t, s, v);
  }

  /** What one byte does to the register, seen through rev. */
  ghost predicate ByteOk(rev: nat -> nat, s: nat, b: Byte) {
    s < WORD ==>
      && rev(Xor(s, b)) == Xor(rev(s), Shl(Reverse(8, b), 24))
      && exists q :: Shl(rev(Xor(s, b)), 8) == Xor(Times(q, GENERATOR), rev(CrcByte(s, b)))
  }

  /** x^32 times the message m, and the start r before n bits of it, leave the remainder y. */
  ghost predicate Leaves(m: nat, r: nat, n: nat, y: nat) {
    exists q :: Xor(Shl(m, 32), Shl(r, n)) == Xor(Times(q, GENERATOR), y)
  }

  lemma LeavesStep(rev: nat -> nat, m: nat, r: nat, n: nat, s: nat, b: Byte)
    requires s < WORD && ByteOk(rev, s, b) && Leaves(m, r, n, rev(s))
    ensures Leaves(Xor(Shl(m, 8), Reverse(8, b)), r, n + 8, rev(CrcByte(s, b)))
  {
    var q1 :| Xor(Shl(m, 32), Shl(r, n)) == Xor(Times(q1, GENERATOR), rev(s));
    var q2 :| Shl(rev(Xor(s, b)), 8) == Xor(Times(q2, GENERATOR), rev(CrcByte(s, b)));
    NextQuotient(m, Reverse(8, b), r, n, q1, q2, rev(s), rev(Xor(s, b)), rev(CrcByte(s, b)), GENERATOR);
  }

  lemma LeavesStart(r: nat)
    ensures Leaves(0, r, 0, r)
  {
    ShlZero(32);
    assert Times(0, GENERATOR) == 0;
    assert Xor(Shl(0, 32), Shl(r, 0)) == Xor(Times(0, GENERATOR), r);
  }

  ghost function LeavesFor(rev: nat -> nat, r: nat): (nat, nat, nat) -> bool {
    (m: nat, s: nat, n: nat) => s < WORD && Leaves(m, r, 8 * n, rev(s))
  }

  lemma RemainderBy(rev: nat -> nat, crc: nat, data: seq<Byte>)
    requires crc < WORD && forall s, b :: ByteOk(rev, s, b)
    ensures Leaves(Message(data), rev(crc), 8 * |data|, rev(Crc(crc, data)))
  {
    var rel := LeavesFor(rev, rev(crc));
    LeavesStart(rev(crc));
    forall m: nat, s: nat, n: nat, b: Byte ensures RelatedStep(NextMessage, CrcByte, rel, m, s, n, b) {
      if rel(m, s, n) { LeavesNext(rev, rev(crc), m, s, n, b); }
    }
    FoldRelated(NextMessage, CrcByte, rel, 0, crc, data);
  }

  lemma LeavesNext(rev: nat -> nat, r: nat, m: nat, s: nat, n: nat, b: Byte)
    requires forall s, b :: ByteOk(rev, s, b)
    requires LeavesFor(rev, r)(m, s, n)
    ensures LeavesFor(rev, r)(NextMessage(m, b), CrcByte(s, b), n + 1)
  {
    assert ByteOk(rev, s, b);
    LeavesStep(rev, m, r, 8 * n, s, b);
    assert 8 * n + 8 == 8 * (n + 1);
    XorWord(s, b);
    BitsBound(8, Xor(s, b));
  }

  /** The register over a message is the remainder of x^32 times the message polynomial, with the
      start value in front, by the generator. */
  lemma CrcIsRemainder(crc: nat, data: seq<Byte>)
    requires crc < WORD
    ensures Leaves(Message(data), Mirror(crc), 8 * |data|, Mirror(Crc(crc, data))) && Mirror(Crc(crc, data)) < WORD
  {
    forall s, b ensures ByteOk(Mirror, s, b) { ByteIsOk(s, b); }
    RemainderBy(Mirror, crc, data);
    MirrorBound(Crc(crc, data));
  }

  lemma ByteIsOk(s: nat, b: Byte)
    ensures ByteOk(Mirror, s, b)
  {
    if s < WORD {
      MirrorIn(s, b);
      XorWord(s, b);
      var q := ZeroBitsDivide(8, Xor(s, b));
    }
  }

  lemma MirrorIn(s: nat, b: Byte)
    ensures Mirror(Xor(s, b)) == Xor(Mirror(s), Shl(Reverse(8, b), 24))
  {
    MirrorXor(s, b);
    MirrorByte(b);
  }

  lemma NextQuotient(m: nat, v: nat, r: nat, n: nat, q1: nat, q2: nat, s: nat, x: nat, y: nat, g: nat)
    requires Xor(Shl(m, 32), Shl(r, n)) == Xor(Times(q1, g), s)
    requires x == Xor(s, Shl(v, 24)) && Shl(x, 8) == Xor(Times(q2, g), y)
    ensures Xor(Shl(Xor(Shl(m, 8), v), 32), Shl(r, n + 8)) == Xor(Times(Xor(Shl(q1, 8), q2), g), y)
  {
    NextDividend(m, v, r, n, Times(q1, g), s);
    TimesShl(q1, 8, g);
    TimesXor(Shl(q1, 8), q2, g);
    XorAssoc(Times(Shl(q1, 8), g), Times(q2, g), y);
  }

  lemma MirrorBound(c: nat)
    ensures Mirror(c) < WORD
  {
    Pow2Values();
    ReverseBound(32, c);
  }

  // ---- there is one remainder ----------------------------------------------------------------------------

  lemma {:induction false} TopStays(a: nat, b: nat, k: nat)
    requires b < Pow2(k) <= a
    ensures Xor(a, b) >= Pow2(k)
  {
    if k == 0 {
      XorZero(a);
    } else {
      XorStep(a, b);
      TopStays(a / 2, b / 2, k - 1);
    }
  }

  lemma {:induction false} MultipleIsLong(q: nat, g: nat, k: nat)
    requires q > 0 && Pow2(k) <= g < Pow2(k + 1)
    ensures Times(q, g) >= Pow2(k)
  {
    TimesStep(q, g);
    if q == 1 {
      TimesOne(g);
    } else {
      MultipleIsLong(q / 2, g, k);
      if q % 2 == 1 { TopStays(2 * Times(q / 2, g), g, k + 1); } else { XorZero(2 * Times(q / 2, g)); }
      assert Pow2(k + 1) == 2 * Pow2(k);
    }
  }

  /** Quotient and remainder by the generator are unique. */
  lemma RemainderIsUnique(q: nat, r: nat, q': nat, r': nat)
    requires r < WORD && r' < WORD && Xor(Times(q, GENERATOR), r) == Xor(Times(q', GENERATOR), r')
    ensures q == q' && r == r'
  {
    var t, t', d := Times(q, GENERATOR), Times(q', GENERATOR), Xor(q, q');
    Pow2Values();
    assert Pow2(33) == 2 * Pow2(32);
    TimesXor(q, q', GENERATOR);
    XorSwap(t, r, t', r');
    XorSelf(Xor(t, r));
    XorEqualIsZero(Xor(t, t'), Xor(r, r'));
    XorWord(r, r');
    if d != 0 { MultipleIsLong(d, GENERATOR, 32); }
    XorEqualIsZero(q, q');
    XorSelf(t);
    XorEqualIsZero(r, r');
  }

  lemma OneRemainder(m: nat, r: nat, n: nat, y: nat, y': nat)
    requires Leaves(m, r, n, y) && Leaves(m, r, n, y') && y < WORD && y' < WORD
    ensures y == y'
  {
    var q :| Xor(Shl(m, 32), Shl(r, n)) == Xor(Times(q, GENERATOR), y);
    var q' :| Xor(Shl(m, 32), Shl(r, n)) == Xor(Times(q', GENERATOR), y');
    RemainderIsUnique(q, y, q', y');
  }
}
