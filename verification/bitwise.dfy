/** Exclusive or on unsigned machine words, modelled as naturals: the GF(2) vector
    space the CRC register lives in.  `x >> k` and `x & (2^k - 1)` are `x / 2^k` and
    `x % 2^k`. */
module Bitwise {

  type Byte = n: nat | n < 256

  const WORD: nat := 0x1_0000_0000

  function Zeros(n: nat): seq<Byte> { seq(n, _ => 0) }

  function Xor(a: nat, b: nat): nat {
    if a == 0 && b == 0 then 0
    else (if a % 2 == b % 2 then 0 else 1) + 2 * Xor(a / 2, b / 2)
  }

  function Pow2(n: nat): (r: nat)
    ensures r > 0
  {
    if n == 0 then 1 else 2 * Pow2(n - 1)
  }

  // ---- group laws -------------------------------------------------------------

  lemma XorStep(a: nat, b: nat)
    ensures Xor(a, b) % 2 == if a % 2 == b % 2 then 0 else 1
    ensures Xor(a, b) / 2 == Xor(a / 2, b / 2)
  {}

  lemma {:induction false} XorComm(a: nat, b: nat)
    ensures Xor(a, b) == Xor(b, a)
  {
    if a != 0 || b != 0 { XorComm(a / 2, b / 2); }
  }

  lemma {:induction false} XorZero(a: nat)
    ensures Xor(a, 0) == a && Xor(0, a) == a
  {
    if a != 0 { XorZero(a / 2); }
  }

  lemma {:induction false} XorSelf(a: nat)
    ensures Xor(a, a) == 0
  {
    if a != 0 { XorSelf(a / 2); }
  }

  lemma {:induction false} XorAssoc(a: nat, b: nat, c: nat)
    ensures Xor(Xor(a, b), c) == Xor(a, Xor(b, c))
    decreases a + b + c
  {
    if a != 0 || b != 0 || c != 0 {
      var l, r := Xor(Xor(a, b), c), Xor(a, Xor(b, c));
      XorStep(a, b);
      XorStep(b, c);
      XorStep(Xor(a, b), c);
      XorStep(a, Xor(b, c));
      XorAssoc(a / 2, b / 2, c / 2);
      SameHalves(l, r);
    } else {
      XorZero(0);
    }
  }

  lemma SameHalves(x: nat, y: nat)
    requires x % 2 == y % 2 && x / 2 == y / 2
    ensures x == y
  {}

  lemma XorSwap(a: nat, b: nat, c: nat, d: nat)
    ensures Xor(Xor(a, b), Xor(c, d)) == Xor(Xor(a, c), Xor(b, d))
  {
    XorAssoc(a, b, Xor(c, d));
    XorAssoc(b, c, d);
    XorComm(b, c);
    XorAssoc(c, b, d);
    XorAssoc(a, c, Xor(b, d));
  }

  lemma Regroup(a: nat, b: nat, c: nat, d: nat)
    ensures Xor(Xor(Xor(a, b), c), d) == Xor(a, Xor(b, Xor(c, d)))
  {
    XorAssoc(a, b, Xor(c, d));
    XorAssoc(Xor(a, b), c, d);
  }

  lemma XorCancel(p: nat, a: nat, b: nat)
    ensures Xor(Xor(p, a), Xor(p, b)) == Xor(a, b)
  {
    XorSwap(p, a, p, b);
    XorSelf(p);
    XorZero(Xor(a, b));
  }

  lemma {:induction false} XorEqualIsZero(a: nat, b: nat)
    requires Xor(a, b) == 0
    ensures a == b
  {
    if a != 0 || b != 0 {
      XorStep(a, b);
      XorEqualIsZero(a / 2, b / 2);
    }
  }

  // ---- positions --------------------------------------------------------------

  function Shl(x: nat, k: nat): nat {
    if k == 0 then x else 2 * Shl(x, k - 1)
  }

  function Shr(x: nat, k: nat): nat {
    if k == 0 then x else Shr(x / 2, k - 1)
  }

  lemma {:induction false} XorBound(a: nat, b: nat, k: nat)
    requires a < Pow2(k) && b < Pow2(k)
    ensures Xor(a, b) < Pow2(k)
  {
    if k > 0 && (a != 0 || b != 0) {
      XorBound(a / 2, b / 2, k - 1);
    }
  }

  lemma XorWord(a: nat, b: nat)
    requires a < WORD && b < WORD
    ensures Xor(a, b) < WORD
  {
    Pow2Values();
    XorBound(a, b, 32);
  }

  lemma {:induction false} XorShl(a: nat, b: nat, k: nat)
    ensures Xor(Shl(a, k), Shl(b, k)) == Shl(Xor(a, b), k)
  {
    if k > 0 {
      XorShl(a, b, k - 1);
      XorDoubled(Shl(a, k - 1), Shl(b, k - 1));
    }
  }

  lemma XorDoubled(a: nat, b: nat)
    ensures Xor(2 * a, 2 * b) == 2 * Xor(a, b)
  {
    XorStep(2 * a, 2 * b);
  }

  lemma {:induction false} XorShr(a: nat, b: nat, k: nat)
    ensures Shr(Xor(a, b), k) == Xor(Shr(a, k), Shr(b, k))
  {
    if k > 0 {
      XorStep(a, b);
      XorShr(a / 2, b / 2, k - 1);
    }
  }

  /** Low and high parts that do not overlap add up. */
  lemma {:induction false} XorDisjoint(lo: nat, hi: nat, k: nat)
    requires lo < Pow2(k)
    ensures Xor(lo, Shl(hi, k)) == lo + Shl(hi, k)
  {
    if k == 0 {
      XorZero(hi);
    } else {
      XorDisjoint(lo / 2, hi, k - 1);
      XorDouble(lo, Shl(hi, k - 1));
    }
  }

  lemma XorDouble(lo: nat, x: nat)
    ensures Xor(lo, 2 * x) == 2 * Xor(lo / 2, x) + lo % 2
  {
    XorStep(lo, 2 * x);
  }

  lemma {:induction false} ShlZero(n: nat)
    ensures Shl(0, n) == 0
  {
    if n > 0 { ShlZero(n - 1); }
  }

  lemma {:induction false} ShlOne(n: nat)
    ensures Shl(1, n) == Pow2(n)
  {
    if n > 0 { ShlOne(n - 1); }
  }

  /** Two numbers with the same top bit. */
  lemma DropTop(a: nat, b: nat, k: nat)
    requires a < Pow2(k) && b < Pow2(k)
    ensures Xor(a + Pow2(k), b + Pow2(k)) == Xor(a, b)
  {
    ShlOne(k);
    XorDisjoint(a, 1, k);
    XorDisjoint(b, 1, k);
    XorCancelled(a, b, Shl(1, k));
  }

  lemma XorCancelled(a: nat, b: nat, h: nat)
    ensures Xor(Xor(a, h), Xor(b, h)) == Xor(a, b)
  {
    XorSwap(a, h, b, h);
    XorSelf(h);
    XorZero(Xor(a, b));
  }

  lemma {:induction false} ShlAtLeast(x: nat, n: nat)
    requires x > 0
    ensures Shl(x, n) >= Pow2(n)
  {
    if n > 0 { ShlAtLeast(x, n - 1); }
  }

  lemma {:induction false} ShlAdd(x: nat, m: nat, n: nat)
    ensures Shl(x, m + n) == Shl(Shl(x, n), m)
  {
    if m > 0 { ShlAdd(x, m - 1, n); }
  }

  lemma ShiftByte(x: nat)
    ensures Shl(x, 8) == 256 * x && Shr(x, 8) == x / 256
  {
    Shift4(x);
    ShlAdd(x, 4, 4);
    Shift4(16 * x);
    ShrAdd(x, 4, 4);
    Shift4(x / 16);
  }

  lemma {:induction false} ShrAdd(x: nat, m: nat, n: nat)
    ensures Shr(x, m + n) == Shr(Shr(x, m), n)
  {
    if m > 0 { ShrAdd(x / 2, m - 1, n); }
  }

  lemma Shift4(x: nat)
    ensures Shl(x, 4) == 16 * x && Shr(x, 4) == x / 16
  {
    assert Shl(x, 1) == 2 * x;
    assert Shl(x, 2) == 4 * x;
    assert Shl(x, 3) == 8 * x;
    assert Shr(x, 4) == Shr(x / 2, 3) == Shr(x / 4, 2);
    assert Shr(x / 4, 2) == Shr(x / 8, 1);
  }

  lemma ShiftBytes(x: nat)
    ensures Shl(x, 8) == 0x100 * x && Shl(x, 16) == 0x1_0000 * x && Shl(x, 24) == 0x100_0000 * x
  {
    ShiftByte(x);
    ShlAdd(x, 8, 8);
    ShiftByte(0x100 * x);
    ShlAdd(x, 8, 16);
    ShiftByte(0x1_0000 * x);
  }

  /** Xoring a byte into a word leaves the other bytes alone. */
  lemma XorByteHigh(x: nat, b: Byte)
    ensures Xor(x, b) / 256 == x / 256
  {
    XorShr(x, b, 8);
    ShiftByte(Xor(x, b));
    ShiftByte(x);
    ShiftByte(b);
    XorZero(x / 256);
  }

  lemma LowHigh(lo: Byte, hi: nat)
    ensures Xor(lo, 256 * hi) == lo as nat + 256 * hi
  {
    Pow2Values();
    XorDisjoint(lo, hi, 8);
    ShiftByte(hi);
  }

  lemma {:induction false} Pow2Add(m: nat, n: nat)
    ensures Pow2(m + n) == Shl(Pow2(n), m)
  {
    if m > 0 { Pow2Add(m - 1, n); }
  }

  lemma {:induction false} Pow2Mono(m: nat, n: nat)
    requires m <= n
    ensures Pow2(m) <= Pow2(n) && (m < n ==> Pow2(m) < Pow2(n))
  {
    if m < n { Pow2Mono(m, n - 1); }
  }

  lemma Pow2Values()
    ensures Pow2(8) == 0x100 && Pow2(16) == 0x1_0000 && Pow2(24) == 0x100_0000
    ensures Pow2(31) == 0x8000_0000 && Pow2(32) == WORD
  {
    Pow2Add(8, 8);
    ShiftByte(Pow2(8));
    Pow2Add(8, 16);
    ShiftByte(Pow2(16));
    Pow2Add(8, 24);
    ShiftByte(Pow2(24));
    assert Pow2(7) == 128;
    assert Pow2(8) == 256;
  }
}
