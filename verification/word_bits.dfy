/** The bits of a machine word, and the agreement of the recursive word operations with those
    of Dafny's bit vectors, which the solver evaluates on concrete words. */
module WordBits {
  import opened Bitwise

  /** Bit i of x, counted from the low end. */
  function Bit(x: nat, i: nat): (b: nat)
    ensures b <= 1
  {
    if i == 0 then x % 2 else Bit(x / 2, i - 1)
  }

  function And(x: nat, y: nat): (r: nat)
    ensures r <= x
  {
    if x == 0 then 0 else 2 * And(x / 2, y / 2) + if x % 2 == 1 && y % 2 == 1 then 1 else 0
  }

  lemma {:induction false} BitXor(x: nat, y: nat, i: nat)
    ensures Bit(Xor(x, y), i) == if Bit(x, i) == Bit(y, i) then 0 else 1
    decreases i
  {
    XorStep(x, y);
    if i > 0 { BitXor(x / 2, y / 2, i - 1); }
  }

  lemma {:induction false} BitAnd(x: nat, y: nat, i: nat)
    ensures Bit(And(x, y), i) == Bit(x, i) * Bit(y, i)
    decreases i
  {
    AndStep(x, y);
    if i > 0 { BitAnd(x / 2, y / 2, i - 1); }
  }

  lemma AndStep(x: nat, y: nat)
    ensures And(x, y) % 2 == (if x % 2 == 1 && y % 2 == 1 then 1 else 0) && And(x, y) / 2 == And(x / 2, y / 2)
  {}

  lemma {:induction false} BitNot(x: nat, n: nat, i: nat)
    requires x < Pow2(n) && i < n
    ensures Bit(Pow2(n) - 1 - x, i) == 1 - Bit(x, i)
  {
    var c := Pow2(n) - 1 - x;
    assert c % 2 == 1 - x % 2 && c / 2 == Pow2(n - 1) - 1 - x / 2;
    if i > 0 { BitNot(x / 2, n - 1, i - 1); }
  }

  /** The bits of a low part of m bits below a high part. */
  lemma {:induction false} BitJoin(lo: nat, hi: nat, m: nat, i: nat)
    requires lo < Pow2(m)
    ensures Bit(lo + Shl(hi, m), i) == if i < m then Bit(lo, i) else Bit(hi, i - m)
  {
    if m > 0 {
      var s := lo + Shl(hi, m);
      assert s % 2 == lo % 2 && s / 2 == lo / 2 + Shl(hi, m - 1);
      if i > 0 { BitJoin(lo / 2, hi, m - 1, i - 1); }
    }
  }

  // ---- bit vectors -----------------------------------------------------------------------------

  function Low(a: bv32): (i: nat)
    ensures i <= 1
  {
    if a & 1 == 1 then 1 else 0
  }

  lemma XorDigit(p: nat, q: nat, i: nat, j: nat)
    requires i <= 1 && j <= 1
    ensures Xor(2 * p + i, 2 * q + j) == 2 * Xor(p, q) + if i == j then 0 else 1
  {
    XorStep(2 * p + i, 2 * q + j);
  }

  lemma AndDigit(p: nat, q: nat, i: nat, j: nat)
    requires i <= 1 && j <= 1
    ensures And(2 * p + i, 2 * q + j) == 2 * And(p, q) + if i == 1 && j == 1 then 1 else 0
  {
    AndStep(2 * p + i, 2 * q + j);
  }

  // A vector is twice its upper 31 bits and its low bit.  Stated over the pieces, so that each
  // fact is either about vectors alone or about one conversion.
  lemma Pieces(a: bv32) returns (h: bv31, l: bv1)
    ensures h == (a >> 1) as bv31 && l == (a & 1) as bv1
    ensures a == (h as bv32 << 1) | l as bv32
  {
    h, l := (a >> 1) as bv31, (a & 1) as bv1;
  }

  lemma UpperPiece(a: bv32)
    ensures ((a >> 1) as bv31) as bv32 == a >> 1
  {}

  lemma LowPiece(a: bv32)
    ensures (a & 1) as bv1 == 1 <==> a & 1 == 1
  {}

  lemma JoinedValue(a: bv32, h: bv31, l: bv1)
    requires a == (h as bv32 << 1) | l as bv32
    ensures a as nat == 2 * (h as nat) + l as nat
  {}

  lemma WideValue(h: bv31)
    ensures (h as bv32) as nat == h as nat
  {}

  lemma OneBit(l: bv1)
    ensures l as nat == if l == 1 then 1 else 0
  {}

  lemma Halves(a: bv32, p: bv32, h: bv31, l: bv1)
    requires a == (h as bv32 << 1) | l as bv32 && p == h as bv32
    ensures a as nat == 2 * (p as nat) + if l == 1 then 1 else 0
  {
    JoinedValue(a, h, l);
    WideValue(h);
    OneBit(l);
  }

  lemma Half(a: bv32, p: bv32)
    requires p == a >> 1
    ensures a as nat == 2 * (p as nat) + Low(a)
  {
    var h, l := Pieces(a);
    UpperPiece(a);
    LowPiece(a);
    Halves(a, p, h, l);
  }

  lemma Positive(a: bv32)
    requires a != 0
    ensures a as nat > 0
  {}

  lemma Zero(a: bv32)
    requires a as nat == 0
    ensures a == 0
  {
    if a != 0 { Positive(a); }
  }

  // ---- the induction, for any type of digit strings ----------------------------------------------

  /** val reads a string of binary digits: its last digit is low, the rest is half. */
  predicate ReadsAt<T>(val: T -> nat, half: T -> T, low: T -> nat, a: T) {
    low(a) <= 1 && val(a) == 2 * val(half(a)) + low(a)
  }

  ghost predicate Reads<T(!new)>(val: T -> nat, half: T -> T, low: T -> nat) {
    forall a :: ReadsAt(val, half, low, a)
  }

  /** op works digit by digit. */
  predicate DigitwiseAt<T(==)>(val: T -> nat, half: T -> T, low: T -> nat, op: (T, T) -> T, digit: (nat, nat) -> nat, a: T, b: T) {
    && half(op(a, b)) == op(half(a), half(b)) && low(op(a, b)) == digit(low(a), low(b))
    && (val(a) == 0 && val(b) == 0 ==> val(op(a, b)) == 0)
  }

  ghost predicate Digitwise<T(!new)>(val: T -> nat, half: T -> T, low: T -> nat, op: (T, T) -> T, digit: (nat, nat) -> nat) {
    forall a, b :: DigitwiseAt(val, half, low, op, digit, a, b)
  }

  lemma {:induction false} XorStrings<T(!new)>(val: T -> nat, half: T -> T, low: T -> nat, op: (T, T) -> T, a: T, b: T)
    requires Reads(val, half, low) && Digitwise(val, half, low, op, XorOf)
    ensures Xor(val(a), val(b)) == val(op(a, b))
    decreases val(a) + val(b)
  {
    assert ReadsAt(val, half, low, a) && ReadsAt(val, half, low, b) && ReadsAt(val, half, low, op(a, b));
    assert DigitwiseAt(val, half, low, op, XorOf, a, b);
    if val(a) != 0 || val(b) != 0 {
      XorStrings(val, half, low, op, half(a), half(b));
      XorDigit(val(half(a)), val(half(b)), low(a), low(b));
    }
  }

  lemma {:induction false} AndStrings<T(!new)>(val: T -> nat, half: T -> T, low: T -> nat, op: (T, T) -> T, a: T, b: T)
    requires Reads(val, half, low) && Digitwise(val, half, low, op, AndOf)
    ensures And(val(a), val(b)) == val(op(a, b))
    decreases val(a) + val(b)
  {
    assert ReadsAt(val, half, low, a) && ReadsAt(val, half, low, b) && ReadsAt(val, half, low, op(a, b));
    assert DigitwiseAt(val, half, low, op, AndOf, a, b);
    if val(a) != 0 || val(b) != 0 {
      AndStrings(val, half, low, op, half(a), half(b));
      AndDigit(val(half(a)), val(half(b)), low(a), low(b));
    }
  }

  function XorOf(i: nat, j: nat): nat { if i == j then 0 else 1 }

  function AndOf(i: nat, j: nat): nat { if i == 1 && j == 1 then 1 else 0 }

  // ---- words -----------------------------------------------------------------------------------------

  function Value(a: bv32): (n: nat)
    ensures n < WORD
  {
    a as nat
  }

  function Upper(a: bv32): bv32 { a >> 1 }

  function XorBv(a: bv32, b: bv32): bv32 { a ^ b }

  function AndBv(a: bv32, b: bv32): bv32 { a & b }

  lemma VectorsRead()
    ensures Reads(Value, Upper, Low)
  {
    forall a: bv32 ensures ReadsAt(Value, Upper, Low, a) { Half(a, a >> 1); }
  }

  lemma UpperOps(a: bv32, b: bv32)
    ensures Upper(XorBv(a, b)) == XorBv(Upper(a), Upper(b)) && Upper(AndBv(a, b)) == AndBv(Upper(a), Upper(b))
  {}

  lemma LowXor(a: bv32, b: bv32)
    ensures Low(XorBv(a, b)) == XorOf(Low(a), Low(b))
  {}

  lemma LowAnd(a: bv32, b: bv32)
    ensures Low(AndBv(a, b)) == AndOf(Low(a), Low(b))
  {}

  lemma ZeroOps(a: bv32, b: bv32)
    ensures Value(a) == 0 && Value(b) == 0 ==> Value(XorBv(a, b)) == 0 && Value(AndBv(a, b)) == 0
  {
    if Value(a) == 0 && Value(b) == 0 {
      Zero(a);
      Zero(b);
    }
  }

  lemma VectorXor(a: bv32, b: bv32)
    ensures DigitwiseAt(Value, Upper, Low, XorBv, XorOf, a, b)
  {
    UpperOps(a, b);
    LowXor(a, b);
    ZeroOps(a, b);
  }

  lemma VectorAnd(a: bv32, b: bv32)
    ensures DigitwiseAt(Value, Upper, Low, AndBv, AndOf, a, b)
  {
    UpperOps(a, b);
    LowAnd(a, b);
    ZeroOps(a, b);
  }

  /** On words the recursive operations are those of the vectors. */
  lemma XorVector(a: bv32, b: bv32)
    ensures Xor(Value(a), Value(b)) == Value(XorBv(a, b))
  {
    VectorsRead();
    forall a: bv32, b: bv32 ensures DigitwiseAt(Value, Upper, Low, XorBv, XorOf, a, b) { VectorXor(a, b); }
    XorStrings(Value, Upper, Low, XorBv, a, b);
  }

  lemma AndVector(a: bv32, b: bv32)
    ensures And(Value(a), Value(b)) == Value(AndBv(a, b))
  {
    VectorsRead();
    forall a: bv32, b: bv32 ensures DigitwiseAt(Value, Upper, Low, AndBv, AndOf, a, b) { VectorAnd(a, b); }
    AndStrings(Value, Upper, Low, AndBv, a, b);
  }
}
