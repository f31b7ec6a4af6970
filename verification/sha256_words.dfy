/** What the functions of SHA-256 do to the bits of a word, and their values on concrete words. */
module Sha256Words {
  import opened Bitwise
  import opened WordBits
  import opened Sha256Spec

  // ---- bit by bit ---------------------------------------------------------------------------------

  lemma NotBit(x: Word, i: nat)
    requires i < 32
    ensures Bit(Not(x), i) == 1 - Bit(x, i)
  {
    Pow2Values();
    BitNot(x, 32, i);
  }

  /** Ch chooses: y where x is set, z where it is not. */
  lemma ChBit(x: Word, y: Word, z: Word, i: nat)
    requires i < 32
    ensures Bit(Ch(x, y, z), i) == if Bit(x, i) == 1 then Bit(y, i) else Bit(z, i)
  {
    NotBit(x, i);
    BitAnd(x, y, i);
    BitAnd(Not(x), z, i);
    BitXor(And(x, y), And(Not(x), z), i);
  }

  /** Maj is set where at least two of its arguments are. */
  lemma MajBit(x: Word, y: Word, z: Word, i: nat)
    ensures Bit(Maj(x, y, z), i) == if Bit(x, i) + Bit(y, i) + Bit(z, i) >= 2 then 1 else 0
  {
    BitAnd(x, y, i);
    BitAnd(x, z, i);
    BitAnd(y, z, i);
    BitXor(And(x, y), And(x, z), i);
    BitXor(Xor(And(x, y), And(x, z)), And(y, z), i);
  }

  lemma {:induction false} Pow2Times(m: nat, n: nat)
    ensures Pow2(m) * Pow2(n) == Pow2(m + n)
  {
    if m > 0 { Pow2Times(m - 1, n); }
  }

  lemma {:induction false} ShlIsTimes(x: nat, n: nat)
    ensures Shl(x, n) == Pow2(n) * x
  {
    if n > 0 { ShlIsTimes(x, n - 1); }
  }

  lemma DivParts(lo: nat, hi: nat, p: nat)
    requires lo < p
    ensures (lo + p * hi) / p == hi
  {
    ModUnique(lo + p * hi, p, hi, lo);
    var d := (lo + p * hi) / p;
    assert p * (d - hi) == 0;
  }

  lemma PartsBound(lo: nat, hi: nat, p: nat, q: nat)
    requires lo < p && hi < q
    ensures lo + p * hi < p * q
  {
    assert p * hi <= p * (q - 1);
  }

  lemma ExchangeParts(lo: nat, hi: nat, p: nat, q: nat)
    requires lo < p && hi < q && p * q == WORD
    ensures ((lo + p * hi) / p + (lo + p * hi) * q) % WORD == hi + q * lo < WORD
  {
    var x, r := lo + p * hi, hi + q * lo;
    DivParts(lo, hi, p);
    assert x * q == lo * q + hi * (p * q);
    PartsBound(hi, lo, q, p);
    ModUnique(r + WORD * hi, WORD, hi, r);
  }

  /** The low n bits of x and the rest. */
  lemma {:induction false} Cut(x: nat, n: nat) returns (lo: nat, hi: nat)
    ensures lo < Pow2(n) && x == lo + Shl(hi, n)
  {
    if n == 0 {
      lo, hi := 0, x;
    } else {
      lo, hi := Cut(x / 2, n - 1);
      lo := 2 * lo + x % 2;
    }
  }

  lemma HighBound(lo: nat, hi: nat, p: nat, q: nat)
    requires lo + p * hi < p * q
    ensures hi < q
  {
    assert hi >= q ==> p * hi >= p * q;
  }

  /** A rotation exchanges the two parts of a word. */
  lemma RotrExchanges(x: Word, n: nat, lo: nat, hi: nat)
    requires n <= 32 && lo < Pow2(n) && x == lo + Shl(hi, n)
    ensures hi < Pow2(32 - n) && Rotr(x, n) == hi + Shl(lo, 32 - n)
  {
    ExchangeWord(x, n, Pow2(n), Pow2(32 - n), lo, hi);
  }

  lemma ExchangeWord(x: Word, n: nat, p: nat, q: nat, lo: nat, hi: nat)
    requires n <= 32 && p == Pow2(n) && q == Pow2(32 - n) && lo < p && x == lo + Shl(hi, n)
    ensures hi < q && p > 0 && (x / p + x * q) % WORD == hi + Shl(lo, 32 - n)
  {
    WholeWord(n);
    ShlIsTimes(hi, n);
    ShlIsTimes(lo, 32 - n);
    HighBound(lo, hi, p, q);
    ExchangeParts(lo, hi, p, q);
  }

  lemma WholeWord(n: nat)
    requires n <= 32
    ensures Pow2(n) * Pow2(32 - n) == WORD
  {
    Pow2Times(n, 32 - n);
    Pow2Values();
  }

  /** Bit i of a rotated word is bit i + n, around the end. */
  lemma RotrBit(x: Word, n: nat, i: nat)
    requires n <= 32 && i < 32
    ensures Bit(Rotr(x, n), i) == Bit(x, (i + n) % 32)
  {
    var lo, hi := Cut(x, n);
    RotrExchanges(x, n, lo, hi);
    ExchangedBit(x, Rotr(x, n), n, 32 - n, lo, hi, i);
    Wrapped(i, n);
  }

  lemma Wrapped(i: nat, n: nat)
    requires i < 32 && n <= 32
    ensures (i + n) % 32 == if i < 32 - n then i + n else i - (32 - n)
  {}

  lemma ExchangedBit(x: nat, r: nat, n: nat, m: nat, lo: nat, hi: nat, i: nat)
    requires i < n + m && lo < Pow2(n) && hi < Pow2(m) && x == lo + Shl(hi, n) && r == hi + Shl(lo, m)
    ensures Bit(r, i) == Bit(x, if i < m then i + n else i - m)
  {
    BitJoin(hi, lo, m, i);
    BitJoin(lo, hi, n, if i < m then i + n else i - m);
  }

  /** Bit i of a shifted word is bit i + n, and 0 past the end. */
  lemma ShiftedBit(x: Word, n: nat, i: nat)
    ensures Bit(Shifted(x, n), i) == Bit(x, i + n)
  {
    var lo, hi := Cut(x, n);
    ShiftCuts(x, n, Pow2(n), lo, hi);
    BitJoin(lo, hi, n, i + n);
  }

  lemma ShiftCuts(x: Word, n: nat, p: nat, lo: nat, hi: nat)
    requires p == Pow2(n) && lo < p && x == lo + Shl(hi, n)
    ensures p > 0 && x / p % WORD == hi
  {
    ShlIsTimes(hi, n);
    DivParts(lo, hi, p);
    ShlAtMost(hi, n);
  }

  lemma {:induction false} ShlAtMost(x: nat, n: nat)
    ensures x <= Shl(x, n)
  {
    if n > 0 { ShlAtMost(x, n - 1); }
  }

  /** Words with the same bits are equal. */
  lemma {:induction false} SameBits(x: nat, y: nat, n: nat)
    requires x < Pow2(n) && y < Pow2(n) && forall i :: 0 <= i < n ==> Bit(x, i) == Bit(y, i)
    ensures x == y
  {
    if n > 0 {
      assert Bit(x, 0) == Bit(y, 0);
      forall i | 0 <= i < n - 1 ensures Bit(x / 2, i) == Bit(y / 2, i) {
        assert Bit(x, i + 1) == Bit(y, i + 1);
      }
      SameBits(x / 2, y / 2, n - 1);
    }
  }

  /** Rotations add up. */
  lemma RotrAdd(x: Word, m: nat, n: nat)
    requires m + n <= 32
    ensures Rotr(x, m + n) == Rotr(Rotr(x, m), n)
  {
    forall i | 0 <= i < 32 ensures Bit(Rotr(x, m + n), i) == Bit(Rotr(Rotr(x, m), n), i) {
      RotrBit(x, m + n, i);
      RotrBit(Rotr(x, m), n, i);
      RotrBit(x, m, (i + n) % 32);
      Around(i, n, m);
    }
    Pow2Values();
    SameBits(Rotr(x, m + n), Rotr(Rotr(x, m), n), 32);
  }

  lemma Around(i: nat, n: nat, m: nat)
    requires i < 32 && m + n <= 32
    ensures ((i + n) % 32 + m) % 32 == (i + (m + n)) % 32
  {}

  lemma ShiftedAdd(x: Word, m: nat, n: nat)
    ensures Shifted(x, m + n) == Shifted(Shifted(x, m), n)
  {
    forall i | 0 <= i < 32 ensures Bit(Shifted(x, m + n), i) == Bit(Shifted(Shifted(x, m), n), i) {
      ShiftedBit(x, m + n, i);
      ShiftedBit(Shifted(x, m), n, i);
      ShiftedBit(x, m, i + n);
    }
    Pow2Values();
    SameBits(Shifted(x, m + n), Shifted(Shifted(x, m), n), 32);
  }

  // ---- on bit vectors -------------------------------------------------------------------------------

  function W(a: bv32): Word { Value(a) }

  lemma TurnPieces(a: bv32) returns (h: bv31, l: bv1)
    ensures a == (h as bv32 << 1) | l as bv32 && (a >> 1) | (a << 31) == h as bv32 | (l as bv32 << 31)
  {
    h, l := (a >> 1) as bv31, (a & 1) as bv1;
  }

  lemma TurnedValue(r: bv32, h: bv31, l: bv1)
    requires r == h as bv32 | (l as bv32 << 31)
    ensures r as nat == h as nat + 0x8000_0000 * (l as nat)
  {}

  lemma TurnValues(a: bv32, r: bv32) returns (hi: nat, lo: nat)
    requires r == (a >> 1) | (a << 31)
    ensures W(a) == 2 * hi + lo && lo <= 1 && W(r) == hi + 0x8000_0000 * lo
  {
    var h, l := TurnPieces(a);
    JoinedValue(a, h, l);
    TurnedValue(r, h, l);
    OneBit(l);
    hi, lo := h as nat, l as nat;
  }

  lemma Rotr1(a: bv32)
    ensures Rotr(W(a), 1) == W((a >> 1) | (a << 31))
  {
    var hi, lo := TurnValues(a, (a >> 1) | (a << 31));
    Exchange1(W(a), hi, lo);
  }

  lemma Exchange1(x: Word, hi: nat, lo: nat)
    requires x == 2 * hi + lo && lo <= 1
    ensures Rotr(x, 1) == hi + 0x8000_0000 * lo
  {
    assert Pow2(1) == 2 && Shl(hi, 1) == 2 * hi;
    RotrExchanges(x, 1, lo, hi);
    ShlIsTimes(lo, 31);
    Pow2Values();
  }

  lemma ShiftOne(x: Word, hi: nat, lo: nat)
    requires x == 2 * hi + lo && lo <= 1
    ensures Shifted(x, 1) == hi
  {
    assert Pow2(1) == 2;
  }

  lemma Shifted1(a: bv32)
    ensures Shifted(W(a), 1) == W(a >> 1)
  {
    Half(a, a >> 1);
    ShiftOne(W(a), W(a >> 1), Low(a));
  }

  lemma Rotr2(a: bv32)
    ensures Rotr(W(a), 2) == W((a >> 2) | (a << 30))
  {
    Rotr1(a);
    Rotr1((a >> 1) | (a << 31));
    RotrAdd(W(a), 1, 1);
  }

  lemma Rotr4(a: bv32)
    ensures Rotr(W(a), 4) == W((a >> 4) | (a << 28))
  {
    Rotr2(a);
    Rotr2((a >> 2) | (a << 30));
    RotrAdd(W(a), 2, 2);
  }

  lemma Rotr6(a: bv32)
    ensures Rotr(W(a), 6) == W((a >> 6) | (a << 26))
  {
    Rotr4(a);
    Rotr2((a >> 4) | (a << 28));
    RotrAdd(W(a), 4, 2);
  }

  lemma Rotr7(a: bv32)
    ensures Rotr(W(a), 7) == W((a >> 7) | (a << 25))
  {
    Rotr6(a);
    Rotr1((a >> 6) | (a << 26));
    RotrAdd(W(a), 6, 1);
  }

  lemma Rotr11(a: bv32)
    ensures Rotr(W(a), 11) == W((a >> 11) | (a << 21))
  {
    Rotr7(a);
    Rotr4((a >> 7) | (a << 25));
    RotrAdd(W(a), 7, 4);
  }

  lemma Rotr13(a: bv32)
    ensures Rotr(W(a), 13) == W((a >> 13) | (a << 19))
  {
    Rotr11(a);
    Rotr2((a >> 11) | (a << 21));
    RotrAdd(W(a), 11, 2);
  }

  lemma Rotr17(a: bv32)
    ensures Rotr(W(a), 17) == W((a >> 17) | (a << 15))
  {
    Rotr13(a);
    Rotr4((a >> 13) | (a << 19));
    RotrAdd(W(a), 13, 4);
  }

  lemma Rotr18(a: bv32)
    ensures Rotr(W(a), 18) == W((a >> 18) | (a << 14))
  {
    Rotr17(a);
    Rotr1((a >> 17) | (a << 15));
    RotrAdd(W(a), 17, 1);
  }

  lemma Rotr19(a: bv32)
    ensures Rotr(W(a), 19) == W((a >> 19) | (a << 13))
  {
    Rotr17(a);
    Rotr2((a >> 17) | (a << 15));
    RotrAdd(W(a), 17, 2);
  }

  lemma Rotr22(a: bv32)
    ensures Rotr(W(a), 22) == W((a >> 22) | (a << 10))
  {
    Rotr18(a);
    Rotr4((a >> 18) | (a << 14));
    RotrAdd(W(a), 18, 4);
  }

  lemma Rotr25(a: bv32)
    ensures Rotr(W(a), 25) == W((a >> 25) | (a << 7))
  {
    Rotr19(a);
    Rotr6((a >> 19) | (a << 13));
    RotrAdd(W(a), 19, 6);
  }

  lemma Shifted2(a: bv32)
    ensures Shifted(W(a), 2) == W(a >> 2)
  {
    Shifted1(a);
    Shifted1(a >> 1);
    ShiftedAdd(W(a), 1, 1);
  }

  lemma Shifted3(a: bv32)
    ensures Shifted(W(a), 3) == W(a >> 3)
  {
    Shifted2(a);
    Shifted1(a >> 2);
    ShiftedAdd(W(a), 2, 1);
  }

  lemma Shifted5(a: bv32)
    ensures Shifted(W(a), 5) == W(a >> 5)
  {
    Shifted3(a);
    Shifted2(a >> 3);
    ShiftedAdd(W(a), 3, 2);
  }

  lemma Shifted10(a: bv32)
    ensures Shifted(W(a), 10) == W(a >> 10)
  {
    Shifted5(a);
    Shifted5(a >> 5);
    ShiftedAdd(W(a), 5, 5);
  }

  lemma NotIs(a: bv32)
    ensures Not(W(a)) == W(!a)
  {
    var ones := 0xFFFF_FFFF as bv32;
    XorVector(a, ones);
    assert W(ones) == WORD - 1 && XorBv(a, ones) == !a;
    NotIsXor(W(a));
  }

  lemma NotIsXor(x: Word)
    ensures Not(x) == Xor(x, WORD - 1) < WORD
  {
    XorWord(x, WORD - 1);
    Pow2Values();
    forall i | 0 <= i < 32 ensures Bit(Not(x), i) == Bit(Xor(x, WORD - 1), i) {
      NotBit(x, i);
      BitXor(x, WORD - 1, i);
      NotBit(0, i);
      ZeroBit(i);
    }
    SameBits(Not(x), Xor(x, WORD - 1), 32);
  }

  lemma {:induction false} ZeroBit(i: nat)
    ensures Bit(0, i) == 0
  {
    if i > 0 { ZeroBit(i - 1); }
  }

  function Xor3(r: bv32, s: bv32, t: bv32): bv32 { XorBv(XorBv(r, s), t) }

  lemma Xor3Is(r: bv32, s: bv32, t: bv32)
    ensures XorW(XorW(W(r), W(s)), W(t)) == W(Xor3(r, s, t))
  {
    XorVector(r, s);
    XorVector(XorBv(r, s), t);
  }

  function BigSigma0Bv(a: bv32): bv32 {
    Xor3((a >> 2) | (a << 30), (a >> 13) | (a << 19), (a >> 22) | (a << 10))
  }

  lemma BigSigma0Is(a: bv32)
    ensures BigSigma0(W(a)) == W(BigSigma0Bv(a))
  {
    Rotr2(a);
    Rotr13(a);
    Rotr22(a);
    Xor3Is((a >> 2) | (a << 30), (a >> 13) | (a << 19), (a >> 22) | (a << 10));
  }

  function BigSigma1Bv(a: bv32): bv32 {
    Xor3((a >> 6) | (a << 26), (a >> 11) | (a << 21), (a >> 25) | (a << 7))
  }

  lemma BigSigma1Is(a: bv32)
    ensures BigSigma1(W(a)) == W(BigSigma1Bv(a))
  {
    Rotr6(a);
    Rotr11(a);
    Rotr25(a);
    Xor3Is((a >> 6) | (a << 26), (a >> 11) | (a << 21), (a >> 25) | (a << 7));
  }

  function SmallSigma0Bv(a: bv32): bv32 {
    Xor3((a >> 7) | (a << 25), (a >> 18) | (a << 14), a >> 3)
  }

  lemma SmallSigma0Is(a: bv32)
    ensures SmallSigma0(W(a)) == W(SmallSigma0Bv(a))
  {
    Rotr7(a);
    Rotr18(a);
    Shifted3(a);
    Xor3Is((a >> 7) | (a << 25), (a >> 18) | (a << 14), a >> 3);
  }

  function SmallSigma1Bv(a: bv32): bv32 {
    Xor3((a >> 17) | (a << 15), (a >> 19) | (a << 13), a >> 10)
  }

  lemma SmallSigma1Is(a: bv32)
    ensures SmallSigma1(W(a)) == W(SmallSigma1Bv(a))
  {
    Rotr17(a);
    Rotr19(a);
    Shifted10(a);
    Xor3Is((a >> 17) | (a << 15), (a >> 19) | (a << 13), a >> 10);
  }

  function ChBv(x: bv32, y: bv32, z: bv32): bv32 { XorBv(AndBv(x, y), AndBv(!x, z)) }

  lemma ChIs(x: bv32, y: bv32, z: bv32)
    ensures Ch(W(x), W(y), W(z)) == W(ChBv(x, y, z))
  {
    NotIs(x);
    AndVector(x, y);
    AndVector(!x, z);
    XorVector(AndBv(x, y), AndBv(!x, z));
  }

  function MajBv(x: bv32, y: bv32, z: bv32): bv32 { Xor3(AndBv(x, y), AndBv(x, z), AndBv(y, z)) }

  lemma MajIs(x: bv32, y: bv32, z: bv32)
    ensures Maj(W(x), W(y), W(z)) == W(MajBv(x, y, z))
  {
    AndVector(x, y);
    AndVector(x, z);
    AndVector(y, z);
    Xor3Is(AndBv(x, y), AndBv(x, z), AndBv(y, z));
  }
}
