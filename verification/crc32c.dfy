/** CRC-32C: the bit-serial definition of the register, its GF(2) linearity and the
    error bursts it always detects.

    `Crc` advances the internal (complemented) register; `Update` adds the init and
    xorout complement of the public interface. */
module Crc32c {
  import opened Bitwise
  import opened Folds

  // The Castagnoli polynomial 0x1EDC6F41, bit-reflected.
  const POLY: nat := 0x82F63B78

  /** The register advanced over one zero bit. */
  function BitStep(c: nat): nat {
    if c % 2 == 1 then Xor(POLY, c / 2) else c / 2
  }

  /** The register advanced over n zero bits. */
  function Bits(n: nat, c: nat): nat
    decreases n, c
  {
    if n == 0 then c else Bits(n - 1, BitStep(c))
  }

  /** One input byte: its bits enter least significant first. */
  function CrcByte(crc: nat, b: Byte): nat {
    Bits(8, Xor(crc, b))
  }

  /** The byte-at-a-time CRC of `data`, starting from register `crc`. */
  function Crc(crc: nat, data: seq<Byte>): nat {
    Fold(CrcByte, crc, data)
  }

  function Complement(c: nat): nat
    requires c < WORD
  {
    WORD - 1 - c
  }

  /** The incremental public interface: `state` is 0 for a fresh checksum. */
  function Update(state: nat, data: seq<Byte>): (r: nat)
    requires state < WORD
    ensures r < WORD
  {
    CrcBound(Complement(state), data);
    Complement(Crc(Complement(state), data))
  }

  // ---- the register stays a 32-bit word ---------------------------------------

  lemma {:induction false} BitsBound(n: nat, c: nat)
    requires c < WORD
    ensures Bits(n, c) < WORD
  {
    if n > 0 {
      XorWord(POLY, c / 2);
      BitsBound(n - 1, BitStep(c));
    }
  }

  lemma {:induction false} CrcBound(crc: nat, data: seq<Byte>)
    requires crc < WORD
    ensures Crc(crc, data) < WORD
  {
    if data != [] {
      var front := data[..|data| - 1];
      CrcBound(crc, front);
      XorWord(Crc(crc, front), data[|data| - 1]);
      BitsBound(8, Xor(Crc(crc, front), data[|data| - 1]));
    }
  }

  // ---- chunking -----------------------------------------------------------------

  lemma CrcConcat(crc: nat, a: seq<Byte>, b: seq<Byte>)
    ensures Crc(crc, a + b) == Crc(Crc(crc, a), b)
  {
    FoldConcat(CrcByte, crc, a, b);
  }

  /** Chunking is transparent: any split of the data gives the same checksum. */
  lemma UpdateConcat(state: nat, a: seq<Byte>, b: seq<Byte>)
    requires state < WORD
    ensures Update(Update(state, a), b) == Update(state, a + b)
    ensures Update(state, []) == state
  {
    CrcConcat(Complement(state), a, b);
  }

  lemma CrcSnoc(crc: nat, a: seq<Byte>, b: Byte)
    ensures Crc(crc, a + [b]) == CrcByte(Crc(crc, a), b)
  {
    assert (a + [b])[..|a|] == a;
  }

  // ---- linearity ----------------------------------------------------------------

  lemma BitStepLinear(a: nat, b: nat)
    ensures BitStep(Xor(a, b)) == Xor(BitStep(a), BitStep(b))
  {
    XorStep(a, b);
    if a % 2 == 1 {
      if b % 2 == 1 {
        XorCancel(POLY, a / 2, b / 2);
      } else {
        XorAssoc(POLY, a / 2, b / 2);
      }
    } else if b % 2 == 1 {
      XorComm(a / 2, Xor(POLY, b / 2));
      XorAssoc(POLY, b / 2, a / 2);
      XorComm(a / 2, b / 2);
    }
  }

  lemma {:induction false} BitsLinear(n: nat, a: nat, b: nat)
    ensures Bits(n, Xor(a, b)) == Xor(Bits(n, a), Bits(n, b))
  {
    if n > 0 {
      BitStepLinear(a, b);
      BitsLinear(n - 1, BitStep(a), BitStep(b));
    }
  }

  lemma {:induction false} BitsZero(n: nat)
    ensures Bits(n, 0) == 0
  {
    if n > 0 { BitsZero(n - 1); }
  }

  lemma {:induction false} BitsAdd(m: nat, n: nat, c: nat)
    ensures Bits(m + n, c) == Bits(n, Bits(m, c))
  {
    if m > 0 { BitsAdd(m - 1, n, BitStep(c)); }
  }

  function XorBytes(a: seq<Byte>, b: seq<Byte>): (r: seq<Byte>)
    requires |a| == |b|
    ensures |r| == |a|
  {
    seq(|a|, i requires 0 <= i < |a| => ByteXor(a[i], b[i]))
  }

  function ByteXor(a: Byte, b: Byte): Byte {
    Pow2Values();
    XorBound(a, b, 8);
    Xor(a, b)
  }

  /** The register is linear in the pair (start, data). */
  lemma {:induction false} CrcXor(r: nat, s: nat, a: seq<Byte>, b: seq<Byte>)
    requires |a| == |b|
    ensures Crc(Xor(r, s), XorBytes(a, b)) == Xor(Crc(r, a), Crc(s, b))
  {
    if a != [] {
      var n := |a| - 1;
      CrcXor(r, s, a[..n], b[..n]);
      assert XorBytes(a, b)[..n] == XorBytes(a[..n], b[..n]);
      var x, y := Crc(r, a[..n]), Crc(s, b[..n]);
      XorSwap(x, y, a[n], b[n]);
      BitsLinear(8, Xor(x, a[n]), Xor(y, b[n]));
    }
  }

  lemma {:induction false} CrcZeros(crc: nat, n: nat)
    ensures Crc(crc, Zeros(n)) == Bits(8 * n, crc)
  {
    if n > 0 {
      assert Zeros(n)[..n - 1] == Zeros(n - 1);
      CrcZeros(crc, n - 1);
      BitsAdd(8 * (n - 1), 8, crc);
      XorZero(Bits(8 * (n - 1), crc));
    }
  }

  /** Advancing r over D is advancing r over |D| zero bytes, xor advancing 0 over D. */
  lemma CrcSplit(r: nat, data: seq<Byte>)
    ensures Crc(r, data) == Xor(Bits(8 * |data|, r), Crc(0, data))
  {
    var z := Zeros(|data|);
    CrcXor(r, 0, z, data);
    CrcZeros(r, |data|);
    forall i | 0 <= i < |data| ensures XorBytes(z, data)[i] == data[i] {
      XorZero(data[i]);
    }
    assert XorBytes(z, data) == data;
    XorZero(r);
  }

  // ---- low bytes and words --------------------------------------------------------

  lemma {:induction false} BitsShl(n: nat, x: nat)
    ensures Bits(n, Shl(x, n)) == x
  {
    if n > 0 { BitsShl(n - 1, x); }
  }

  /** Eight zero bits mix the low byte into the rest, shifted down. */
  lemma Bits8(x: nat)
    ensures Bits(8, x) == Xor(Bits(8, x % 256), x / 256)
  {
    LowHigh(x % 256, x / 256);
    BitsLinear(8, x % 256, 256 * (x / 256));
    BitsShl(8, x / 256);
    ShiftByte(x / 256);
  }

  /** The little-endian integer of some bytes. */
  function Le(d: seq<Byte>): nat {
    if d == [] then 0 else d[0] as nat + 256 * Le(d[1..])
  }

  /** The n low bytes of an integer, low end first. */
  function LeBytes(v: nat, n: nat): (d: seq<Byte>)
    ensures |d| == n
  {
    if n == 0 then [] else [v % 256] + LeBytes(v / 256, n - 1)
  }

  lemma {:induction false} LeBytesOfLe(d: seq<Byte>)
    ensures LeBytes(Le(d), |d|) == d
  {
    if d != [] {
      LeBytesOfLe(d[1..]);
      assert Le(d) % 256 == d[0] && Le(d) / 256 == Le(d[1..]);
    }
  }

  /** Any number of bytes may enter the register as one little-endian integer. */
  lemma {:induction false} CrcLe(crc: nat, d: seq<Byte>)
    ensures Crc(crc, d) == Bits(8 * |d|, Xor(crc, Le(d)))
    decreases |d|
  {
    if d == [] {
      XorZero(crc);
    } else {
      var b, t := d[0], d[1..];
      CrcCons(crc, d);
      CrcLe(CrcByte(crc, b), t);
      PushByte(8 * |t|, crc, b, Le(t));
      assert 8 * |t| + 8 == 8 * |d| && b as nat + 256 * Le(t) == Le(d);
    }
  }

  lemma CrcCons(crc: nat, d: seq<Byte>)
    requires d != []
    ensures Crc(crc, d) == Crc(CrcByte(crc, d[0]), d[1..])
  {
    assert d == [d[0]] + d[1..];
    CrcConcat(crc, [d[0]], d[1..]);
    CrcSnoc(crc, [], d[0]);
  }

  // A byte and then an integer y entering the register, or both as one integer.
  lemma PushByte(n: nat, crc: nat, b: Byte, y: nat)
    ensures Bits(n, Xor(CrcByte(crc, b), y)) == Bits(n + 8, Xor(crc, b as nat + 256 * y))
  {
    var x := Xor(crc, b);
    BitsLinear(8, x, 256 * y);
    BitsShl(8, y);
    ShiftByte(y);
    XorAssoc(crc, b, 256 * y);
    LowHigh(b, y);
    BitsAdd(8, n, Xor(x, 256 * y));
  }

  lemma {:induction false} LeBound(d: seq<Byte>)
    ensures Le(d) < Pow2(8 * |d|)
  {
    if d != [] {
      LeBound(d[1..]);
      Pow2Add(8, 8 * |d[1..]|);
      ShiftByte(Pow2(8 * |d[1..]|));
    }
  }

  lemma {:induction false} LeInjective(a: seq<Byte>, b: seq<Byte>)
    requires |a| == |b| && Le(a) == Le(b)
    ensures a == b
  {
    if a != [] {
      LeInjective(a[1..], b[1..]);
      assert a == [a[0]] + a[1..] && b == [b[0]] + b[1..];
    }
  }

  // ---- bursts ---------------------------------------------------------------------

  /** No non-zero 32-bit register is lost: the zero-bit step is injective. */
  lemma {:induction false} BitsNonZero(n: nat, c: nat)
    requires 0 < c < WORD
    ensures 0 < Bits(n, c) < WORD
  {
    if n > 0 {
      if c % 2 == 1 {
        XorWord(POLY, c / 2);
        if Xor(POLY, c / 2) == 0 { XorEqualIsZero(POLY, c / 2); }
      }
      BitsNonZero(n - 1, BitStep(c));
    }
  }

  lemma WindowDiffers(r: nat, a: seq<Byte>, b: seq<Byte>)
    requires |a| == |b| <= 4 && a != b
    ensures 0 < Xor(Crc(r, a), Crc(r, b)) < WORD
  {
    var wa, wb, n := Le(a), Le(b), 8 * |a|;
    CrcLe(r, a);
    CrcLe(r, b);
    BitsLinear(n, Xor(r, wa), Xor(r, wb));
    XorCancel(r, wa, wb);
    LeWord(a);
    LeWord(b);
    XorWord(wa, wb);
    if Xor(wa, wb) == 0 {
      XorEqualIsZero(wa, wb);
      LeInjective(a, b);
    }
    BitsNonZero(n, Xor(wa, wb));
  }

  lemma LeWord(d: seq<Byte>)
    requires |d| <= 4
    ensures Le(d) < WORD
  {
    LeBound(d);
    Pow2Values();
    assert 8 * |d| in {0, 8, 16, 24, 32};
    assert Pow2(0) == 1;
  }

  /** The difference one window makes to the register, whatever surrounds it. */
  lemma WindowDifference(crc: nat, pre: seq<Byte>, a: seq<Byte>, b: seq<Byte>, post: seq<Byte>)
    requires |a| == |b|
    ensures Xor(Crc(crc, pre + a + post), Crc(crc, pre + b + post)) == Bits(8 * |post|, Crc(0, XorBytes(a, b)))
  {
    var r := Crc(crc, pre);
    CrcConcat(crc, pre + a, post);
    CrcConcat(crc, pre, a);
    CrcConcat(crc, pre + b, post);
    CrcConcat(crc, pre, b);
    CrcXor(r, r, a, b);
    XorSelf(r);
    PostDifference(Crc(r, a), Crc(r, b), post);
  }

  lemma PostDifference(x: nat, y: nat, post: seq<Byte>)
    ensures Xor(Crc(x, post), Crc(y, post)) == Bits(8 * |post|, Xor(x, y))
  {
    var n, p := 8 * |post|, Crc(0, post);
    CrcSplit(x, post);
    CrcSplit(y, post);
    BitsLinear(n, x, y);
    XorSwap(Bits(n, x), p, Bits(n, y), p);
    XorSelf(p);
    XorZero(Xor(Bits(n, x), Bits(n, y)));
  }

  /** Exactly when replacing one window leaves the CRC as it was: the difference, run from an
      empty register, must leave it empty. */
  lemma WindowUndetected(crc: nat, pre: seq<Byte>, a: seq<Byte>, b: seq<Byte>, post: seq<Byte>)
    requires |a| == |b|
    ensures Crc(crc, pre + a + post) == Crc(crc, pre + b + post) <==> Crc(0, XorBytes(a, b)) == 0
  {
    var x, y, d := Crc(crc, pre + a + post), Crc(crc, pre + b + post), Crc(0, XorBytes(a, b));
    WindowDifference(crc, pre, a, b, post);
    CrcBound(0, XorBytes(a, b));
    if d == 0 {
      BitsZero(8 * |post|);
      XorEqualIsZero(x, y);
    } else {
      BitsNonZero(8 * |post|, d);
      XorSelf(x);
    }
  }

  /** A difference of 1 to 32 bits, at any bit of any byte, is not lost. */
  lemma BurstSurvives(d: seq<Byte>, burst: nat, offset: nat)
    requires Le(d) == Shl(burst, offset) && 0 < burst < WORD
    ensures Crc(0, d) != 0
  {
    var n := 8 * |d|;
    CrcLe(0, d);
    XorZero(Le(d));
    LeBound(d);
    ShlAtLeast(burst, offset);
    if offset > n { Pow2Mono(n, offset); }
    BitsAdd(offset, n - offset, Shl(burst, offset));
    BitsShl(offset, burst);
    BitsNonZero(n - offset, burst);
  }

  /** Data that differ only inside one stretch of 32 bits, at any bit offset, have different CRCs:
      the difference of the two windows, as a little-endian integer, is a non-zero word shifted
      to the first bit that differs. */
  lemma BurstDetected(crc: nat, pre: seq<Byte>, a: seq<Byte>, b: seq<Byte>, post: seq<Byte>, burst: nat, offset: nat)
    requires |a| == |b| && Le(XorBytes(a, b)) == Shl(burst, offset) && 0 < burst < WORD
    ensures Crc(crc, pre + a + post) != Crc(crc, pre + b + post)
  {
    BurstSurvives(XorBytes(a, b), burst, offset);
    WindowUndetected(crc, pre, a, b, post);
  }

  /** In particular any change inside four bytes is detected. */
  lemma ShortWindowDetected(crc: nat, pre: seq<Byte>, a: seq<Byte>, b: seq<Byte>, post: seq<Byte>)
    requires |a| == |b| <= 4 && a != b
    ensures Crc(crc, pre + a + post) != Crc(crc, pre + b + post)
  {
    WindowDiffers(0, a, b);
    CrcXor(0, 0, a, b);
    XorSelf(0);
    WindowUndetected(crc, pre, a, b, post);
  }

  // ---- the register runs backwards ----------------------------------------------------------------

  /** The register before one zero bit. */
  function UnStep(c: nat): nat {
    if c >= 0x8000_0000 then 2 * Xor(POLY, c) + 1 else 2 * c
  }

  function UnBits(n: nat, c: nat): nat {
    if n == 0 then c else UnStep(UnBits(n - 1, c))
  }

  lemma UnStepInverse(c: nat)
    requires c < WORD
    ensures UnStep(c) < WORD && BitStep(UnStep(c)) == c
  {
    if c >= 0x8000_0000 {
      var p, a := POLY - 0x8000_0000, c - 0x8000_0000;
      Pow2Values();
      TopBits(p, a, 31);
      XorCancelLeft(POLY, c);
    }
  }

  lemma TopBits(p: nat, a: nat, k: nat)
    requires p < Pow2(k) && a < Pow2(k)
    ensures Xor(p + Pow2(k), a + Pow2(k)) < Pow2(k)
  {
    DropTop(p, a, k);
    XorBound(p, a, k);
  }

  lemma XorCancelLeft(a: nat, b: nat)
    ensures Xor(a, Xor(a, b)) == b
  {
    XorAssoc(a, a, b);
    XorSelf(a);
    XorZero(b);
  }

  lemma {:induction false} UnBitsInverse(n: nat, c: nat)
    requires c < WORD
    ensures UnBits(n, c) < WORD && Bits(n, UnBits(n, c)) == c
  {
    if n > 0 {
      UnBitsInverse(n - 1, c);
      UnStepInverse(UnBits(n - 1, c));
    }
  }

  /** The four bytes that take the register from s to t. */
  function Bridge(s: nat, t: nat): (d: seq<Byte>)
    ensures |d| == 4
  {
    LeBytes(Xor(s, UnBits(32, t)), 4)
  }

  lemma BridgeConnects(s: nat, t: nat)
    requires s < WORD && t < WORD
    ensures Crc(s, Bridge(s, t)) == t
  {
    var u := UnBits(32, t);
    UnBitsInverse(32, t);
    XorWord(s, u);
    Pow2Values();
    BridgeNumber(Xor(s, u), 4);
    CrcLe(s, Bridge(s, t));
    XorCancelLeft(s, u);
  }

  // The width is a parameter, not a literal, so that LeBytes is not unrolled.
  lemma BridgeNumber(v: nat, w: nat)
    requires v < WORD && w == 4
    ensures Le(LeBytes(v, w)) == v
  {
    Pow2Values();
    LeOfLeBytes(v, w);
  }

  /** A difference of 33 bits can be lost: the generator itself, in five bytes or more. */
  lemma GeneratorVanishes(n: nat)
    requires n >= 5
    ensures Crc(0, LeBytes(2 * POLY + 1, n)) == 0
  {
    var v := 2 * POLY + 1;
    CrcLe(0, LeBytes(v, n));
    Pow2Values();
    assert Pow2(33) == 2 * Pow2(32);
    Pow2Mono(33, 8 * n);
    LeOfLeBytes(v, n);
    XorZero(v);
    XorSelf(POLY);
    assert BitStep(v) == 0;
    BitsAdd(1, 8 * n - 1, v);
    BitsZero(8 * n - 1);
  }

  lemma {:induction false} LeOfLeBytes(v: nat, n: nat)
    requires v < Pow2(8 * n)
    ensures Le(LeBytes(v, n)) == v
  {
    if n == 0 {
      assert Pow2(0) == 1;
    } else {
      Pow2Add(8, 8 * (n - 1));
      ShiftByte(Pow2(8 * (n - 1)));
      LeOfLeBytes(v / 256, n - 1);
      assert LeBytes(v, n)[1..] == LeBytes(v / 256, n - 1);
    }
  }
}
