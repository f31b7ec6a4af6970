/** The hardware path: three registers run over three adjacent blocks, stitched
    together with GF(2) "advance by n zero bytes" operators built by binary
    exponentiation and applied through a 4 x 256 table.

    The CRC instruction on an n-byte operand is n byte steps, low byte first. */
module Crc32cHardware {
  import opened Bitwise
  import opened Folds
  import opened Crc32c

  const LONG_BLOCK: nat := 8192
  const SHORT_BLOCK: nat := 256

  // ---- GF(2) matrices: one column per register bit ----------------------------------

  type Gf2Matrix = m: seq<nat> | |m| == 32 witness seq(32, _ => 0)

  /** The columns from n on that the bits of `vec` select, xored. */
  function ApplyFrom(mat: Gf2Matrix, n: nat, vec: nat): nat
    requires n <= 32
    decreases 32 - n
  {
    if n == 32 then 0 else Xor(if vec % 2 == 1 then mat[n] else 0, ApplyFrom(mat, n + 1, vec / 2))
  }

  lemma {:induction false} ApplyNothing(mat: Gf2Matrix, n: nat)
    requires n <= 32
    ensures ApplyFrom(mat, n, 0) == 0
    decreases 32 - n
  {
    if n < 32 { ApplyNothing(mat, n + 1); }
  }

  method Gf2Apply(mat: Gf2Matrix, vec: nat) returns (sum: nat)
    ensures sum == ApplyFrom(mat, 0, vec)
  {
    sum := 0;
    var n, v := 0, vec;
    XorZero(ApplyFrom(mat, 0, vec));
    while n < 32 && v != 0
      invariant 0 <= n <= 32
      invariant Xor(sum, ApplyFrom(mat, n, v)) == ApplyFrom(mat, 0, vec)
    {
      ghost var rest := ApplyFrom(mat, n + 1, v / 2);
      if v % 2 == 1 {
        XorAssoc(sum, mat[n], rest);
        sum := Xor(sum, mat[n]);
      } else {
        XorZero(rest);
      }
      n, v := n + 1, v / 2;
    }
    ApplyNothing(mat, n);
    XorZero(sum);
  }

  /** mat advances a register over k zero bits: column n is where bit n goes. */
  ghost predicate Advances(mat: Gf2Matrix, k: nat) {
    forall n :: 0 <= n < 32 ==> mat[n] == Bits(k, Pow2(n))
  }

  /** Applying such a matrix to any 32-bit register advances it over k zero bits. */
  lemma ApplyAdvances(mat: Gf2Matrix, k: nat, vec: nat)
    requires Advances(mat, k) && vec < WORD
    ensures ApplyFrom(mat, 0, vec) == Bits(k, vec)
  {
    Pow2Values();
    ApplyFromAdvances(mat, k, 0, vec);
  }

  lemma {:induction false} ApplyFromAdvances(mat: Gf2Matrix, k: nat, n: nat, v: nat)
    requires Advances(mat, k) && n <= 32 && v < Pow2(32 - n)
    ensures ApplyFrom(mat, n, v) == Bits(k, Shl(v, n))
    decreases 32 - n
  {
    if n == 32 {
      ShlZero(32);
      BitsZero(k);
    } else {
      ApplyFromAdvances(mat, k, n + 1, v / 2);
      SplitBit(v, n);
      BitsLinear(k, Shl(v % 2, n), Shl(v / 2, n + 1));
      SelectedColumn(k, n, v % 2);
    }
  }

  lemma SelectedColumn(k: nat, n: nat, bit: nat)
    requires bit < 2
    ensures Bits(k, Shl(bit, n)) == if bit == 1 then Bits(k, Pow2(n)) else 0
  {
    if bit == 1 {
      ShlOne(n);
    } else {
      ShlZero(n);
      BitsZero(k);
    }
  }

  lemma SplitBit(v: nat, n: nat)
    ensures Shl(v, n) == Xor(Shl(v % 2, n), Shl(v / 2, n + 1))
  {
    var lo, y := v % 2, v / 2;
    XorDouble(lo, y);
    XorZero(y);
    XorShl(lo, 2 * y, n);
    ShlAdd(y, n, 1);
    assert Shl(y, 1) == 2 * y;
  }

  method Gf2Compose(a: Gf2Matrix, b: Gf2Matrix, ghost i: nat, ghost j: nat) returns (out: Gf2Matrix)
    requires Advances(a, i) && Advances(b, j)
    ensures Advances(out, i + j)
  {
    var cols: seq<nat> := [];
    for n := 0 to 32
      invariant |cols| == n
      invariant forall c :: 0 <= c < n ==> cols[c] == ApplyFrom(a, 0, b[c])
    {
      var col := Gf2Apply(a, b[n]);
      cols := cols + [col];
    }
    out := cols;
    forall n | 0 <= n < 32 ensures out[n] == Bits(i + j, Pow2(n)) { ComposeColumn(a, b, i, j, n); }
  }

  lemma ComposeColumn(a: Gf2Matrix, b: Gf2Matrix, i: nat, j: nat, n: nat)
    requires Advances(a, i) && Advances(b, j) && n < 32
    ensures ApplyFrom(a, 0, b[n]) == Bits(i + j, Pow2(n))
  {
    ColumnBound(j, n);
    ApplyAdvances(a, i, b[n]);
    BitsAdd(j, i, Pow2(n));
  }

  lemma ColumnBound(j: nat, n: nat)
    requires n < 32
    ensures Bits(j, Pow2(n)) < WORD
  {
    Pow2Values();
    Pow2Mono(n, 32);
    BitsBound(j, Pow2(n));
  }

  // Where one zero bit moves register bit n.
  ghost function BitImage(n: nat): nat {
    if n == 0 then POLY else Pow2(n - 1)
  }

  lemma BitsOne(c: nat)
    ensures Bits(1, c) == BitStep(c)
  {
    assert Bits(1, c) == Bits(0, BitStep(c));
  }

  lemma LowestBit()
    ensures BitStep(1) == POLY
  {
    XorZero(POLY);
  }

  lemma EvenStep(c: nat)
    ensures BitStep(2 * c) == c
  {}

  lemma OneBitColumn(n: nat)
    ensures Bits(1, Pow2(n)) == BitImage(n)
  {
    BitsOne(Pow2(n));
    if n == 0 { LowestBit(); } else { EvenStep(Pow2(n - 1)); }
  }

  method ZeroBitOperator() returns (m: Gf2Matrix)
    ensures Advances(m, 1)
  {
    var cols: seq<nat>, row: nat := [POLY], 1;
    for n := 1 to 32
      invariant |cols| == n && row == Pow2(n - 1)
      invariant forall c :: 0 <= c < n ==> cols[c] == BitImage(c)
    {
      cols := cols + [row];
      row := 2 * row;
    }
    m := cols;
    forall n | 0 <= n < 32 ensures m[n] == Bits(1, Pow2(n)) { OneBitColumn(n); }
  }

  method PowersOfTwo(count: nat) returns (cols: seq<nat>)
    ensures |cols| == count && forall c :: 0 <= c < count ==> cols[c] == Pow2(c)
  {
    var one: nat := 1;
    cols := [];
    for n := 0 to count
      invariant |cols| == n && one == Pow2(n)
      invariant forall c :: 0 <= c < n ==> cols[c] == Pow2(c)
    {
      cols := cols + [one];
      one := 2 * one;
    }
  }

  method Identity() returns (m: Gf2Matrix)
    ensures Advances(m, 0)
  {
    var cols := PowersOfTwo(32);
    m := cols;
  }

  lemma {:induction false} HalveBits(bits: nat, i: nat)
    ensures Shl(bits, i) == (if bits % 2 == 1 then Pow2(i) else 0) + Shl(bits / 2, i + 1)
  {
    if i > 0 { HalveBits(bits, i - 1); }
  }

  /** base * base advances twice as far. */
  method Square(base: Gf2Matrix, ghost i: nat) returns (r: Gf2Matrix)
    requires Advances(base, Pow2(i))
    ensures Advances(r, Pow2(i + 1))
  {
    ghost var p := Pow2(i);
    r := Gf2Compose(base, base, p, p);
  }

  /** Advance by `bytes` zero bytes, by binary exponentiation over composition. */
  method ZeroBytesOperator(bytes: nat) returns (result: Gf2Matrix)
    ensures Advances(result, 8 * bytes)
  {
    result := Identity();
    var base := ZeroBitOperator();
    ghost var done: nat, i: nat := 0, 0;
    var bits: nat := 8 * bytes;
    while bits != 0
      invariant Advances(result, done) && Advances(base, Pow2(i))
      invariant done + Shl(bits, i) == 8 * bytes
    {
      HalveBits(bits, i);
      if bits % 2 == 1 {
        result := Gf2Compose(base, result, Pow2(i), done);
        done := Pow2(i) + done;
      }
      base := Square(base, i);
      bits, i := bits / 2, i + 1;
    }
    ShlZero(i);
  }

  // ---- the table form -----------------------------------------------------------------

  type ShiftTable = seq<seq<nat>>

  predicate Shaped(t: ShiftTable) {
    |t| == 4 && |t[0]| == 256 && |t[1]| == 256 && |t[2]| == 256 && |t[3]| == 256
  }

  ghost predicate Shifts(t: ShiftTable, bytes: nat) {
    && Shaped(t)
    && forall n :: 0 <= n < 256 ==>
      && t[0][n] == Bits(8 * bytes, n)
      && t[1][n] == Bits(8 * bytes, 0x100 * n)
      && t[2][n] == Bits(8 * bytes, 0x1_0000 * n)
      && t[3][n] == Bits(8 * bytes, 0x100_0000 * n)
  }

  method MakeShiftTable(bytes: nat) returns (t: ShiftTable)
    ensures Shifts(t, bytes)
  {
    var op := ZeroBytesOperator(bytes);
    var t0: seq<nat>, t1: seq<nat>, t2: seq<nat>, t3: seq<nat> := [], [], [], [];
    for n := 0 to 256
      invariant |t0| == |t1| == |t2| == |t3| == n
      invariant forall i :: 0 <= i < n ==> t0[i] == Bits(8 * bytes, i)
      invariant forall i :: 0 <= i < n ==> t1[i] == Bits(8 * bytes, 0x100 * i)
      invariant forall i :: 0 <= i < n ==> t2[i] == Bits(8 * bytes, 0x1_0000 * i)
      invariant forall i :: 0 <= i < n ==> t3[i] == Bits(8 * bytes, 0x100_0000 * i)
    {
      var c0, c1, c2, c3 := ShiftColumns(op, bytes, n);
      t0, t1, t2, t3 := t0 + [c0], t1 + [c1], t2 + [c2], t3 + [c3];
    }
    t := [t0, t1, t2, t3];
  }

  method ShiftColumns(op: Gf2Matrix, ghost bytes: nat, n: nat) returns (c0: nat, c1: nat, c2: nat, c3: nat)
    requires Advances(op, 8 * bytes) && n < 256
    ensures c0 == Bits(8 * bytes, n) && c1 == Bits(8 * bytes, 0x100 * n)
    ensures c2 == Bits(8 * bytes, 0x1_0000 * n) && c3 == Bits(8 * bytes, 0x100_0000 * n)
  {
    ApplyAdvances(op, 8 * bytes, n);
    ApplyAdvances(op, 8 * bytes, 0x100 * n);
    ApplyAdvances(op, 8 * bytes, 0x1_0000 * n);
    ApplyAdvances(op, 8 * bytes, 0x100_0000 * n);
    c0 := Gf2Apply(op, n);
    c1 := Gf2Apply(op, 0x100 * n);
    c2 := Gf2Apply(op, 0x1_0000 * n);
    c3 := Gf2Apply(op, 0x100_0000 * n);
  }

  function ShiftCrc(t: ShiftTable, crc: nat): nat
    requires Shaped(t)
  {
    Xor(Xor(Xor(t[0][crc % 256], t[1][crc / 0x100 % 256]),
            t[2][crc / 0x1_0000 % 256]),
        t[3][crc / 0x100_0000 % 256])
  }

  // The lowest byte of an integer at byte position j, and what is above it.
  lemma SplitScaled(k: nat, y: nat, j: nat)
    ensures Bits(k, Shl(y, j)) == Xor(Bits(k, Shl(y % 256, j)), Bits(k, Shl(y / 256, j + 8)))
  {
    var lo, hi := y % 256, y / 256;
    LowHigh(lo, hi);
    XorShl(lo, 256 * hi, j);
    ShlAdd(hi, j, 8);
    ShiftByte(hi);
    BitsLinear(k, Shl(lo, j), Shl(256 * hi, j));
  }

  lemma FourBytes(k: nat, crc: nat)
    requires crc < WORD
    ensures Bits(k, crc)
         == Xor(Xor(Xor(Bits(k, crc % 256), Bits(k, 0x100 * (crc / 0x100 % 256))),
                    Bits(k, 0x1_0000 * (crc / 0x1_0000 % 256))),
                Bits(k, 0x100_0000 * (crc / 0x100_0000 % 256)))
  {
    var y1, y2, y3 := crc / 0x100, crc / 0x1_0000, crc / 0x100_0000;
    assert y1 / 256 == y2 && y2 / 256 == y3 && y3 % 256 == y3;
    SplitScaled(k, crc, 0);
    SplitScaled(k, y1, 8);
    SplitScaled(k, y2, 16);
    ShiftBytes(y1 % 256);
    ShiftBytes(y2 % 256);
    ShiftBytes(y3);
    Regroup(Bits(k, crc % 256), Bits(k, 0x100 * (y1 % 256)), Bits(k, 0x1_0000 * (y2 % 256)), Bits(k, 0x100_0000 * y3));
  }

  /** The four lookups advance any 32-bit register over `bytes` zero bytes. */
  lemma ShiftCrcAdvances(t: ShiftTable, bytes: nat, crc: nat)
    requires Shifts(t, bytes) && crc < WORD
    ensures ShiftCrc(t, crc) == Bits(8 * bytes, crc)
  {
    FourBytes(8 * bytes, crc);
  }

  // ---- the instructions ------------------------------------------------------------------

  type ByteStep = (nat, Byte) -> nat

  /** The CRC instruction on an n-byte operand: n byte steps, low byte first. */
  function Instruction(step: ByteStep, crc: nat, operand: nat, n: nat): nat {
    Fold(step, crc, LeBytes(operand, n))
  }

  /** One instruction on the n bytes at p. */
  method Execute(step: ByteStep, ghost start: nat, data: seq<Byte>, p: nat, n: nat, at: nat) returns (crc: nat)
    requires p + n <= |data| && at == FoldTo(step, start, data, p)
    ensures crc == FoldTo(step, start, data, p + n)
  {
    LeBytesOfLe(data[p..p + n]);
    FoldToAdd(step, start, data, p, n);
    crc := Instruction(step, at, Le(data[p..p + n]), n);
  }

  // ---- one interleaved block ---------------------------------------------------------------

  /** Three registers over three adjacent blocks, combined. */
  lemma CombineThree(r: nat, a: seq<Byte>, b: seq<Byte>, c: seq<Byte>)
    requires |a| == |b| == |c|
    ensures Crc(r, a + b + c)
         == Xor(Bits(8 * |a|, Xor(Bits(8 * |a|, Crc(r, a)), Crc(0, b))), Crc(0, c))
  {
    CrcConcat(r, a + b, c);
    CrcConcat(r, a, b);
    CrcSplit(Crc(r, a), b);
    CrcSplit(Crc(r, a + b), c);
  }

  method ThreeWayBlock(t: ShiftTable, block: nat, start: nat, data: seq<Byte>, p: nat) returns (crc: nat)
    requires Shifts(t, block) && block % 8 == 0 && start < WORD
    requires p + 3 * block <= |data|
    ensures crc == Crc(start, data[p..p + 3 * block])
  {
    var a, b, c := data[p..p + block], data[p + block..p + 2 * block], data[p + 2 * block..p + 3 * block];
    var c0, c1, c2 := Lanes(CrcByte, block / 8, a, start, b, 0, c, 0);
    crc := Stitch(t, block, start, a, b, c, c0, c1, c2);
    assert data[p..p + 3 * block] == a + b + c;
  }

  method Lanes(step: ByteStep, steps: nat, a: seq<Byte>, r0: nat, b: seq<Byte>, r1: nat, c: seq<Byte>, r2: nat)
    returns (c0: nat, c1: nat, c2: nat)
    requires |a| == |b| == |c| == 8 * steps
    ensures c0 == Fold(step, r0, a) && c1 == Fold(step, r1, b) && c2 == Fold(step, r2, c)
  {
    c0, c1, c2 := r0, r1, r2;
    for i := 0 to steps
      invariant c0 == FoldTo(step, r0, a, 8 * i)
      invariant c1 == FoldTo(step, r1, b, 8 * i)
      invariant c2 == FoldTo(step, r2, c, 8 * i)
    {
      c0 := Execute(step, r0, a, 8 * i, 8, c0);
      c1 := Execute(step, r1, b, 8 * i, 8, c1);
      c2 := Execute(step, r2, c, 8 * i, 8, c2);
    }
    FoldToIsFold(step, r0, a, |a|);
    FoldToIsFold(step, r1, b, |b|);
    FoldToIsFold(step, r2, c, |c|);
  }

  method Stitch(t: ShiftTable, block: nat, ghost start: nat, ghost a: seq<Byte>, ghost b: seq<Byte>, ghost c: seq<Byte>,
                c0: nat, c1: nat, c2: nat) returns (crc: nat)
    requires Shifts(t, block) && start < WORD && |a| == |b| == |c| == block
    requires c0 == Crc(start, a) && c1 == Crc(0, b) && c2 == Crc(0, c)
    ensures crc == Crc(start, a + b + c)
  {
    CombineThree(start, a, b, c);
    CrcBound(start, a);
    CrcBound(0, b);
    ShiftCrcAdvances(t, block, c0);
    crc := Xor(ShiftCrc(t, c0), c1);
    BitsBound(8 * block, c0);
    XorWord(ShiftCrc(t, c0), c1);
    ShiftCrcAdvances(t, block, crc);
    crc := Xor(ShiftCrc(t, crc), c2);
  }

  // ---- the whole path -------------------------------------------------------------------------

  /** Single bytes up to an 8-byte boundary. */
  method Head(step: ByteStep, start: nat, data: seq<Byte>, addr: nat) returns (p: nat, crc: nat)
    ensures p <= |data| && crc == FoldTo(step, start, data, p)
  {
    crc, p := start, 0;
    while p < |data| && (addr + p) % 8 != 0
      invariant p <= |data| && crc == FoldTo(step, start, data, p)
    {
      crc := Execute(step, start, data, p, 1, crc);
      p := p + 1;
    }
  }

  /** Eight bytes at a time, on ARM one four-byte step (`word`), then single bytes. */
  method Tail(step: ByteStep, ghost start: nat, data: seq<Byte>, from: nat, at: nat, word: bool) returns (crc: nat)
    requires from <= |data| && at == FoldTo(step, start, data, from)
    ensures crc == Fold(step, start, data)
  {
    crc := at;
    var p := from;
    while |data| - p >= 8
      invariant p <= |data| && crc == FoldTo(step, start, data, p)
    {
      crc := Execute(step, start, data, p, 8, crc);
      p := p + 8;
    }
    if word && |data| - p >= 4 {
      crc := Execute(step, start, data, p, 4, crc);
      p := p + 4;
    }
    while p < |data|
      invariant p <= |data| && crc == FoldTo(step, start, data, p)
    {
      crc := Execute(step, start, data, p, 1, crc);
      p := p + 1;
    }
    FoldToIsFold(step, start, data, p);
  }

  method NextBlock(t: ShiftTable, block: nat, ghost start: nat, data: seq<Byte>, p: nat, at: nat)
    returns (crc: nat)
    requires Shifts(t, block) && block % 8 == 0 && start < WORD
    requires p + 3 * block <= |data| && at == FoldTo(CrcByte, start, data, p)
    ensures crc == FoldTo(CrcByte, start, data, p + 3 * block)
  {
    FoldToIsFold(CrcByte, start, data, p);
    CrcBound(start, data[..p]);
    crc := ThreeWayBlock(t, block, at, data, p);
    FoldToAdd(CrcByte, start, data, p, 3 * block);
  }

  /** As many interleaved blocks of one size as fit. */
  method Blocks(t: ShiftTable, block: nat, ghost start: nat, data: seq<Byte>, from: nat, at: nat)
    returns (p: nat, crc: nat)
    requires Shifts(t, block) && block % 8 == 0 && 0 < block && start < WORD
    requires from <= |data| && at == FoldTo(CrcByte, start, data, from)
    ensures p <= |data| && crc == FoldTo(CrcByte, start, data, p)
  {
    crc, p := at, from;
    while |data| - p >= 3 * block
      invariant p <= |data| && crc == FoldTo(CrcByte, start, data, p)
    {
      crc := NextBlock(t, block, start, data, p, crc);
      p := p + 3 * block;
    }
  }

  /** The interleaved path: aligned head, long blocks, short blocks, tail. */
  method ThreeWay(long: ShiftTable, longBlock: nat, short: ShiftTable, shortBlock: nat,
                  start: nat, data: seq<Byte>, addr: nat, word: bool) returns (crc: nat)
    requires Shifts(long, longBlock) && longBlock % 8 == 0 && longBlock > 0
    requires Shifts(short, shortBlock) && shortBlock % 8 == 0 && shortBlock > 0
    requires start < WORD
    ensures crc == Crc(start, data)
  {
    var p;
    p, crc := Head(CrcByte, start, data, addr);
    p, crc := Blocks(long, longBlock, start, data, p, crc);
    p, crc := Blocks(short, shortBlock, start, data, p, crc);
    crc := Tail(CrcByte, start, data, p, crc, word);
  }

  /** The public incremental interface over the interleaved path. */
  method UpdateHardware(state: nat, data: seq<Byte>, addr: nat, word: bool) returns (r: nat)
    requires state < WORD
    ensures r == Update(state, data)
  {
    var long := MakeShiftTable(LONG_BLOCK);
    var short := MakeShiftTable(SHORT_BLOCK);
    var crc := ThreeWay(long, LONG_BLOCK, short, SHORT_BLOCK, Complement(state), data, addr, word);
    CrcBound(Complement(state), data);
    r := Complement(crc);
  }
}
