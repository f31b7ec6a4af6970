/** The portable slice-by-16 path: sixteen 256-entry tables, and a main loop that
    consumes sixteen bytes per iteration with sixteen independent lookups. */
module Crc32cSlice {
  import opened Bitwise
  import opened Crc32c
  import opened Folds

  const ROWS: nat := 16

  predicate Shaped(t: seq<seq<nat>>) {
    |t| == ROWS && forall s :: 0 <= s < ROWS ==> |t[s]| == 256
  }

  /** What row s holds for byte n: that byte advanced over s + 1 zero bytes. */
  ghost function Cell(s: nat, n: nat): nat {
    Bits(8 * (s + 1), n)
  }

  ghost predicate IsSliceTables(t: seq<seq<nat>>) {
    && Shaped(t)
    && forall s, n :: 0 <= s < ROWS && 0 <= n < 256 ==> t[s][n] == Cell(s, n)
  }

  method MakeSliceTables() returns (t: seq<seq<nat>>)
    ensures IsSliceTables(t)
  {
    t := seq(ROWS, _ => seq(256, _ => 0));
    var n: nat := 0;
    while n < 256
      invariant 0 <= n <= 256 && Shaped(t)
      invariant forall i :: 0 <= i < n ==> t[0][i] == Cell(0, i)
    {
      var c: nat, k := n, 0;
      while k < 8
        invariant 0 <= k <= 8 && c == Bits(k, n)
      {
        BitsAdd(k, 1, n);
        c := if c % 2 == 1 then Xor(POLY, c / 2) else c / 2;
        k := k + 1;
      }
      var row: seq<nat> := t[0][n := c];
      t := t[0 := row];
      n := n + 1;
    }
    n := 0;
    while n < 256
      invariant 0 <= n <= 256 && Shaped(t)
      invariant forall s, i :: 0 <= s < ROWS && 0 <= i < 256 && (s == 0 || i < n) ==> t[s][i] == Cell(s, i)
    {
      var s := 1;
      while s < ROWS
        invariant 1 <= s <= ROWS && Shaped(t)
        invariant forall r, i ::
          0 <= r < ROWS && 0 <= i < 256 && (r == 0 || i < n || (i == n && r < s)) ==> t[r][i] == Cell(r, i)
      {
        var prev := t[s - 1][n];
        NextRow(t, s, n);
        var cell := Xor(prev / 256, t[0][prev % 256]);
        var row: seq<nat> := t[s][n := cell];
        t := t[s := row];
        s := s + 1;
      }
      n := n + 1;
    }
  }

  // One more zero byte, through row 0.
  lemma NextRow(t: seq<seq<nat>>, s: nat, n: nat)
    requires Shaped(t) && s > 0
    requires forall i :: 0 <= i < 256 ==> t[0][i] == Cell(0, i)
    ensures var prev := Cell(s - 1, n);
            Xor(prev / 256, t[0][prev % 256]) == Cell(s, n)
  {
    var prev := Cell(s - 1, n);
    BitsAdd(8 * s, 8, n);
    Bits8(prev);
    XorComm(prev / 256, t[0][prev % 256]);
  }

  /** The source's single-byte step, through row 0. */
  function CrcByteTable(t: seq<seq<nat>>, crc: nat, b: Byte): nat
    requires Shaped(t)
  {
    Xor(t[0][Xor(crc, b) % 256], crc / 256)
  }

  lemma CrcByteTableIsCrcByte(t: seq<seq<nat>>, crc: nat, b: Byte)
    requires IsSliceTables(t)
    ensures CrcByteTable(t, crc, b) == CrcByte(crc, b)
  {
    Bits8(Xor(crc, b));
    XorByteHigh(crc, b);
  }

  // ---- one word -----------------------------------------------------------------

  /** The four lookups of one word, in rows s, s - 1, s - 2 and s - 3. */
  function Lookup4(t: seq<seq<nat>>, s: nat, w: nat): nat
    requires Shaped(t) && 3 <= s < ROWS
  {
    Xor(Xor(Xor(t[s][w % 256], t[s - 1][w / 0x100 % 256]),
            t[s - 2][w / 0x1_0000 % 256]),
        t[s - 3][w / 0x100_0000 % 256])
  }

  lemma RowSplit(m: nat, x: nat)
    requires m >= 8
    ensures Bits(m, x) == Xor(Bits(m, x % 256), Bits(m - 8, x / 256))
  {
    var hi := x / 256;
    LowHigh(x % 256, hi);
    BitsLinear(m, x % 256, 256 * hi);
    BitsAdd(8, m - 8, 256 * hi);
    BitsShl(8, hi);
    ShiftByte(hi);
  }

  /** A word entering m bits early, byte by byte. */
  lemma FourRows(m: nat, w: nat)
    requires m >= 24 && w < WORD
    ensures Bits(m, w) == Xor(Xor(Xor(Bits(m, w % 256), Bits(m - 8, w / 0x100 % 256)), Bits(m - 16, w / 0x1_0000 % 256)),
                              Bits(m - 24, w / 0x100_0000 % 256))
  {
    var x1, x2, x3 := w / 0x100, w / 0x1_0000, w / 0x100_0000;
    assert x1 / 256 == x2 && x2 / 256 == x3 && x3 % 256 == x3;
    RowSplit(m, w);
    RowSplit(m - 8, x1);
    RowSplit(m - 16, x2);
    Regroup(Bits(m, w % 256), Bits(m - 8, x1 % 256), Bits(m - 16, x2 % 256), Bits(m - 24, x3));
  }

  lemma Lookup4IsBits(t: seq<seq<nat>>, s: nat, w: nat)
    requires IsSliceTables(t) && 3 <= s < ROWS && w < WORD
    ensures Lookup4(t, s, w) == Bits(8 * (s + 1), w)
  {
    FourRows(8 * (s + 1), w);
    assert t[s][w % 256] == Cell(s, w % 256) && t[s - 1][w / 0x100 % 256] == Cell(s - 1, w / 0x100 % 256);
    assert t[s - 2][w / 0x1_0000 % 256] == Cell(s - 2, w / 0x1_0000 % 256);
    assert t[s - 3][w / 0x100_0000 % 256] == Cell(s - 3, w / 0x100_0000 % 256);
  }

  // ---- several words ----------------------------------------------------------------

  lemma {:induction false} LeSplit(d: seq<Byte>, k: nat)
    requires k <= |d|
    ensures Le(d) == Le(d[..k]) + Shl(Le(d[k..]), 8 * k)
    decreases k
  {
    if k == 0 {
      assert d[..0] == [] && d[0..] == d;
    } else {
      LeSplit(d[1..], k - 1);
      assert d[1..][..k - 1] == d[..k][1..] && d[1..][k - 1..] == d[k..];
      ShlAdd(Le(d[k..]), 8, 8 * (k - 1));
      ShiftByte(Shl(Le(d[k..]), 8 * (k - 1)));
    }
  }

  // A register entering together with the low k bits of a longer integer.
  lemma SplitAt(m: nat, x: nat, lo: nat, hi: nat, k: nat)
    requires lo < Pow2(k) && k <= m
    ensures Bits(m, Xor(x, lo + Shl(hi, k))) == Xor(Bits(m, Xor(x, lo)), Bits(m - k, hi))
  {
    XorDisjoint(lo, hi, k);
    XorAssoc(x, lo, Shl(hi, k));
    BitsLinear(m, Xor(x, lo), Shl(hi, k));
    BitsAdd(k, m - k, Shl(hi, k));
    BitsShl(k, hi);
  }

  lemma SplitBytes(crc: nat, d: seq<Byte>, k: nat)
    requires k <= |d|
    ensures Bits(8 * |d|, Xor(crc, Le(d)))
         == Xor(Bits(8 * |d|, Xor(crc, Le(d[..k]))), Bits(8 * |d[k..]|, Le(d[k..])))
  {
    LeSplit(d, k);
    LeBound(d[..k]);
    SplitAt(8 * |d|, crc, Le(d[..k]), Le(d[k..]), 8 * k);
  }

  /** Eight bytes through rows 7..0. */
  function Slice8(t: seq<seq<nat>>, crc: nat, d: seq<Byte>): nat
    requires Shaped(t) && |d| == 8
  {
    Xor(Lookup4(t, 7, Xor(Le(d[..4]), crc)), Lookup4(t, 3, Le(d[4..])))
  }

  /** Sixteen bytes through rows 15..0. */
  function Slice16(t: seq<seq<nat>>, crc: nat, d: seq<Byte>): nat
    requires Shaped(t) && |d| == 16
  {
    Xor(Xor(Xor(Lookup4(t, 15, Xor(Le(d[..4]), crc)), Lookup4(t, 11, Le(d[4..8]))),
            Lookup4(t, 7, Le(d[8..12]))),
        Lookup4(t, 3, Le(d[12..])))
  }

  lemma FirstWord(t: seq<seq<nat>>, crc: nat, d: seq<Byte>)
    requires IsSliceTables(t) && crc < WORD && 4 <= |d| <= 16
    ensures Bits(8 * |d|, Xor(crc, Le(d)))
         == Xor(Lookup4(t, |d| - 1, Xor(Le(d[..4]), crc)), Bits(8 * |d[4..]|, Le(d[4..])))
  {
    SplitBytes(crc, d, 4);
    XorComm(crc, Le(d[..4]));
    LeWord(d[..4]);
    XorWord(Le(d[..4]), crc);
    Lookup4IsBits(t, |d| - 1, Xor(Le(d[..4]), crc));
  }

  lemma NextWord(t: seq<seq<nat>>, d: seq<Byte>)
    requires IsSliceTables(t) && 4 <= |d| <= 16
    ensures Bits(8 * |d|, Le(d))
         == Xor(Lookup4(t, |d| - 1, Le(d[..4])), Bits(8 * |d[4..]|, Le(d[4..])))
  {
    FirstWord(t, 0, d);
    XorZero(Le(d));
    XorZero(Le(d[..4]));
  }

  lemma LastWord(t: seq<seq<nat>>, d: seq<Byte>)
    requires IsSliceTables(t) && |d| == 4
    ensures Bits(32, Le(d)) == Lookup4(t, 3, Le(d))
  {
    LeWord(d);
    Lookup4IsBits(t, 3, Le(d));
  }

  lemma Slice8IsCrc(t: seq<seq<nat>>, crc: nat, d: seq<Byte>)
    requires IsSliceTables(t) && crc < WORD && |d| == 8
    ensures Slice8(t, crc, d) == Crc(crc, d)
  {
    CrcLe(crc, d);
    FirstWord(t, crc, d);
    LastWord(t, d[4..]);
  }

  lemma LastThreeWords(t: seq<seq<nat>>, d: seq<Byte>)
    requires IsSliceTables(t) && |d| == 12
    ensures Bits(96, Le(d)) == Xor(Lookup4(t, 11, Le(d[..4])), Xor(Lookup4(t, 7, Le(d[4..8])), Lookup4(t, 3, Le(d[8..]))))
  {
    NextWord(t, d);
    NextWord(t, d[4..]);
    assert d[4..][..4] == d[4..8] && d[4..][4..] == d[8..];
    LastWord(t, d[8..]);
  }

  lemma Slice16IsCrc(t: seq<seq<nat>>, crc: nat, d: seq<Byte>)
    requires IsSliceTables(t) && crc < WORD && |d| == 16
    ensures Slice16(t, crc, d) == Crc(crc, d)
  {
    CrcLe(crc, d);
    FirstWord(t, crc, d);
    LastThreeWords(t, d[4..]);
    assert d[4..][..4] == d[4..8] && d[4..][4..8] == d[8..12] && d[4..][8..] == d[12..];
    Regroup(Lookup4(t, 15, Xor(Le(d[..4]), crc)), Lookup4(t, 11, Le(d[4..8])),
            Lookup4(t, 7, Le(d[8..12])), Lookup4(t, 3, Le(d[12..])));
  }

  // ---- the whole path -----------------------------------------------------------------

  /** The register after the first p bytes. */
  function CrcTo(start: nat, data: seq<Byte>, p: nat): nat
    requires p <= |data|
  {
    FoldTo(CrcByte, start, data, p)
  }

  lemma CrcToBound(start: nat, data: seq<Byte>, p: nat)
    requires p <= |data| && start < WORD
    ensures CrcTo(start, data, p) < WORD
  {
    FoldToIsFold(CrcByte, start, data, p);
    CrcBound(start, data[..p]);
  }

  method Step1(t: seq<seq<nat>>, ghost start: nat, data: seq<Byte>, p: nat, crc: nat) returns (r: nat)
    requires IsSliceTables(t) && p < |data| && crc == CrcTo(start, data, p)
    ensures r == CrcTo(start, data, p + 1)
  {
    CrcByteTableIsCrcByte(t, crc, data[p]);
    r := CrcByteTable(t, crc, data[p]);
  }

  method Step8(t: seq<seq<nat>>, ghost start: nat, data: seq<Byte>, p: nat, crc: nat) returns (r: nat)
    requires IsSliceTables(t) && start < WORD && p + 8 <= |data| && crc == CrcTo(start, data, p)
    ensures r == CrcTo(start, data, p + 8)
  {
    CrcToBound(start, data, p);
    Slice8IsCrc(t, crc, data[p..p + 8]);
    FoldToAdd(CrcByte, start, data, p, 8);
    r := Slice8(t, crc, data[p..p + 8]);
  }

  method Step16(t: seq<seq<nat>>, ghost start: nat, data: seq<Byte>, p: nat, crc: nat) returns (r: nat)
    requires IsSliceTables(t) && start < WORD && p + 16 <= |data| && crc == CrcTo(start, data, p)
    ensures r == CrcTo(start, data, p + 16)
  {
    CrcToBound(start, data, p);
    Slice16IsCrc(t, crc, data[p..p + 16]);
    FoldToAdd(CrcByte, start, data, p, 16);
    r := Slice16(t, crc, data[p..p + 16]);
  }

  /** `addr` is the address of data[0]: the head loop runs to an 8-byte boundary. */
  method SliceBy16(t: seq<seq<nat>>, start: nat, data: seq<Byte>, addr: nat) returns (crc: nat)
    requires IsSliceTables(t) && start < WORD
    ensures crc == Crc(start, data)
  {
    crc := start;
    var p := 0;
    while p < |data| && (addr + p) % 8 != 0
      invariant p <= |data| && crc == CrcTo(start, data, p)
    {
      crc := Step1(t, start, data, p, crc);
      p := p + 1;
    }
    while |data| - p >= 16
      invariant p <= |data| && crc == CrcTo(start, data, p)
    {
      crc := Step16(t, start, data, p, crc);
      p := p + 16;
    }
    if |data| - p >= 8 {
      crc := Step8(t, start, data, p, crc);
      p := p + 8;
    }
    while p < |data|
      invariant p <= |data| && crc == CrcTo(start, data, p)
    {
      crc := Step1(t, start, data, p, crc);
      p := p + 1;
    }
    FoldToIsFold(CrcByte, start, data, p);
  }
}
