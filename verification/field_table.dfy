/** Table-driven records: a record is the byte images of its fields, and its wire form their
    concatenation.  Everything here holds for any field table. */
module FieldTable {
  import opened Bitwise

  type Fields = seq<seq<Byte>>

  predicate Sized(f: Fields, sizes: seq<nat>) {
    |f| == |sizes| && forall i :: 0 <= i < |f| ==> |f[i]| == sizes[i]
  }

  function Wire(f: Fields): seq<Byte> {
    if f == [] then [] else Wire(f[..|f| - 1]) + f[|f| - 1]
  }

  function Offset(sizes: seq<nat>, i: nat): nat
    requires i <= |sizes|
  {
    if i == 0 then 0 else Offset(sizes, i - 1) + sizes[i - 1]
  }

  lemma {:induction false} OffsetMono(sizes: seq<nat>, i: nat, j: nat)
    requires i <= j <= |sizes|
    ensures Offset(sizes, i) <= Offset(sizes, j)
  {
    if i < j { OffsetMono(sizes, i, j - 1); }
  }

  lemma {:induction false} OffsetPrefix(sizes: seq<nat>, n: nat, i: nat)
    requires i <= n <= |sizes|
    ensures Offset(sizes[..n], i) == Offset(sizes, i)
  {
    if i > 0 { OffsetPrefix(sizes, n, i - 1); }
  }

  /** The first n fields take the first Offset(n) bytes, and field i lies at Offset(i). */
  lemma {:induction false} WireLength(f: Fields, sizes: seq<nat>)
    requires Sized(f, sizes)
    ensures |Wire(f)| == Offset(sizes, |sizes|)
  {
    if f != [] {
      var n := |f| - 1;
      WireLength(f[..n], sizes[..n]);
      OffsetPrefix(sizes, n, n);
    }
  }

  lemma {:induction false} WireAt(f: Fields, sizes: seq<nat>, i: nat)
    requires Sized(f, sizes) && i < |f|
    ensures Offset(sizes, i) + sizes[i] <= |Wire(f)|
    ensures Wire(f)[Offset(sizes, i)..Offset(sizes, i) + sizes[i]] == f[i]
  {
    var n := |f| - 1;
    WireLength(f[..n], sizes[..n]);
    OffsetPrefix(sizes, n, n);
    if i < n {
      WireAt(f[..n], sizes[..n], i);
      OffsetPrefix(sizes, n, i);
      var o := Offset(sizes, i);
      assert Wire(f)[o..o + sizes[i]] == Wire(f[..n])[o..o + sizes[i]];
    }
  }

  /** Bytes [at, at + |x|) of s replaced by x. */
  function Patch(s: seq<Byte>, at: nat, x: seq<Byte>): (r: seq<Byte>)
    requires at + |x| <= |s|
    ensures |r| == |s|
  {
    s[..at] + x + s[at + |x|..]
  }

  lemma PatchFront(s: seq<Byte>, t: seq<Byte>, at: nat, x: seq<Byte>)
    requires at + |x| <= |s|
    ensures Patch(s + t, at, x) == Patch(s, at, x) + t
  {}

  lemma PatchBack(s: seq<Byte>, t: seq<Byte>, x: seq<Byte>)
    requires |x| == |t|
    ensures Patch(s + t, |s|, x) == s + x
  {}

  /** Overwriting a field's bytes on the wire is replacing the field. */
  lemma {:induction false} WireUpdate(f: Fields, sizes: seq<nat>, i: nat, x: seq<Byte>)
    requires Sized(f, sizes) && i < |f| && |x| == sizes[i]
    ensures Offset(sizes, i) + |x| <= |Wire(f)|
    ensures Wire(f[i := x]) == Patch(Wire(f), Offset(sizes, i), x)
  {
    var n := |f| - 1;
    WireLength(f[..n], sizes[..n]);
    OffsetPrefix(sizes, n, n);
    if i == n {
      assert f[i := x][..n] == f[..n];
      PatchBack(Wire(f[..n]), f[n], x);
    } else {
      assert f[i := x][..n] == f[..n][i := x];
      WireUpdate(f[..n], sizes[..n], i, x);
      OffsetPrefix(sizes, n, i);
      PatchFront(Wire(f[..n]), f[n], Offset(sizes, i), x);
    }
  }

  /** The first n fields of the record at the start of `data`. */
  function Cut(data: seq<Byte>, sizes: seq<nat>, n: nat): (f: Fields)
    requires n <= |sizes| && Offset(sizes, n) <= |data|
    ensures |f| == n
  {
    if n == 0 then [] else Cut(data, sizes, n - 1) + [data[Offset(sizes, n - 1)..Offset(sizes, n)]]
  }

  lemma {:induction false} CutSized(data: seq<Byte>, sizes: seq<nat>, n: nat)
    requires n <= |sizes| && Offset(sizes, n) <= |data|
    ensures Sized(Cut(data, sizes, n), sizes[..n])
  {
    if n > 0 { CutSized(data, sizes, n - 1); }
  }

  /** Reading the wire form back gives the record, whatever follows it. */
  lemma {:induction false} CutWire(f: Fields, sizes: seq<nat>, rest: seq<Byte>, n: nat)
    requires Sized(f, sizes) && n <= |f|
    ensures Offset(sizes, n) <= |Wire(f)| && Cut(Wire(f) + rest, sizes, n) == f[..n]
  {
    WireLength(f, sizes);
    OffsetMono(sizes, n, |sizes|);
    if n > 0 {
      CutWire(f, sizes, rest, n - 1);
      WireAt(f, sizes, n - 1);
      assert (Wire(f) + rest)[Offset(sizes, n - 1)..Offset(sizes, n)] == f[n - 1];
    }
  }

  /** And what is read is what was on the wire. */
  lemma {:induction false} WireCut(data: seq<Byte>, sizes: seq<nat>, n: nat)
    requires n <= |sizes| && Offset(sizes, n) <= |data|
    ensures Wire(Cut(data, sizes, n)) == data[..Offset(sizes, n)]
  {
    if n > 0 {
      WireCut(data, sizes, n - 1);
      assert Cut(data, sizes, n)[..n - 1] == Cut(data, sizes, n - 1);
    }
  }
}
