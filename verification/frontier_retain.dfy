/** The clean-frontier retention ring and the wrap flush it generalises, each proved against
    the history of insertions (a ghost parameter: the keys that missed, in order). */
module FrontierRetain {

  type Key = nat

  const EMPTY: Key := 0xFFFF_FFFF_FFFF_FFFF

  predicate Distinct(s: seq<Key>) {
    forall i, j :: 0 <= i < j < |s| ==> s[i] != s[j]
  }

  /** Where the retained suffix of the history begins: everything in the first pass, then
      this pass and what lies beyond the frontier of the previous one. */
  function Start(n: nat, slots: nat, w: nat, f: nat): (r: nat)
    requires w <= f <= slots && (n == w || n >= w + slots)
    ensures r <= n && (n == w ==> r == 0) && (n != w ==> n - r == w + slots - f)
  {
    if n == w then 0 else n - w - slots + f
  }

  /** What slot i of the ring holds. */
  function Slot(h: seq<Key>, slots: nat, w: nat, f: nat, i: nat): Key
    requires w <= f <= slots && (|h| == w || |h| >= w + slots) && i < slots
  {
    if i < w then h[|h| - w + i]
    else if i < f || |h| == w then EMPTY
    else h[|h| - w - slots + i]
  }

  /** Ring and residents after the insertions h, with the write cursor at w and the clean frontier at f. */
  ghost predicate Shape(h: seq<Key>, ring: seq<Key>, resident: set<Key>, w: nat, f: nat) {
    && w <= f <= |ring| && (|h| == w || |h| >= w + |ring|)
    && (forall i :: 0 <= i < |ring| ==> ring[i] == Slot(h, |ring|, w, f, i))
    && var kept := h[Start(|h|, |ring|, w, f)..];
       && Distinct(kept)
       && (forall k :: k in resident <==> k in kept || (k == EMPTY && k in h))
  }

  /** One step of the cleaning sweep. */
  lemma SweepSlot(h: seq<Key>, ring: seq<Key>, resident: set<Key>, w: nat, f: nat)
    requires Shape(h, ring, resident, w, f) && f < |ring|
    ensures Shape(h, ring[f := EMPTY], if ring[f] != EMPTY then resident - {ring[f]} else resident, w, f + 1)
  {
    var a, b := Start(|h|, |ring|, w, f), Start(|h|, |ring|, w, f + 1);
    if |h| != w {
      assert b == a + 1 && ring[f] == h[a];
      assert h[a..] == [h[a]] + h[b..];
      assert forall i :: 0 <= i < |h[b..]| ==> h[b..][i] == h[a..][i + 1];
    }
  }

  /** Storing a key that is not resident. */
  lemma StoreKey(h: seq<Key>, ring: seq<Key>, resident: set<Key>, w: nat, f: nat, k: Key)
    requires Shape(h, ring, resident, w, f) && w < f && k !in resident
    ensures Shape(h + [k], ring[w := k], resident + {k}, w + 1, f)
  {
    var a := Start(|h|, |ring|, w, f);
    assert (h + [k])[a..] == h[a..] + [k];
  }

  /** A wrap turns this pass into the previous one. */
  lemma Wrap(h: seq<Key>, ring: seq<Key>, resident: set<Key>)
    requires Shape(h, ring, resident, |ring|, |ring|) && |ring| > 0
    ensures Shape(h, ring, resident, 0, 0)
  {
    var n := |ring|;
    assert Start(|h|, n, 0, 0) == |h| - n;
  }

  class Retain {
    const slots: nat
    const chunk: nat
    const ring: array<Key>
    var resident: set<Key>
    var w: nat                       // write cursor
    var f: nat                       // clean frontier

    /** h is what was inserted so far.  The dead runway stays within a chunk and a half. */
    ghost predicate Shaped(h: seq<Key>)
      reads this, ring
    {
      && 0 < chunk <= slots == ring.Length
      && Shape(h, ring[..], resident, w, f)
      && f - w <= chunk + chunk / 2
    }

    /** Between accesses more than half a chunk of runway is clean, but at the end of a pass. */
    ghost predicate Valid(h: seq<Key>)
      reads this, ring
    {
      Shaped(h) && (h != [] ==> f == slots || f - w > chunk / 2)
    }

    constructor (slots: nat, chunks: nat)
      requires slots > 0 && chunks > 0
      ensures Valid([]) && fresh(ring) && this.slots == slots && w == f == 0
      ensures (chunk - 1) * chunks < slots <= chunk * chunks
    {
      this.slots := slots;
      this.chunk := (slots + chunks - 1) / chunks;
      ring := new Key[slots](_ => EMPTY);
      resident := {};
      w := 0;
      f := 0;
      CeilDiv(slots, chunks);
    }

    method Advance(ghost h: seq<Key>)
      requires slots == ring.Length && Shape(h, ring[..], resident, w, f)
      modifies this`resident, this`f, ring
      ensures Shape(h, ring[..], resident, w, f)
      ensures f == if old(f) + chunk < slots then old(f) + chunk else slots
      ensures resident <= old(resident)
    {
      var next := if f + chunk < slots then f + chunk else slots;
      for i := f to next
        invariant Shape(h, ring[..], resident, w, i) && resident <= old(resident)
        modifies this`resident, ring
      {
        SweepSlot(h, ring[..], resident, w, i);
        if ring[i] != EMPTY { resident := resident - {ring[i]}; }
        ring[i] := EMPTY;
      }
      f := next;
    }

    /** The wrap, and the advance a writer at the frontier has to make. */
    method MakeRoom(ghost h: seq<Key>)
      requires Valid(h)
      modifies this`resident, this`w, this`f, ring
      ensures Valid(h) && w < f && resident <= old(resident)
      ensures w == if old(w) == slots then 0 else old(w)
      ensures f == old(f) || f == if w + chunk < slots then w + chunk else slots
    {
      if w == slots {
        Wrap(h, ring[..], resident);
        w := 0;
        f := 0;
      }
      if w == f { Advance(h); }
    }

    method Store(k: Key, ghost h: seq<Key>)
      requires Valid(h) && w < f && k !in resident
      modifies this`resident, this`w, ring
      ensures Shaped(h + [k]) && w == old(w) + 1
    {
      ghost var was := ring[..];
      StoreKey(h, was, resident, w, f, k);
      ring[w] := k;
      assert ring[..] == was[w := k];
      w := w + 1;
      resident := resident + {k};
    }

    method Access(k: Key, ghost h: seq<Key>) returns (hit: bool)
      requires Valid(h)
      modifies this`resident, this`w, this`f, ring
      ensures hit <==> k in old(resident)
      ensures Valid(if hit then h else h + [k])
      ensures hit ==> resident == old(resident) && w == old(w) && f == old(f)
      ensures !hit ==> w == if old(w) == slots then 1 else old(w) + 1
      ensures chunk == slots && (old(f) == slots || old(f) == old(w)) && !hit ==> f == slots
    {
      if k in resident { return true; }
      MakeRoom(h);
      Store(k, h);
      // Early advance: keep half a chunk of cleaned runway.
      if f < slots && f - w < chunk / 2 + 1 { Advance(h + [k]); }
      return false;
    }
  }

  // ---- what the shape means -----------------------------------------------------------------------

  function Keys(s: seq<Key>): set<Key> { set k | k in s }

  lemma {:induction false} DistinctCount(s: seq<Key>)
    requires Distinct(s)
    ensures |Keys(s)| == |s|
  {
    if s != [] {
      var front := s[..|s| - 1];
      DistinctCount(front);
      assert Keys(s) == Keys(front) + {s[|s| - 1]};
    }
  }

  /** The retained keys are exactly a suffix of the insertions, unless the empty marker itself
      was inserted and has since left the suffix. */
  lemma ResidentsAreSuffix(h: seq<Key>, ring: seq<Key>, resident: set<Key>, w: nat, f: nat)
    requires Shape(h, ring, resident, w, f)
    ensures var kept := h[Start(|h|, |ring|, w, f)..];
            resident == Keys(kept) <==> (EMPTY in h ==> EMPTY in kept)
  {
    var kept := h[Start(|h|, |ring|, w, f)..];
    if EMPTY in h ==> EMPTY in kept {
      assert resident == Keys(kept);
    } else {
      assert EMPTY in resident && EMPTY !in Keys(kept);
    }
  }

  /** From the end of the first pass on, all but a chunk and a half of the slots stay resident. */
  lemma RetainedCount(h: seq<Key>, ring: seq<Key>, resident: set<Key>, w: nat, f: nat, chunk: nat)
    requires Shape(h, ring, resident, w, f) && f - w <= chunk + chunk / 2 && |h| >= |ring|
    ensures |resident| >= |ring| - (chunk + chunk / 2)
  {
    var kept := h[Start(|h|, |ring|, w, f)..];
    DistinctCount(kept);
    SubsetCount(Keys(kept), resident);
  }

  lemma SubsetCount(x: set<Key>, y: set<Key>)
    requires x <= y
    ensures |x| <= |y|
  {
    assert y == x + (y - x);
  }

  // ---- one chunk is the wrap flush ------------------------------------------------------------------

  class Flush {
    const cap: nat
    var keys: set<Key>

    constructor (cap: nat)
      ensures keys == {} && this.cap == cap
    {
      this.cap := cap;
      keys := {};
    }

    method Access(k: Key) returns (hit: bool)
      modifies this
      ensures hit <==> k in old(keys)
      ensures keys == if hit then old(keys) else FlushKeys(old(keys), cap, k)
    {
      if k in keys { return true; }
      if |keys| == cap { keys := {}; }
      keys := keys + {k};
      return false;
    }
  }

  /** The keys of the current pass. */
  function Pass(h: seq<Key>, w: nat): seq<Key>
    requires w <= |h|
  {
    h[|h| - w..]
  }

  lemma ResidentsAreThisPass(h: seq<Key>, ring: seq<Key>, resident: set<Key>, w: nat, f: nat)
    requires Shape(h, ring, resident, w, f) && (f == |ring| || h == [])
    ensures w <= |h| && forall k :: k in resident <==> k in Pass(h, w) || (k == EMPTY && k in h)
  {
    assert h[Start(|h|, |ring|, w, f)..] == Pass(h, w);
  }

  /** The set the wrap flush keeps. */
  function FlushKeys(keys: set<Key>, cap: nat, k: Key): set<Key> {
    (if |keys| == cap then {} else keys) + {k}
  }

  lemma NextPass(h: seq<Key>, w: nat, slots: nat, k: Key)
    requires w <= |h| && w <= slots && slots > 0 && |Keys(Pass(h, w))| == w && k !in Pass(h, w)
    ensures var w' := if w == slots then 1 else w + 1;
            && Keys(Pass(h + [k], w')) == FlushKeys(Keys(Pass(h, w)), slots, k)
            && |Keys(Pass(h + [k], w'))| == w'
  {
    if w == slots {
      assert Pass(h + [k], 1) == [k];
      assert Keys([k]) == {k};
    } else {
      assert Pass(h + [k], w + 1) == Pass(h, w) + [k];
      assert Keys(Pass(h, w) + [k]) == Keys(Pass(h, w)) + {k};
    }
  }

  ghost predicate Coupled(a: Retain, b: Flush, h: seq<Key>)
    reads a, a.ring, b
  {
    && a.Valid(h) && a.chunk == a.slots == b.cap && a.w <= |h|
    && (a.f == a.slots || (h == [] && a.f == 0))
    && b.keys == Keys(Pass(h, a.w)) && |b.keys| == a.w
  }

  /** One access to each: the same outcome, unless the empty marker is asked for after the pass
      that inserted it is over. */
  method AccessBoth(a: Retain, b: Flush, k: Key, ghost h: seq<Key>) returns (hitA: bool, hitB: bool)
    requires Coupled(a, b, h)
    modifies a`resident, a`w, a`f, a.ring, b
    ensures hitB <==> k in old(Pass(h, a.w))
    ensures hitA == hitB <==> !(k == EMPTY && k in h && k !in old(Pass(h, a.w)))
    ensures hitA == hitB ==> Coupled(a, b, if hitA then h else h + [k])
    ensures !hitA ==> a.w == if old(a.w) == a.slots then 1 else old(a.w) + 1
  {
    ResidentsAreThisPass(h, a.ring[..], a.resident, a.w, a.f);
    if k !in Pass(h, a.w) { NextPass(h, a.w, a.slots, k); }
    hitA := a.Access(k, h);
    hitB := b.Access(k);
  }

  /** On every trace without the empty marker, one chunk hits and misses as the wrap flush does. */
  method Replay(slots: nat, trace: seq<Key>) returns (hitsA: seq<bool>, hitsB: seq<bool>)
    requires slots > 0 && EMPTY !in trace
    ensures hitsA == hitsB && |hitsA| == |trace|
  {
    var a := new Retain(slots, 1);
    var b := new Flush(slots);
    ghost var h := [];
    hitsA, hitsB := [], [];
    for i := 0 to |trace|
      invariant fresh(a) && fresh(a.ring) && fresh(b) && Coupled(a, b, h)
      invariant EMPTY !in h && hitsA == hitsB && |hitsA| == i
    {
      var x, y := AccessBoth(a, b, trace[i], h);
      if !x { h := h + [trace[i]]; }
      hitsA, hitsB := hitsA + [x], hitsB + [y];
    }
  }

  /** With it they part: the ring never evicts the marker. */
  method MarkerNeverLeaves() returns (hitA: bool, hitB: bool)
    ensures hitA && !hitB
  {
    var a := new Retain(1, 1);
    var b := new Flush(1);
    ghost var h := [EMPTY];
    var x, _ := AccessBoth(a, b, EMPTY, []);
    assert [] + [EMPTY] == h;
    var y, _ := AccessBoth(a, b, 0, h);
    h := h + [0];
    assert Pass(h, 1) == [0] && EMPTY == h[0];
    hitA, hitB := AccessBoth(a, b, EMPTY, h);
  }

  lemma MulMono(a: int, b: int, m: nat)
    requires a <= b
    ensures a * m <= b * m
  {}

  lemma CeilDiv(slots: nat, chunks: nat)
    requires slots > 0 && chunks > 0
    ensures var c := (slots + chunks - 1) / chunks; 0 < c <= slots && (c - 1) * chunks < slots <= c * chunks
  {
    var c, r := (slots + chunks - 1) / chunks, (slots + chunks - 1) % chunks;
    assert c * chunks == slots + chunks - 1 - r;
    assert (c - 1) * chunks == c * chunks - chunks;
    if c <= 0 { MulMono(c, 0, chunks); assert false; }
    if c > slots { MulMono(slots, c - 1, chunks); MulMono(1, chunks, slots); assert false; }
  }
}
