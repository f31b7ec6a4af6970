/** The in-memory directory: four-slot buckets, a seqlock version per bucket and a count
    of the entries. */
module Directory {
  import opened Bitwise
  import opened Bucket
  import opened DirectoryEntry

  const SLOTS: nat := 4

  // ---- counting ---------------------------------------------------------------------------

  function NonEmpty(s: seq<Entry>): nat {
    if s == [] then 0 else NonEmpty(s[..|s| - 1]) + (if s[|s| - 1].IsEmpty() then 0 else 1)
  }

  lemma {:induction false} NonEmptyConcat(a: seq<Entry>, b: seq<Entry>)
    ensures NonEmpty(a + b) == NonEmpty(a) + NonEmpty(b)
    decreases |b|
  {
    if b == [] {
      assert a + b == a;
    } else {
      assert (a + b)[..|a + b| - 1] == a + b[..|b| - 1];
      NonEmptyConcat(a, b[..|b| - 1]);
    }
  }

  lemma NonEmptyUpdate(s: seq<Entry>, i: nat, e: Entry)
    requires i < |s|
    ensures NonEmpty(s[i := e]) == NonEmpty(s) - (if s[i].IsEmpty() then 0 else 1) + (if e.IsEmpty() then 0 else 1)
  {
    assert s == s[..i] + [s[i]] + s[i + 1..];
    assert s[i := e] == s[..i] + [e] + s[i + 1..];
    NonEmptyConcat(s[..i] + [s[i]], s[i + 1..]);
    NonEmptyConcat(s[..i] + [e], s[i + 1..]);
    NonEmptyConcat(s[..i], [s[i]]);
    NonEmptyConcat(s[..i], [e]);
    assert [s[i]][..0] == [] && [e][..0] == [];
  }

  // ---- the legacy choice, without an admission -------------------------------------------------

  /** Lower is taken first: the verified (or trusted) entry, an empty slot, a stale one, a
      tag collider, anything else. */
  function Rank(e: Entry, tag: nat, verified: nat, phase: bool): nat {
    if e.IsEmpty() then 1
    else if e.phase != phase then 2
    else if e.tag != tag then 4
    else if verified == MATCH_ANY_TAG || e.offset == verified then 0
    else 3
  }

  ghost predicate IsLegacyVictim(b: seq<Entry>, tag: nat, verified: nat, phase: bool, slot: int) {
    && 0 <= slot < |b|
    && forall i :: 0 <= i < |b| ==>
      var mine, other := Rank(b[slot], tag, verified, phase), Rank(b[i], tag, verified, phase);
      && mine <= other
      && (mine == other != 4 ==> slot <= i)
      && (mine == other == 4 ==> b[slot].offset <= b[i].offset)
  }

  method LegacyVictim(b: seq<Entry>, tag: nat, verified: nat, phase: bool) returns (slot: int)
    requires b != []
    ensures IsLegacyVictim(b, tag, verified, phase, slot)
  {
    var empty, stale, collider, nearest := -1, -1, -1, -1;
    for i := 0 to |b|
      invariant -1 <= empty < i && -1 <= stale < i && -1 <= collider < i && -1 <= nearest < i
      invariant empty >= 0 ==> Rank(b[empty], tag, verified, phase) == 1
      invariant stale >= 0 ==> Rank(b[stale], tag, verified, phase) == 2
      invariant collider >= 0 ==> Rank(b[collider], tag, verified, phase) == 3
      invariant forall j :: 0 <= j < i ==> Rank(b[j], tag, verified, phase) != 0
      invariant forall j :: 0 <= j < i && Rank(b[j], tag, verified, phase) == 1 ==> 0 <= empty <= j
      invariant forall j :: 0 <= j < i && Rank(b[j], tag, verified, phase) == 2 ==> 0 <= stale <= j
      invariant forall j :: 0 <= j < i && Rank(b[j], tag, verified, phase) == 3 ==> 0 <= collider <= j
      invariant forall j :: 0 <= j < i && !b[j].IsEmpty() ==> nearest >= 0 && b[nearest].offset <= b[j].offset
    {
      var e := b[i];
      if e.IsEmpty() {
        if empty < 0 { empty := i; }
        continue;
      }
      if nearest < 0 || e.offset < b[nearest].offset { nearest := i; }
      if e.tag == tag && e.phase == phase {
        if verified == MATCH_ANY_TAG || e.offset == verified { return i; }
        if collider < 0 { collider := i; }
        continue;
      }
      if e.phase != phase && stale < 0 { stale := i; }
    }
    assert Rank(b[0], tag, verified, phase) <= 4;
    return if empty >= 0 then empty else if stale >= 0 then stale else if collider >= 0 then collider else nearest;
  }

  /** In place for a match; the bits of a reused slot other than its pinned flag are
      replaced; a slot taken from a live entry starts from zero. */
  function LegacyWritten(e: Entry, rank: nat, tag: nat, offset: nat, approxSize: nat, phase: bool, serial: nat): Entry {
    var e' := e.(offset := offset % OFFSETS, approxSize := approxSize, serial := serial, phase := phase);
    if rank == 0 then e'
    else if rank < 4 then e'.(tag := tag, head := true)
    else Entry(offset % OFFSETS, approxSize, tag, phase, true, false, serial)
  }

  datatype View = Unconditional | Seen(offsets: seq<nat>)

  lemma ChoiceOccupied(b: seq<Entry>, req: Request)
    requires b != []
    ensures 0 <= Choose(b, req).slot < |b|
    ensures Choose(b, req).occupied <==> !b[Choose(b, req).slot].IsEmpty()
  {
    AlwaysAChoice(b, req);
    Candidates(b, req);
  }

  function FirstWithTag(b: seq<Entry>, tag: nat): (i: nat)
    ensures i <= |b|
  {
    if b == [] || HasTag(b[0], tag) then 0 else 1 + FirstWithTag(b[1..], tag)
  }

  function WithoutFirst(b: seq<Entry>, tag: nat): seq<Entry> {
    var i := FirstWithTag(b, tag);
    if i < |b| then b[i := EMPTY] else b
  }

  lemma {:induction false} FirstWithTagIs(b: seq<Entry>, tag: nat, i: nat)
    requires i <= |b| && forall j :: 0 <= j < i ==> !HasTag(b[j], tag)
    requires i < |b| ==> HasTag(b[i], tag)
    ensures FirstWithTag(b, tag) == i
  {
    if i > 0 {
      assert forall j :: 0 <= j < i - 1 ==> b[1..][j] == b[j + 1];
      FirstWithTagIs(b[1..], tag, i - 1);
    }
  }

  // ---- what the operations do to one bucket --------------------------------------------------------

  /** Insert: the new bucket and the change of the entry count, which is exact unless an
      empty offset is published. */
  method InsertInto(b: seq<Entry>, req: Request, clear: seq<nat>, approxSize: nat, phase: bool, serial: nat)
    returns (b': seq<Entry>, delta: int, choice: Choice)
    requires b != []
    ensures choice == Choose(b, req)
    ensures b' == Inserted(b, req, clear, approxSize, phase, serial)
    ensures NonEmpty(b') == NonEmpty(b) + delta - if req.offset % OFFSETS == 0 then 1 else 0
  {
    choice := ChooseInsertSlot(b, req);
    ChoiceOccupied(b, req);
    var slot := choice.slot;
    var e := Written(b[slot], choice.verified, req, approxSize, phase, serial);
    NonEmptyUpdate(b, slot, e);
    b' := b[slot := e];
    delta := if choice.occupied then 0 else 1;
    for i := 0 to |b|
      invariant |b'| == |b| && b'[slot] == e
      invariant forall j :: 0 <= j < i && j != slot ==> b'[j] == if Cleared(b[j], req, clear) then EMPTY else b[j]
      invariant forall j :: i <= j < |b| && j != slot ==> b'[j] == b[j]
      invariant NonEmpty(b') == NonEmpty(b) + delta - if req.offset % OFFSETS == 0 then 1 else 0
    {
      if i == slot || b'[i].IsEmpty() || b'[i].tag != req.tag { continue; }
      if b'[i].offset == req.offset || b'[i].offset in clear {
        NonEmptyUpdate(b', i, EMPTY);
        b' := b'[i := EMPTY];
        delta := delta - 1;
      }
    }
    assert b' == Inserted(b, req, clear, approxSize, phase, serial);
  }

  /** The count does go wrong: an insert at offset 2^40 into an empty bucket takes a free
      slot, which counts one entry more, and leaves the bucket empty. */
  lemma TruncatedOffsetMiscounts(adm: Admission)
    ensures var b := [EMPTY, EMPTY, EMPTY, EMPTY];
            var req := Request(1, NO_VERIFIED_ENTRY, OFFSETS, adm);
            !Choose(b, req).occupied && NonEmpty(b) == NonEmpty(Inserted(b, req, [], 512, false, 0)) == 0
  {
    var b := [EMPTY, EMPTY, EMPTY, EMPTY];
    var req := Request(1, NO_VERIFIED_ENTRY, OFFSETS, adm);
    ChoiceOccupied(b, req);
    var b' := Inserted(b, req, [], 512, false, 0);
    assert b'[0].IsEmpty() && b'[1].IsEmpty() && b'[2].IsEmpty() && b'[3].IsEmpty();
    NoneLeft(b);
    NoneLeft(b');
  }

  lemma {:induction false} NoneLeft(s: seq<Entry>)
    requires forall i :: 0 <= i < |s| ==> s[i].IsEmpty()
    ensures NonEmpty(s) == 0
  {
    if s != [] { NoneLeft(s[..|s| - 1]); }
  }

  method RemoveAtFrom(b: seq<Entry>, tag: nat, offset: nat) returns (b': seq<Entry>, n: nat)
    ensures b' == WithoutAt(b, tag, offset)
    ensures NonEmpty(b') == NonEmpty(b) - n
    ensures n > 0 <==> exists i :: 0 <= i < |b| && IsAt(b[i], tag, offset)
  {
    b', n := b, 0;
    for i := 0 to |b|
      invariant |b'| == |b|
      invariant forall j :: 0 <= j < i ==> b'[j] == if IsAt(b[j], tag, offset) then EMPTY else b[j]
      invariant forall j :: i <= j < |b| ==> b'[j] == b[j]
      invariant n > 0 <==> exists j :: 0 <= j < i && IsAt(b[j], tag, offset)
      invariant NonEmpty(b') == NonEmpty(b) - n
    {
      if IsAt(b'[i], tag, offset) {
        NonEmptyUpdate(b', i, EMPTY);
        b', n := b'[i := EMPTY], n + 1;
      }
    }
    assert b' == WithoutAt(b, tag, offset);
  }

  // ---- the directory ------------------------------------------------------------------------------

  method Recount(entries: seq<Entry>) returns (c: int)
    ensures c == NonEmpty(entries)
  {
    c := 0;
    for i := 0 to |entries|
      invariant c == NonEmpty(entries[..i])
    {
      assert entries[..i + 1][..i] == entries[..i];
      if !entries[i].IsEmpty() { c := c + 1; }
    }
    assert entries[..|entries|] == entries;
  }

  class Dir {
    const buckets: nat
    var entries: seq<Entry>
    var versions: seq<nat>
    var count: int
    var phase: bool

    predicate Valid()
      reads this
    {
      buckets > 0 && |entries| == SLOTS * buckets && |versions| == buckets
    }

    predicate CountIsExact()
      reads this
    {
      count == NonEmpty(entries)
    }

    function BucketOf(hash: nat): seq<Entry>
      requires Valid()
      reads this
    {
      var k := SLOTS * (hash % buckets);
      entries[k..k + SLOTS]
    }

    /** Every bucket but that of `hash` is as in `before`. */
    ghost predicate OthersKept(hash: nat, before: seq<Entry>)
      requires Valid()
      reads this
    {
      && |before| == |entries|
      && forall i :: 0 <= i < |entries| && !(SLOTS * (hash % buckets) <= i < SLOTS * (hash % buckets) + SLOTS) ==>
        entries[i] == before[i]
    }

    constructor (n: nat)
      requires n > 0
      ensures Valid() && CountIsExact() && buckets == n && count == 0
      ensures entries == seq(SLOTS * n, _ => EMPTY) && versions == seq(n, _ => 0)
    {
      buckets := n;
      entries := seq(SLOTS * n, _ => EMPTY);
      versions := seq(n, _ => 0);
      count := 0;
      phase := false;
      new;
      NoneLeft(entries);
    }

    /** The bucket of `hash` becomes b', through one odd-even bracket. */
    method WriteBucket(hash: nat, b': seq<Entry>, delta: int)
      requires Valid() && |b'| == SLOTS
      modifies `entries, `versions, `count
      ensures Valid() && BucketOf(hash) == b' && OthersKept(hash, old(entries))
      ensures var k := SLOTS * (hash % buckets);
              entries == old(entries)[..k] + b' + old(entries)[k + SLOTS..]
      ensures versions == old(versions)[hash % buckets := old(versions)[hash % buckets] + 2]
      ensures count == old(count) + delta
      ensures NonEmpty(entries) == old(NonEmpty(entries)) - old(NonEmpty(BucketOf(hash))) + NonEmpty(b')
    {
      var idx := hash % buckets;
      var k := SLOTS * idx;
      ghost var pre, b, post := entries[..k], entries[k..k + SLOTS], entries[k + SLOTS..];
      assert entries == pre + b + post;
      versions := versions[idx := versions[idx] + 1];
      entries := entries[..k] + b' + entries[k + SLOTS..];
      versions := versions[idx := versions[idx] + 1];
      count := count + delta;
      assert BucketOf(hash) == b';
      NonEmptyConcat(pre + b, post);
      NonEmptyConcat(pre, b);
      NonEmptyConcat(pre + b', post);
      NonEmptyConcat(pre, b');
    }

    /** Insert under an admission, publishing only if the view is still current. */
    method Insert(hash: nat, req: Request, clear: seq<nat>, view: View, approxSize: nat, serial: nat)
      returns (published: bool, collisionEvicted: bool, bucketFullEvicted: bool)
      requires Valid()
      modifies `entries, `versions, `count
      ensures Valid() && OthersKept(hash, old(entries))
      ensures published <==> (view.Seen? ==> ViewIsCurrent(old(BucketOf(hash)), req, view.offsets))
      ensures !published ==> unchanged(this)
      ensures published ==>
        && BucketOf(hash) == Inserted(old(BucketOf(hash)), req, clear, approxSize, phase, serial)
        && collisionEvicted == Choose(old(BucketOf(hash)), req).collisionEvicted
        && bucketFullEvicted == Choose(old(BucketOf(hash)), req).bucketFullEvicted
      ensures published && old(CountIsExact()) ==> (CountIsExact() <==> req.offset % OFFSETS != 0)
    {
      var b := BucketOf(hash);
      if view.Seen? {
        var current := PublishViewIsCurrent(b, req, view.offsets);
        if !current { return false, false, false; }
      }
      var b', delta, c := InsertInto(b, req, clear, approxSize, phase, serial);
      WriteBucket(hash, b', delta);
      return true, c.collisionEvicted, c.bucketFullEvicted;
    }

    /** Insert without an admission: every entry of the current phase is live. */
    method InsertLegacy(hash: nat, tag: nat, offset: nat, approxSize: nat, verified: nat, serial: nat)
      returns (slot: int, collisionEvicted: bool, bucketFullEvicted: bool)
      requires Valid()
      modifies `entries, `versions, `count
      ensures Valid() && OthersKept(hash, old(entries))
      ensures IsLegacyVictim(old(BucketOf(hash)), tag, verified, phase, slot)
      ensures var b := old(BucketOf(hash));
              var rank := Rank(b[slot], tag, verified, phase);
              && BucketOf(hash) == b[slot := LegacyWritten(b[slot], rank, tag, offset, approxSize, phase, serial)]
              && collisionEvicted == (rank == 3) && bucketFullEvicted == (rank == 4)
      ensures var e, e' := old(BucketOf(hash))[slot], BucketOf(hash)[slot];
              && e'.tag == tag && e'.offset == offset % OFFSETS && e'.approxSize == approxSize && e'.phase == phase && e'.serial == serial
              && (bucketFullEvicted ==> e'.head && !e'.pinned) && (!bucketFullEvicted ==> e'.pinned == e.pinned)
              && (if Rank(e, tag, verified, phase) == 0 then e'.head == e.head else e'.head)
      ensures old(CountIsExact()) ==> (CountIsExact() <==> offset % OFFSETS != 0)
    {
      var b := BucketOf(hash);
      slot := LegacyVictim(b, tag, verified, phase);
      var rank := Rank(b[slot], tag, verified, phase);
      var e := LegacyWritten(b[slot], rank, tag, offset, approxSize, phase, serial);
      NonEmptyUpdate(b, slot, e);
      WriteBucket(hash, b[slot := e], if b[slot].IsEmpty() then 1 else 0);
      collisionEvicted, bucketFullEvicted := rank == 3, rank == 4;
    }

    /** Drops every entry with this tag at this offset. */
    method RemoveAt(hash: nat, tag: nat, offset: nat) returns (removed: bool)
      requires Valid()
      modifies `entries, `versions, `count
      ensures Valid() && OthersKept(hash, old(entries))
      ensures old(CountIsExact()) ==> CountIsExact()
      ensures BucketOf(hash) == WithoutAt(old(BucketOf(hash)), tag, offset)
      ensures removed <==> exists i :: 0 <= i < SLOTS && IsAt(old(BucketOf(hash))[i], tag, offset)
      ensures !removed ==> unchanged(this)
    {
      var b := BucketOf(hash);
      var b', n := RemoveAtFrom(b, tag, offset);
      removed := n != 0;
      if removed {
        var removals: int := n;
        WriteBucket(hash, b', -removals);
      } else {
        assert b' == b;
      }
    }

    /** Drops the first entry with this tag, whichever key's it is. */
    method Remove(hash: nat, tag: nat) returns (removed: bool)
      requires Valid()
      modifies `entries, `versions, `count
      ensures Valid() && OthersKept(hash, old(entries))
      ensures old(CountIsExact()) ==> CountIsExact()
      ensures removed <==> FirstWithTag(old(BucketOf(hash)), tag) < SLOTS
      ensures BucketOf(hash) == WithoutFirst(old(BucketOf(hash)), tag)
      ensures !removed ==> unchanged(this)
    {
      var b := BucketOf(hash);
      var i := 0;
      while i < SLOTS && !HasTag(b[i], tag)
        invariant 0 <= i <= SLOTS
        invariant forall j :: 0 <= j < i ==> !HasTag(b[j], tag)
      {
        i := i + 1;
      }
      FirstWithTagIs(b, tag, i);
      removed := i < SLOTS;
      if removed {
        NonEmptyUpdate(b, i, EMPTY);
        WriteBucket(hash, b[i := EMPTY], -1);
      }
    }

    method Clear()
      requires Valid()
      modifies `entries, `count
      ensures Valid() && CountIsExact() && entries == seq(SLOTS * buckets, _ => EMPTY) && count == 0
    {
      entries := seq(SLOTS * buckets, _ => EMPTY);
      count := 0;
      NoneLeft(entries);
    }

    /** Overwrites the entries with the whole records of `data`, as many as there are and fit,
        and recounts. */
    method Deserialize(data: seq<Byte>)
      requires Valid()
      modifies `entries, `count
      ensures Valid() && CountIsExact()
      ensures var n := if |data| / RECORD < |old(entries)| then |data| / RECORD else |old(entries)|;
              && (forall i :: 0 <= i < n ==> entries[i] == Decode(data[RECORD * i..RECORD * i + RECORD]))
              && entries[n..] == old(entries)[n..]
    {
      var n := if |data| / RECORD > |entries| then |entries| else |data| / RECORD;
      entries := DecodeAll(data, n) + entries[n..];
      count := Recount(entries);
    }
  }
}
