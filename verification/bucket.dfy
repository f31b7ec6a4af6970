/** One directory bucket: which slot an insert takes, what it clears, and when a writer's
    view of the bucket is still current.  Shared by both directory kinds. */
module Bucket {

  const OFFSETS: nat := 0x100_0000_0000                 // offsets are 40 bits wide
  const MATCH_ANY_TAG: nat := 0xFFFF_FFFF_FFFF_FFFF
  const NO_VERIFIED_ENTRY: nat := 0xFFFF_FFFF_FFFF_FFFE

  datatype Entry = Entry(offset: nat, approxSize: nat, tag: nat, phase: bool, head: bool, pinned: bool, serial: nat)
  {
    predicate IsEmpty() { offset == 0 }
  }

  const EMPTY: Entry := Entry(0, 0, 0, false, false, false, 0)

  datatype AdmitClass = Reject | Current | Retained

  type Admission = (nat, bool) -> AdmitClass

  /** What an insert asks for: the key's tag, the offset of the key's verified entry (or
      a sentinel), the offset just written, and the stripe's admission. */
  datatype Request = Request(tag: nat, verified: nat, offset: nat, adm: Admission)

  // ---- the part each slot plays in the victim choice ---------------------------------------

  datatype Role = Free | Verified | SameSpot | Inadmissible | Collider | OldRetained | OldCurrent

  /** The key's own entry. */
  predicate IsVerified(e: Entry, req: Request) {
    && !e.IsEmpty() && e.tag == req.tag
    && if req.verified == MATCH_ANY_TAG then req.adm(e.offset, e.phase) != Reject else e.offset == req.verified
  }

  function RoleOf(e: Entry, req: Request): Role {
    if e.IsEmpty() then Free
    else if IsVerified(e, req) then Verified
    else
      var cls := req.adm(e.offset, e.phase);
      if req.offset != 0 && e.tag == req.tag && e.offset == req.offset then SameSpot
      else if cls == Reject then Inadmissible
      else if e.tag == req.tag then Collider
      else if cls == Retained then OldRetained
      else OldCurrent
  }

  /** The first of the first n slots that plays `role`, or -1. */
  function First(b: seq<Entry>, req: Request, role: Role, n: nat): (r: int)
    requires n <= |b|
    ensures -1 <= r < n
  {
    if n == 0 then -1
    else
      var r := First(b, req, role, n - 1);
      if r >= 0 then r else if RoleOf(b[n - 1], req) == role then n - 1 else -1
  }

  lemma {:induction false} FirstIsFirst(b: seq<Entry>, req: Request, role: Role, n: nat)
    requires n <= |b|
    ensures var r := First(b, req, role, n);
            && (r >= 0 ==> RoleOf(b[r], req) == role)
            && forall i :: 0 <= i < (if r < 0 then n else r) ==> RoleOf(b[i], req) != role
  {
    if n > 0 { FirstIsFirst(b, req, role, n - 1); }
  }

  /** The lowest-offset slot that plays `role` among the first n, or -1. */
  function Oldest(b: seq<Entry>, req: Request, role: Role, n: nat): (r: int)
    requires n <= |b|
    ensures -1 <= r < n
  {
    if n == 0 then -1
    else
      var r := Oldest(b, req, role, n - 1);
      if RoleOf(b[n - 1], req) == role && (r < 0 || b[n - 1].offset < b[r].offset) then n - 1 else r
  }

  lemma {:induction false} OldestIsOldest(b: seq<Entry>, req: Request, role: Role, n: nat)
    requires n <= |b|
    ensures var r := Oldest(b, req, role, n);
            && (r >= 0 ==> RoleOf(b[r], req) == role)
            && (forall i :: 0 <= i < n && RoleOf(b[i], req) == role ==> r >= 0 && b[r].offset <= b[i].offset)
            && (forall i :: 0 <= i < r && RoleOf(b[i], req) == role ==> b[r].offset < b[i].offset)
  {
    if n > 0 { OldestIsOldest(b, req, role, n - 1); }
  }

  datatype Choice = Choice(slot: int, occupied: bool, verified: bool, collisionEvicted: bool, bucketFullEvicted: bool)

  function Choose(b: seq<Entry>, req: Request): Choice {
    var n := |b|;
    if First(b, req, Verified, n) >= 0 then Choice(First(b, req, Verified, n), true, true, false, false)
    else if First(b, req, SameSpot, n) >= 0 then Choice(First(b, req, SameSpot, n), true, false, false, false)
    else if First(b, req, Free, n) >= 0 then Choice(First(b, req, Free, n), false, false, false, false)
    else if First(b, req, Inadmissible, n) >= 0 then Choice(First(b, req, Inadmissible, n), true, false, false, false)
    else if First(b, req, Collider, n) >= 0 then Choice(First(b, req, Collider, n), true, false, true, false)
    else
      var oldest := if Oldest(b, req, OldRetained, n) >= 0 then Oldest(b, req, OldRetained, n) else Oldest(b, req, OldCurrent, n);
      Choice(oldest, oldest >= 0, false, false, oldest >= 0)
  }

  /** The best candidate of each kind among the first n slots. */
  datatype Best = Best(sameSpot: int, free: int, inadmissible: int, collider: int, retained: int, current: int)

  function BestOf(b: seq<Entry>, req: Request, n: nat): Best
    requires n <= |b|
  {
    Best(First(b, req, SameSpot, n), First(b, req, Free, n), First(b, req, Inadmissible, n), First(b, req, Collider, n),
         Oldest(b, req, OldRetained, n), Oldest(b, req, OldCurrent, n))
  }

  /** The body of the chooser's loop, for a slot that is not the key's own. */
  method Consider(b: seq<Entry>, req: Request, i: nat, was: Best) returns (best: Best)
    requires i < |b| && was == BestOf(b, req, i) && !IsVerified(b[i], req)
    ensures best == BestOf(b, req, i + 1)
  {
    best := was;
    var e := b[i];
    if e.IsEmpty() {
      if best.free < 0 { best := best.(free := i); }
      return;
    }
    var cls := req.adm(e.offset, e.phase);
    if req.offset != 0 && e.tag == req.tag && e.offset == req.offset {
      if best.sameSpot < 0 { best := best.(sameSpot := i); }
    } else if cls == Reject {
      if best.inadmissible < 0 { best := best.(inadmissible := i); }
    } else if e.tag == req.tag {
      if best.collider < 0 { best := best.(collider := i); }
    } else if cls == Retained {
      if best.retained < 0 || e.offset < b[best.retained].offset { best := best.(retained := i); }
    } else {
      if best.current < 0 || e.offset < b[best.current].offset { best := best.(current := i); }
    }
  }

  /** One pass over the slots, keeping the best candidate of each kind. */
  method ChooseInsertSlot(b: seq<Entry>, req: Request) returns (choice: Choice)
    ensures choice == Choose(b, req)
  {
    var best := Best(-1, -1, -1, -1, -1, -1);
    for i := 0 to |b|
      invariant First(b, req, Verified, i) < 0 && best == BestOf(b, req, i)
    {
      if IsVerified(b[i], req) {
        VerifiedWins(b, req, i);
        return Choice(i, true, true, false, false);
      }
      best := Consider(b, req, i, best);
    }
    if best.sameSpot >= 0 { return Choice(best.sameSpot, true, false, false, false); }
    if best.free >= 0 { return Choice(best.free, false, false, false, false); }
    if best.inadmissible >= 0 { return Choice(best.inadmissible, true, false, false, false); }
    if best.collider >= 0 { return Choice(best.collider, true, false, true, false); }
    var oldest := if best.retained >= 0 then best.retained else best.current;
    return Choice(oldest, oldest >= 0, false, false, oldest >= 0);
  }

  lemma VerifiedWins(b: seq<Entry>, req: Request, i: nat)
    requires i < |b| && RoleOf(b[i], req) == Verified && First(b, req, Verified, i) < 0
    ensures First(b, req, Verified, |b|) == i
  {
    FirstIsFirst(b, req, Verified, i);
    FirstIsFirst(b, req, Verified, |b|);
  }

  lemma Candidates(b: seq<Entry>, req: Request)
    ensures forall role :: First(b, req, role, |b|) < 0 ==> forall i :: 0 <= i < |b| ==> RoleOf(b[i], req) != role
    ensures forall role :: First(b, req, role, |b|) >= 0 ==> RoleOf(b[First(b, req, role, |b|)], req) == role
    ensures forall role :: Oldest(b, req, role, |b|) >= 0 ==> RoleOf(b[Oldest(b, req, role, |b|)], req) == role
    ensures forall role, i :: 0 <= i < |b| && RoleOf(b[i], req) == role ==>
              Oldest(b, req, role, |b|) >= 0 && b[Oldest(b, req, role, |b|)].offset <= b[i].offset
  {
    forall role
      ensures First(b, req, role, |b|) < 0 ==> forall i :: 0 <= i < |b| ==> RoleOf(b[i], req) != role
      ensures First(b, req, role, |b|) >= 0 ==> RoleOf(b[First(b, req, role, |b|)], req) == role
    {
      FirstIsFirst(b, req, role, |b|);
    }
    forall role
      ensures Oldest(b, req, role, |b|) >= 0 ==> RoleOf(b[Oldest(b, req, role, |b|)], req) == role
      ensures forall i :: 0 <= i < |b| && RoleOf(b[i], req) == role ==>
                Oldest(b, req, role, |b|) >= 0 && b[Oldest(b, req, role, |b|)].offset <= b[i].offset
    {
      OldestIsOldest(b, req, role, |b|);
    }
  }

  /** A bucket is never out of candidates. */
  lemma AlwaysAChoice(b: seq<Entry>, req: Request)
    requires b != []
    ensures 0 <= Choose(b, req).slot < |b|
  {
    Candidates(b, req);
    var role := RoleOf(b[0], req);
  }

  // ---- the insert -----------------------------------------------------------------------------

  /** The entry written to the chosen slot: in place for the verified entry, else fresh. */
  function Written(e: Entry, verified: bool, req: Request, approxSize: nat, phase: bool, serial: nat): Entry {
    if verified then e.(offset := req.offset % OFFSETS, approxSize := approxSize, serial := serial, phase := phase)
    else Entry(req.offset % OFFSETS, approxSize, req.tag, phase, true, false, serial)
  }

  /** The uniqueness cleanup: a same-tag entry at the offset just written, or at an offset
      the caller verified to hold a stale or duplicate copy of the key. */
  predicate Cleared(e: Entry, req: Request, clear: seq<nat>) {
    !e.IsEmpty() && e.tag == req.tag && (e.offset == req.offset || e.offset in clear)
  }

  function Inserted(b: seq<Entry>, req: Request, clear: seq<nat>, approxSize: nat, phase: bool, serial: nat): (b': seq<Entry>)
    requires b != []
    ensures |b'| == |b|
  {
    AlwaysAChoice(b, req);
    var c := Choose(b, req);
    seq(|b|, i requires 0 <= i < |b| =>
      if i == c.slot then Written(b[i], c.verified, req, approxSize, phase, serial)
      else if Cleared(b[i], req, clear) then EMPTY
      else b[i])
  }

  predicate Admitted(e: Entry, adm: Admission) {
    !e.IsEmpty() && adm(e.offset, e.phase) != Reject
  }

  /** After the insert of a valid offset exactly one entry has the key's tag at that
      offset, and no other entry has the tag at a cleared offset. */
  lemma InsertIsUnique(b: seq<Entry>, req: Request, clear: seq<nat>, approxSize: nat, phase: bool, serial: nat)
    requires b != [] && 0 < req.offset < OFFSETS
    ensures var slot := Choose(b, req).slot;
            var b' := Inserted(b, req, clear, approxSize, phase, serial);
            && 0 <= slot < |b| && b'[slot].tag == req.tag && b'[slot].offset == req.offset
            && b'[slot].approxSize == approxSize && b'[slot].phase == phase && b'[slot].serial == serial
            && (if Choose(b, req).verified then b'[slot].head == b[slot].head && b'[slot].pinned == b[slot].pinned
                else b'[slot].head && !b'[slot].pinned)
            && forall i :: 0 <= i < |b| && i != slot && !b'[i].IsEmpty() && b'[i].tag == req.tag ==>
                 b'[i].offset != req.offset && b'[i].offset !in clear
  {
    AlwaysAChoice(b, req);
    Candidates(b, req);
  }

  /** Every admitted entry that is not the key's own survives untouched, except at most
      one, and that one only when no slot is free or dead; the loss is reported by exactly one
      flag, as a tag collision or, when no slot collides, as the oldest retained entry or else
      the oldest current one. */
  lemma InsertLosesAtMostOne(b: seq<Entry>, req: Request, clear: seq<nat>, approxSize: nat, phase: bool, serial: nat)
    requires b != []
    ensures var c := Choose(b, req);
            var b' := Inserted(b, req, clear, approxSize, phase, serial);
            && 0 <= c.slot < |b|
            && (forall i :: 0 <= i < |b| && i != c.slot && !Cleared(b[i], req, clear) ==> b'[i] == b[i])
            && !(c.collisionEvicted && c.bucketFullEvicted)
            && (c.collisionEvicted || c.bucketFullEvicted <==>
                  Admitted(b[c.slot], req.adm) && RoleOf(b[c.slot], req) !in {Verified, SameSpot})
            && (c.collisionEvicted || c.bucketFullEvicted ==> forall i :: 0 <= i < |b| ==> Admitted(b[i], req.adm))
            && (c.collisionEvicted ==> b[c.slot].tag == req.tag)
            && (c.bucketFullEvicted ==>
                  forall i :: 0 <= i < |b| ==>
                    && Admitted(b[i], req.adm) && b[i].tag != req.tag
                    && (req.adm(b[c.slot].offset, b[c.slot].phase) == req.adm(b[i].offset, b[i].phase) ==>
                          b[c.slot].offset <= b[i].offset)
                    && (req.adm(b[i].offset, b[i].phase) == Retained ==>
                          req.adm(b[c.slot].offset, b[c.slot].phase) == Retained))
  {
    AlwaysAChoice(b, req);
    Candidates(b, req);
    var c := Choose(b, req);
    if c.bucketFullEvicted {
      forall i | 0 <= i < |b|
        ensures RoleOf(b[i], req) in {OldRetained, OldCurrent}
      {}
    }
  }

  /** A same-tag entry at the offset just written. */
  predicate AtNewOffset(e: Entry, req: Request) {
    req.offset != 0 && !e.IsEmpty() && e.tag == req.tag && e.offset == req.offset
  }

  ghost predicate NoneVerified(b: seq<Entry>, req: Request) {
    forall i :: 0 <= i < |b| ==> !IsVerified(b[i], req)
  }

  ghost predicate NoneAtNewOffset(b: seq<Entry>, req: Request) {
    forall i :: 0 <= i < |b| ==> !AtNewOffset(b[i], req)
  }

  /** In what order slots are taken, first the key's own entry, then one at the offset just written,
      a free one, a dead one: each the first of its kind, and only when there is none before it. */
  lemma FirstVictims(b: seq<Entry>, req: Request)
    requires b != []
    ensures 0 <= Choose(b, req).slot < |b|
    ensures Choose(b, req).verified <==> !NoneVerified(b, req)
    ensures var slot := Choose(b, req).slot;
            && (!NoneVerified(b, req) ==> IsVerified(b[slot], req) && forall i :: 0 <= i < slot ==> !IsVerified(b[i], req))
            && (NoneVerified(b, req) && !NoneAtNewOffset(b, req) ==>
                  AtNewOffset(b[slot], req) && forall i :: 0 <= i < slot ==> !AtNewOffset(b[i], req))
            && (NoneVerified(b, req) && NoneAtNewOffset(b, req) && (exists i :: 0 <= i < |b| && b[i].IsEmpty()) ==>
                  b[slot].IsEmpty() && forall i :: 0 <= i < slot ==> !b[i].IsEmpty())
            && (NoneVerified(b, req) && NoneAtNewOffset(b, req) && (forall i :: 0 <= i < |b| ==> !b[i].IsEmpty())
                && (exists i :: 0 <= i < |b| && !Admitted(b[i], req.adm)) ==>
                  !Admitted(b[slot], req.adm) && forall i :: 0 <= i < slot ==> Admitted(b[i], req.adm))
  {
    AlwaysAChoice(b, req);
    FirstIsFirst(b, req, Verified, |b|);
    FirstIsFirst(b, req, SameSpot, |b|);
    FirstIsFirst(b, req, Free, |b|);
    FirstIsFirst(b, req, Inadmissible, |b|);
    RolesAre(b, req);
  }

  /** A live entry is lost only when every slot holds one, none of them the key's own or at the
      offset just written: the first of the same tag, or, when there is none, the oldest retained
      one, or, when there is none, the oldest. */
  lemma LastVictims(b: seq<Entry>, req: Request)
    requires b != []
    ensures var c := Choose(b, req);
            && 0 <= c.slot < |b|
            && (c.collisionEvicted || c.bucketFullEvicted <==>
                  NoneVerified(b, req) && NoneAtNewOffset(b, req) && forall i :: 0 <= i < |b| ==> Admitted(b[i], req.adm))
            && (c.collisionEvicted ==> b[c.slot].tag == req.tag && forall i :: 0 <= i < c.slot ==> b[i].tag != req.tag)
            && (c.bucketFullEvicted ==> forall i :: 0 <= i < |b| ==> b[i].tag != req.tag)
  {
    AlwaysAChoice(b, req);
    FirstIsFirst(b, req, Verified, |b|);
    FirstIsFirst(b, req, SameSpot, |b|);
    FirstIsFirst(b, req, Free, |b|);
    FirstIsFirst(b, req, Inadmissible, |b|);
    FirstIsFirst(b, req, Collider, |b|);
    RolesAre(b, req);
  }

  lemma RolesAre(b: seq<Entry>, req: Request)
    ensures forall i :: 0 <= i < |b| ==>
      && (RoleOf(b[i], req) == Free <==> b[i].IsEmpty())
      && (RoleOf(b[i], req) == Verified <==> IsVerified(b[i], req))
      && (RoleOf(b[i], req) == SameSpot <==> !IsVerified(b[i], req) && AtNewOffset(b[i], req))
      && (RoleOf(b[i], req) in {Collider, OldRetained, OldCurrent} <==>
            !IsVerified(b[i], req) && !AtNewOffset(b[i], req) && Admitted(b[i], req.adm))
  {}

  // ---- the conditional publish -----------------------------------------------------------------

  /** Whether the bucket still holds what a writer's probe saw: the verified entry is
      there, and every other admitted same-tag entry, but for a dead one at the offset
      just written, was seen. */
  ghost predicate ViewIsCurrent(b: seq<Entry>, req: Request, seen: seq<nat>) {
    && (req.verified in {MATCH_ANY_TAG, NO_VERIFIED_ENTRY}
        || exists i :: 0 <= i < |b| && !b[i].IsEmpty() && b[i].tag == req.tag && b[i].offset == req.verified)
    && forall i :: 0 <= i < |b| && Admitted(b[i], req.adm) && b[i].tag == req.tag ==>
         b[i].offset == req.verified || (req.offset != 0 && b[i].offset == req.offset) || b[i].offset in seen
  }

  method PublishViewIsCurrent(b: seq<Entry>, req: Request, seen: seq<nat>) returns (current: bool)
    ensures current <==> ViewIsCurrent(b, req, seen)
  {
    var found := req.verified == MATCH_ANY_TAG || req.verified == NO_VERIFIED_ENTRY;
    for i := 0 to |b|
      invariant found <==> (req.verified in {MATCH_ANY_TAG, NO_VERIFIED_ENTRY} ||
          exists j :: 0 <= j < i && !b[j].IsEmpty() && b[j].tag == req.tag && b[j].offset == req.verified)
      invariant forall j :: 0 <= j < i && Admitted(b[j], req.adm) && b[j].tag == req.tag ==>
        b[j].offset == req.verified || (req.offset != 0 && b[j].offset == req.offset) || b[j].offset in seen
    {
      var e := b[i];
      if e.IsEmpty() || e.tag != req.tag { continue; }
      if e.offset == req.verified { found := true; continue; }
      if req.offset != 0 && e.offset == req.offset { continue; }
      if req.adm(e.offset, e.phase) == Reject { continue; }
      var s := 0;
      while s < |seen| && seen[s] != e.offset
        invariant 0 <= s <= |seen| && e.offset !in seen[..s]
      {
        s := s + 1;
      }
      if s == |seen| {
        assert seen[..s] == seen;
        return false;
      }
    }
    return found;
  }

  // ---- removing ------------------------------------------------------------------------------

  predicate HasTag(e: Entry, tag: nat) { !e.IsEmpty() && e.tag == tag }

  predicate IsAt(e: Entry, tag: nat, offset: nat) { HasTag(e, tag) && e.offset == offset }

  function WithoutAt(b: seq<Entry>, tag: nat, offset: nat): seq<Entry> {
    seq(|b|, i requires 0 <= i < |b| => if IsAt(b[i], tag, offset) then EMPTY else b[i])
  }
}
