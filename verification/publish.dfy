/** The conditional publish: writers in different processes probe a bucket, write their
    document, and publish only if the bucket still holds what they saw.

    An entry carries a tag and no key; the key is that of the document at its offset,
    which writers learn by reading it. */
module Publish {
  import opened Bucket

  type Key = nat             // the key's digest

  /** What a writer knows after its probe: the offsets it was handed, the entry of its key
      it means to update in place, and the other copies of its key it means to clear. */
  datatype Writer = Writer(key: Key, seen: seq<nat>, verified: nat, clear: seq<nat>)

  datatype State = State(bucket: seq<Entry>, docs: map<nat, Key>, adm: Admission, writers: map<nat, Writer>)

  datatype Action =
    | Probe(id: nat, w: Writer)
    | Commit(id: nat, offset: nat, approxSize: nat, phase: bool, serial: nat)
    | RemoveAt(tag: nat, offset: nat)
    | Advance(adm: Admission)              // a wrap or an advance of the write cursor

  ghost predicate InBucket(b: seq<Entry>, offset: nat) {
    exists i :: 0 <= i < |b| && !b[i].IsEmpty() && b[i].offset == offset
  }

  function RequestOf(s: State, tagOf: Key -> nat, w: Writer, offset: nat): Request {
    Request(tagOf(w.key), w.verified, offset, s.adm)
  }

  ghost predicate CanStep(s: State, tagOf: Key -> nat, act: Action) {
    match act
    case Probe(_, w) =>
      // The writer read the document behind every offset it was handed.  A probe that rescans
      // may carry offsets that have left the bucket meanwhile.
      && (forall o :: o in w.seen ==> o in s.docs)
      && (w.verified == NO_VERIFIED_ENTRY || (w.verified in w.seen && w.verified in s.docs && s.docs[w.verified] == w.key))
      && (forall o :: o in w.seen && o in s.docs && s.docs[o] == w.key ==> o == w.verified || o in w.clear)
    case Commit(id, offset, _, _, _) =>
      id in s.writers && 0 < offset < OFFSETS && offset !in s.docs
    case RemoveAt(_, _) => true
    case Advance(adm) =>
      // A rejected entry is never admitted again.
      forall i :: 0 <= i < |s.bucket| && Admitted(s.bucket[i], adm) ==> Admitted(s.bucket[i], s.adm)
  }

  ghost function Step(s: State, tagOf: Key -> nat, act: Action): (s': State)
    requires CanStep(s, tagOf, act) && s.bucket != []
    ensures |s'.bucket| == |s.bucket|
  {
    match act
    case Probe(id, w) => s.(writers := s.writers[id := w])
    case Commit(id, offset, approxSize, phase, serial) =>
      var w := s.writers[id];
      var req := RequestOf(s, tagOf, w, offset);
      if ViewIsCurrent(s.bucket, req, w.seen) then
        s.(bucket := Inserted(s.bucket, req, w.clear, approxSize, phase, serial),
           docs := s.docs[offset := w.key],
           writers := s.writers - {id})
      else s.(writers := s.writers - {id})
    case RemoveAt(tag, offset) => s.(bucket := WithoutAt(s.bucket, tag, offset))
    case Advance(adm) => s.(adm := adm)
  }

  // ---- the invariant --------------------------------------------------------------------------

  /** Every entry is of a document of its tag, at an offset of its own. */
  ghost predicate WellKept(s: State, tagOf: Key -> nat) {
    && (forall i :: 0 <= i < |s.bucket| && !s.bucket[i].IsEmpty() ==>
          s.bucket[i].offset in s.docs && s.bucket[i].tag == tagOf(s.docs[s.bucket[i].offset]))
    && (forall i, j :: 0 <= i < j < |s.bucket| && !s.bucket[i].IsEmpty() && !s.bucket[j].IsEmpty() ==>
          s.bucket[i].offset != s.bucket[j].offset)
  }

  /** Slots i and j both hold an admitted entry of the same key. */
  ghost predicate SameKey(s: State, i: nat, j: nat) {
    && i < |s.bucket| && j < |s.bucket|
    && Admitted(s.bucket[i], s.adm) && Admitted(s.bucket[j], s.adm)
    && s.bucket[i].offset in s.docs && s.bucket[j].offset in s.docs
    && s.docs[s.bucket[i].offset] == s.docs[s.bucket[j].offset]
  }

  ghost predicate OnePerKey(s: State) {
    forall i, j :: SameKey(s, i, j) ==> i == j
  }

  ghost predicate Resolved(s: State, w: Writer) {
    && (forall o :: o in w.seen ==> o in s.docs)
    && (w.verified == NO_VERIFIED_ENTRY || (w.verified in s.docs && s.docs[w.verified] == w.key))
    && (forall o :: o in w.seen && o in s.docs && s.docs[o] == w.key ==> o == w.verified || o in w.clear)
  }

  ghost predicate Inv(s: State, tagOf: Key -> nat) {
    && s.bucket != [] && WellKept(s, tagOf) && OnePerKey(s)
    && (forall id :: id in s.writers ==> Resolved(s, s.writers[id]))
    && (forall o :: o in s.docs ==> 0 < o < OFFSETS)
  }

  /** When the view is current, the writer knows every admitted entry of its key: the one
      it updates in place or one it clears.  So nobody published the key since its probe
      unseen, and the entry it verified is still there. */
  lemma CurrentViewIsComplete(s: State, tagOf: Key -> nat, w: Writer, offset: nat, i: nat)
    requires Inv(s, tagOf) && Resolved(s, w) && 0 < offset < OFFSETS && offset !in s.docs
    requires ViewIsCurrent(s.bucket, RequestOf(s, tagOf, w, offset), w.seen)
    requires i < |s.bucket| && Admitted(s.bucket[i], s.adm) && s.docs[s.bucket[i].offset] == w.key
    ensures s.bucket[i].offset == w.verified || s.bucket[i].offset in w.clear
    ensures w.verified != NO_VERIFIED_ENTRY ==> InBucket(s.bucket, w.verified)
  {
    assert s.bucket[i].tag == tagOf(w.key);
    assert w.verified != MATCH_ANY_TAG;
  }

  lemma VerifiedIsChosen(b: seq<Entry>, req: Request, j: nat)
    requires j < |b| && RoleOf(b[j], req) == Verified
    ensures 0 <= Choose(b, req).slot < |b| && RoleOf(b[Choose(b, req).slot], req) == Verified
  {
    FirstIsFirst(b, req, Verified, |b|);
  }

  /** Every admitted entry of the key outside the written slot is cleared by the commit. */
  lemma OthersCleared(s: State, tagOf: Key -> nat, w: Writer, offset: nat, j: nat)
    requires Inv(s, tagOf) && Resolved(s, w) && 0 < offset < OFFSETS && offset !in s.docs
    requires ViewIsCurrent(s.bucket, RequestOf(s, tagOf, w, offset), w.seen)
    requires j < |s.bucket| && Admitted(s.bucket[j], s.adm) && s.docs[s.bucket[j].offset] == w.key
    requires j != Choose(s.bucket, RequestOf(s, tagOf, w, offset)).slot
    ensures Cleared(s.bucket[j], RequestOf(s, tagOf, w, offset), w.clear)
  {
    CurrentViewIsComplete(s, tagOf, w, offset, j);
    if s.bucket[j].offset == w.verified {
      VerifiedIsChosen(s.bucket, RequestOf(s, tagOf, w, offset), j);
    }
  }

  lemma InvCommit(s: State, tagOf: Key -> nat, act: Action)
    requires Inv(s, tagOf) && act.Commit? && CanStep(s, tagOf, act)
    requires ViewIsCurrent(s.bucket, RequestOf(s, tagOf, s.writers[act.id], act.offset), s.writers[act.id].seen)
    ensures Inv(Step(s, tagOf, act), tagOf)
  {
    var w, s' := s.writers[act.id], Step(s, tagOf, act);
    var b, req := s.bucket, RequestOf(s, tagOf, w, act.offset);
    var slot := Choose(b, req).slot;
    InsertIsUnique(b, req, w.clear, act.approxSize, act.phase, act.serial);
    forall j | 0 <= j < |b| && j != slot && Admitted(s'.bucket[j], s.adm)
      ensures s.docs[b[j].offset] != w.key
    {
      if s.docs[b[j].offset] == w.key { OthersCleared(s, tagOf, w, act.offset, j); }
    }
    InvGrow(s, s', tagOf, slot, w.key);
  }

  // A step that writes one slot with a fresh document, the only admitted one of its key.
  lemma InvGrow(s: State, s': State, tagOf: Key -> nat, slot: nat, key: Key)
    requires Inv(s, tagOf) && |s'.bucket| == |s.bucket| && slot < |s.bucket| && s'.adm == s.adm
    requires forall i :: 0 <= i < |s.bucket| && i != slot ==> s'.bucket[i] == s.bucket[i] || s'.bucket[i] == EMPTY
    requires var e := s'.bucket[slot];
             0 < e.offset < OFFSETS && e.offset !in s.docs && e.tag == tagOf(key) && s'.docs == s.docs[e.offset := key]
    requires forall i :: 0 <= i < |s.bucket| && i != slot && Admitted(s'.bucket[i], s.adm) ==>
               s.docs[s.bucket[i].offset] != key
    requires forall id :: id in s'.writers ==> Resolved(s, s'.writers[id])
    ensures Inv(s', tagOf)
  {
    forall i, j | SameKey(s', i, j) ensures i == j {
      if i != slot && j != slot { assert SameKey(s, i, j); }
    }
  }

  // A step that neither publishes nor admits anything.
  lemma InvShrink(s: State, s': State, tagOf: Key -> nat)
    requires Inv(s, tagOf) && |s'.bucket| == |s.bucket| && s'.docs == s.docs
    requires forall i :: 0 <= i < |s.bucket| ==> s'.bucket[i] == s.bucket[i] || s'.bucket[i] == EMPTY
    requires forall i :: 0 <= i < |s.bucket| && Admitted(s'.bucket[i], s'.adm) ==> Admitted(s.bucket[i], s.adm)
    requires forall id :: id in s'.writers ==> Resolved(s, s'.writers[id])
    ensures Inv(s', tagOf)
  {
    assert forall i, j :: SameKey(s', i, j) ==> SameKey(s, i, j);
  }

  lemma InvStep(s: State, tagOf: Key -> nat, act: Action)
    requires Inv(s, tagOf) && CanStep(s, tagOf, act)
    ensures Inv(Step(s, tagOf, act), tagOf)
  {
    if act.Commit? && ViewIsCurrent(s.bucket, RequestOf(s, tagOf, s.writers[act.id], act.offset), s.writers[act.id].seen) {
      InvCommit(s, tagOf, act);
    } else {
      InvShrink(s, Step(s, tagOf, act), tagOf);
    }
  }

  // ---- runs --------------------------------------------------------------------------------------

  ghost predicate IsRun(tr: seq<State>, tagOf: Key -> nat) {
    && |tr| > 0
    && tr[0].bucket != [] && tr[0].docs == map[] && tr[0].writers == map[]
    && (forall i :: 0 <= i < |tr[0].bucket| ==> tr[0].bucket[i].IsEmpty())
    && forall i :: 0 <= i < |tr| - 1 ==> Follows(tr[i], tr[i + 1], tagOf)
  }

  ghost predicate Follows(s: State, s': State, tagOf: Key -> nat) {
    exists act :: CanStep(s, tagOf, act) && s.bucket != [] && s' == Step(s, tagOf, act)
  }

  lemma {:induction false} InvAlways(tr: seq<State>, tagOf: Key -> nat, i: nat)
    requires IsRun(tr, tagOf) && i < |tr|
    ensures Inv(tr[i], tagOf)
  {
    if i > 0 {
      InvAlways(tr, tagOf, i - 1);
      assert Follows(tr[i - 1], tr[i], tagOf);
      var act :| CanStep(tr[i - 1], tagOf, act) && tr[i] == Step(tr[i - 1], tagOf, act);
      InvStep(tr[i - 1], tagOf, act);
    }
  }

  /** In every state of every run of racing writers and removers the bucket holds at most
      one admitted entry per key, whatever tags the keys share. */
  lemma OneEntryPerKey(tr: seq<State>, tagOf: Key -> nat, i: nat)
    requires IsRun(tr, tagOf) && i < |tr|
    ensures OnePerKey(tr[i])
  {
    InvAlways(tr, tagOf, i);
  }

  /** A writer that was handed every admitted entry of its tag, and whose verified entry is still
      in the bucket, is never told its view is stale. */
  lemma UndisturbedCommits(s: State, tagOf: Key -> nat, w: Writer, offset: nat)
    requires Inv(s, tagOf) && Resolved(s, w)
    requires forall i :: 0 <= i < |s.bucket| && Admitted(s.bucket[i], s.adm) && s.bucket[i].tag == tagOf(w.key) ==>
               s.bucket[i].offset in w.seen
    requires w.verified != NO_VERIFIED_ENTRY ==> InBucket(s.bucket, w.verified)
    ensures ViewIsCurrent(s.bucket, RequestOf(s, tagOf, w, offset), w.seen)
  {
    if w.verified != NO_VERIFIED_ENTRY {
      assert InBucket(s.bucket, w.verified);
    }
  }

  /** And what it publishes is there: the one admitted entry of its key, at the offset it wrote, if
      the admission takes that offset. */
  lemma UndisturbedPublishes(s: State, tagOf: Key -> nat, act: Action)
    requires Inv(s, tagOf) && act.Commit? && CanStep(s, tagOf, act)
    requires var w := s.writers[act.id];
             && (forall i :: 0 <= i < |s.bucket| && Admitted(s.bucket[i], s.adm) && s.bucket[i].tag == tagOf(w.key) ==>
                   s.bucket[i].offset in w.seen)
             && (w.verified != NO_VERIFIED_ENTRY ==> InBucket(s.bucket, w.verified))
    ensures var s', w := Step(s, tagOf, act), s.writers[act.id];
            && act.offset in s'.docs && s'.docs[act.offset] == w.key
            && exists i :: 0 <= i < |s'.bucket| && s'.bucket[i].offset == act.offset && s'.bucket[i].tag == tagOf(w.key)
                           && s'.bucket[i].phase == act.phase && s'.bucket[i].serial == act.serial
  {
    var w := s.writers[act.id];
    var req := RequestOf(s, tagOf, w, act.offset);
    UndisturbedCommits(s, tagOf, w, act.offset);
    InsertIsUnique(s.bucket, req, w.clear, act.approxSize, act.phase, act.serial);
    var slot := Choose(s.bucket, req).slot;
    assert Step(s, tagOf, act).bucket[slot].offset == act.offset;
  }

  /** Without the check the law fails: two writers that both probed an empty bucket leave
      two admitted entries of one key; with it, the second is turned away. */
  lemma UncheckedPublishDuplicates(key: Key, tagOf: Key -> nat)
    ensures var adm := (o: nat, p: bool) => Current;
            var b := [EMPTY, EMPTY, EMPTY, EMPTY];
            var first := Request(tagOf(key), NO_VERIFIED_ENTRY, 4096, adm);
            var second := Request(tagOf(key), NO_VERIFIED_ENTRY, 8192, adm);
            var b1 := Inserted(b, first, [], 512, false, 0);
            var b2 := Inserted(b1, second, [], 512, false, 0);
            && SameKey(State(b2, map[4096 := key, 8192 := key], adm, map[]), 0, 1)
            && !ViewIsCurrent(b1, second, [])
  {
    var adm := (o: nat, p: bool) => Current;
    var b := [EMPTY, EMPTY, EMPTY, EMPTY];
    var first := Request(tagOf(key), NO_VERIFIED_ENTRY, 4096, adm);
    var second := Request(tagOf(key), NO_VERIFIED_ENTRY, 8192, adm);
    Candidates(b, first);
    FirstIsFirst(b, first, Free, 4);
    assert RoleOf(b[0], first) == Free;
    var b1 := Inserted(b, first, [], 512, false, 0);
    assert b1[0].offset == 4096 && b1[1] == EMPTY && b1[2] == EMPTY && b1[3] == EMPTY;
    Candidates(b1, second);
    FirstIsFirst(b1, second, Free, 4);
    assert RoleOf(b1[0], second) == Collider && RoleOf(b1[1], second) == Free;
  }
}
