/** The per-bucket seqlock: writers take the bucket by moving its version from even to
    odd, readers copy entries word by word and recheck the version.  Any number of
    writers, recoverers and readers, one shared-memory access per step. */
module Seqlock {

  const WORDS: nat := 5                // 16-bit words of an entry
  const SLOTS: nat := 4
  const CELLS: nat := 20

  type Id = nat

  datatype Writer =
    | Out
    | Loaded(v: nat)                   // version read, even
    | In(token: nat)                   // took the bucket at version token + 1

  // `matches` is the scan's test of a copied entry: not empty, its tag, its phase.  `stale`
  // is a history variable: the words it copied that a forced-out holder has since overwritten.
  datatype Reader =
    | Idle
    | Scanning(v: nat, matches: seq<nat> -> bool, copied: seq<nat>, handed: set<nat>, checked: bool, stale: set<nat>)
    | Complete(handed: set<nat>)       // the scan returned true without being stopped
    | Stopped                          // the callback stopped the scan

  datatype State = State(version: nat, mem: seq<nat>, writers: map<Id, Writer>, readers: map<Id, Reader>)

  datatype Action =
    | LoadForWrite
    | CasToOdd
    | Store(cell: nat, word: nat)
    | Release
    | Force(v: nat)                    // a waiter or a reader that saw odd v for its whole budget
    | LoadVersion(matches: seq<nat> -> bool)
    | CopyWord
    | Recheck(more: bool)              // before the callback; `more`: the callback goes on
    | Finish

  function SlotOf(words: seq<nat>, k: nat): seq<nat>
    requires WORDS * k + WORDS <= |words|
  {
    words[WORDS * k..WORDS * k + WORDS]
  }

  /** The entry just copied in full. */
  function LastSlot(copied: seq<nat>): nat
    requires |copied| >= WORDS
  {
    |copied| / WORDS - 1
  }

  /** A matching entry was copied in full and must be rechecked before it is handed out. */
  predicate MustCheck(r: Reader) {
    && r.Scanning? && !r.checked && |r.copied| >= WORDS && |r.copied| % WORDS == 0
    && r.matches(SlotOf(r.copied, LastSlot(r.copied)))
  }

  /** A holder the version has moved on from. */
  predicate ForcedOut(s: State, w: Writer) { w.In? && s.version != w.token + 1 }

  /** A forced-out holder stores to a cell under a scan. */
  function Overwritten(r: Reader, cell: nat): Reader {
    if r.Scanning? && cell < |r.copied| then r.(stale := r.stale + {cell}) else r
  }

  predicate CanStep(s: State, id: Id, act: Action) {
    match act
    case LoadForWrite => id in s.writers && s.writers[id].Out?
    case CasToOdd => id in s.writers && s.writers[id].Loaded?
    case Store(cell, _) => id in s.writers && s.writers[id].In? && cell < |s.mem|
    case Release => id in s.writers && s.writers[id].In?
    case Force(v) => v % 2 == 1
    case LoadVersion(_) => id in s.readers && !s.readers[id].Scanning?
    case CopyWord => id in s.readers && s.readers[id].Scanning? && !MustCheck(s.readers[id]) && |s.readers[id].copied| < |s.mem|
    case Recheck(_) => id in s.readers && MustCheck(s.readers[id])
    case Finish => id in s.readers && s.readers[id].Scanning? && !MustCheck(s.readers[id]) && |s.readers[id].copied| == |s.mem|
  }

  function Step(s: State, id: Id, act: Action): (s': State)
    requires CanStep(s, id, act)
  {
    match act
    case LoadForWrite => s.(writers := s.writers[id := if s.version % 2 == 0 then Loaded(s.version) else Out])
    case CasToOdd =>
      var v := s.writers[id].v;
      if s.version == v then s.(version := v + 1, writers := s.writers[id := In(v)])
      else s.(writers := s.writers[id := Out])
    case Store(cell, word) =>
      s.(mem := s.mem[cell := word],
         readers := if ForcedOut(s, s.writers[id]) then map r | r in s.readers :: Overwritten(s.readers[r], cell) else s.readers)
    case Release =>
      var token := s.writers[id].token;
      s.(version := if s.version == token + 1 then token + 2 else s.version, writers := s.writers[id := Out])
    case Force(v) => s.(version := if s.version == v then v + 1 else s.version)
    case LoadVersion(matches) =>
      s.(readers := s.readers[id := if s.version % 2 == 0 then Scanning(s.version, matches, [], {}, false, {}) else Idle])
    case CopyWord =>
      var r := s.readers[id];
      s.(readers := s.readers[id := r.(copied := r.copied + [s.mem[|r.copied|]], checked := false)])
    case Recheck(more) =>
      var r := s.readers[id];
      s.(readers := s.readers[id :=
        if s.version != r.v then Idle
        else if more then r.(handed := r.handed + {LastSlot(r.copied)}, checked := true)
        else Stopped])
    case Finish =>
      var r := s.readers[id];
      s.(readers := s.readers[id := if s.version == r.v then Complete(r.handed) else Idle])
  }

  predicate Init(s: State) {
    && s.version % 2 == 0 && |s.mem| == CELLS
    && (forall id :: id in s.writers ==> s.writers[id] == Out)
    && (forall id :: id in s.readers ==> s.readers[id].Idle?)
  }

  // ---- writers ------------------------------------------------------------------------------

  ghost predicate WritersInv(s: State) {
    && (forall w :: w in s.writers && s.writers[w].Loaded? ==> s.writers[w].v % 2 == 0)
    && (forall w :: w in s.writers && s.writers[w].In? ==> s.writers[w].token % 2 == 0 && s.writers[w].token < s.version)
    && (forall w, x :: w in s.writers && x in s.writers && w != x && s.writers[w].In? && s.writers[x].In? ==>
          s.writers[w].token != s.writers[x].token)
    && (s.version % 2 == 1 ==> exists w :: w in s.writers && s.writers[w] == In(s.version - 1))
  }

  lemma WritersStep(s: State, id: Id, act: Action)
    requires WritersInv(s) && CanStep(s, id, act)
    ensures WritersInv(Step(s, id, act)) && s.version <= Step(s, id, act).version
  {
    var s' := Step(s, id, act);
    if act.CasToOdd? && s.version == s.writers[id].v {
      assert s'.writers[id] == In(s'.version - 1);
    } else if s'.version % 2 == 1 {
      StillOwned(s, id, act);
    }
  }

  lemma StillOwned(s: State, id: Id, act: Action)
    requires WritersInv(s) && CanStep(s, id, act) && Step(s, id, act).version % 2 == 1
    requires act.CasToOdd? ==> s.version != s.writers[id].v
    ensures var s' := Step(s, id, act); exists w :: w in s'.writers && s'.writers[w] == In(s'.version - 1)
  {
    var s' := Step(s, id, act);
    var w :| w in s.writers && s.writers[w] == In(s.version - 1);
    assert s'.writers[w] == In(s'.version - 1);
  }

  // ---- readers --------------------------------------------------------------------------------

  /** While the version is the one the scan started from, what it copied is what is there,
      but for words a forced-out holder overwrote. */
  ghost predicate ReaderInv(s: State, r: Reader) {
    r.Scanning? ==>
      && r.v % 2 == 0 && r.v <= s.version && |r.copied| <= |s.mem|
      && (s.version == r.v ==> forall c :: 0 <= c < |r.copied| && c !in r.stale ==> r.copied[c] == s.mem[c])
      && Consistent(r)
  }

  /** Slot k has been copied in full and, if it matches, its recheck is behind it. */
  predicate Settled(r: Reader, k: nat)
    requires r.Scanning?
  {
    WORDS * k + WORDS < |r.copied| || (r.checked && WORDS * k + WORDS == |r.copied|)
  }

  /** The scan handed out exactly the matching entries it has settled. */
  ghost predicate Consistent(r: Reader)
    requires r.Scanning?
  {
    && (forall k :: k in r.handed ==> WORDS * k + WORDS <= |r.copied| && r.matches(SlotOf(r.copied, k)))
    && (forall k: nat :: Settled(r, k) && r.matches(SlotOf(r.copied, k)) ==> k in r.handed)
    && (r.checked ==> |r.copied| >= WORDS && |r.copied| % WORDS == 0)
  }

  ghost predicate Inv(s: State) {
    && |s.mem| == CELLS && WritersInv(s)
    && forall r :: r in s.readers ==> ReaderInv(s, s.readers[r])
  }

  lemma CopyKeepsConsistent(r: Reader, word: nat)
    requires r.Scanning? && Consistent(r) && !MustCheck(r)
    ensures Consistent(r.(copied := r.copied + [word], checked := false))
  {
    var r' := r.(copied := r.copied + [word], checked := false);
    forall k: nat | WORDS * k + WORDS <= |r.copied| ensures SlotOf(r'.copied, k) == SlotOf(r.copied, k) {}
    forall k: nat | Settled(r', k) && r.matches(SlotOf(r'.copied, k)) ensures k in r.handed {
      assert !Settled(r, k) ==> |r.copied| >= WORDS && k == LastSlot(r.copied);
    }
  }

  lemma RecheckKeepsConsistent(r: Reader)
    requires MustCheck(r) && Consistent(r)
    ensures Consistent(r.(handed := r.handed + {LastSlot(r.copied)}, checked := true))
  {
    var r' := r.(handed := r.handed + {LastSlot(r.copied)}, checked := true);
    assert WORDS * LastSlot(r.copied) + WORDS == |r.copied|;
    forall k: nat | Settled(r', k) && r.matches(SlotOf(r'.copied, k)) ensures k in r'.handed {
      assert !Settled(r, k) ==> |r.copied| >= WORDS && k == LastSlot(r.copied);
    }
  }

  lemma ReaderStep(s: State, id: Id, act: Action, r: Id)
    requires Inv(s) && CanStep(s, id, act) && r in s.readers
    ensures r in Step(s, id, act).readers && ReaderInv(Step(s, id, act), Step(s, id, act).readers[r])
  {
    assert ReaderInv(s, s.readers[r]);
    if id == r && act.CopyWord? {
      CopyKeepsConsistent(s.readers[r], s.mem[|s.readers[r].copied|]);
    } else if id == r && act.Recheck? {
      RecheckKeepsConsistent(s.readers[r]);
    }
  }

  lemma InvStep(s: State, id: Id, act: Action)
    requires Inv(s) && CanStep(s, id, act)
    ensures Inv(Step(s, id, act))
  {
    WritersStep(s, id, act);
    var s' := Step(s, id, act);
    forall r | r in s'.readers ensures ReaderInv(s', s'.readers[r]) {
      ReaderStep(s, id, act, r);
    }
  }

  // ---- runs --------------------------------------------------------------------------------------

  ghost predicate Follows(s: State, s': State) {
    exists id, act :: CanStep(s, id, act) && s' == Step(s, id, act)
  }

  ghost predicate IsRun(tr: seq<State>) {
    |tr| > 0 && Init(tr[0]) && forall i :: 0 <= i < |tr| - 1 ==> Follows(tr[i], tr[i + 1])
  }

  lemma {:induction false} InvAlways(tr: seq<State>, i: nat)
    requires IsRun(tr) && i < |tr|
    ensures Inv(tr[i])
  {
    if i > 0 {
      InvAlways(tr, i - 1);
      assert Follows(tr[i - 1], tr[i]);
      var id, act :| CanStep(tr[i - 1], id, act) && tr[i] == Step(tr[i - 1], id, act);
      InvStep(tr[i - 1], id, act);
    }
  }

  /** No word of slot k was overwritten by a forced-out holder after the scan copied it. */
  predicate Undisturbed(r: Reader, k: nat)
    requires r.Scanning?
  {
    forall c :: WORDS * k <= c < WORDS * k + WORDS ==> c !in r.stale
  }

  /** Every entry handed to a callback is, at the instant of its recheck, the whole content
      of its slot, and the version is even -- unless a holder that was forced out overwrote
      one of the entry's own words after it was copied. */
  lemma HandedEntryIsWhole(tr: seq<State>, i: nat, id: Id, more: bool)
    requires IsRun(tr) && i < |tr| && CanStep(tr[i], id, Recheck(more))
    requires !Step(tr[i], id, Recheck(more)).readers[id].Idle?
    ensures var r, k := tr[i].readers[id], LastSlot(tr[i].readers[id].copied);
            && k < SLOTS && WORDS * k + WORDS == |r.copied|
            && tr[i].version % 2 == 0 && |tr[i].mem| == WORDS * SLOTS
            && (Undisturbed(r, k) ==> SlotOf(r.copied, k) == SlotOf(tr[i].mem, k))
  {
    InvAlways(tr, i);
    assert ReaderInv(tr[i], tr[i].readers[id]);
  }

  /** A scan that completes handed out exactly the matching entries the bucket held at one
      instant, with an even version; with none handed out, none was there. */
  lemma CompleteScanIsExact(tr: seq<State>, i: nat, id: Id)
    requires IsRun(tr) && i < |tr| && CanStep(tr[i], id, Finish)
    requires Step(tr[i], id, Finish).readers[id].Complete?
    ensures tr[i].version % 2 == 0 && |tr[i].mem| == WORDS * SLOTS
    ensures var r := tr[i].readers[id];
            && (forall k: nat :: k in r.handed ==> k < SLOTS)
            && forall k: nat :: k < SLOTS && Undisturbed(r, k) ==> (k in r.handed <==> r.matches(SlotOf(tr[i].mem, k)))
  {
    InvAlways(tr, i);
    var r := tr[i].readers[id];
    assert ReaderInv(tr[i], r);
    assert LastSlot(r.copied) == SLOTS - 1;
    forall k: nat | k < SLOTS && Undisturbed(r, k) ensures k in r.handed <==> r.matches(SlotOf(tr[i].mem, k)) {
      assert SlotOf(r.copied, k) == SlotOf(tr[i].mem, k);
      assert k < SLOTS - 1 ==> Settled(r, k);
    }
  }

  /** An odd version belongs to exactly one writer, the one that took that very value. */
  lemma OddVersionHasOneOwner(tr: seq<State>, i: nat)
    requires IsRun(tr) && i < |tr| && tr[i].version % 2 == 1
    ensures exists w :: w in tr[i].writers && tr[i].writers[w] == In(tr[i].version - 1)
    ensures forall w, x ::
              w in tr[i].writers && x in tr[i].writers && tr[i].writers[w] == In(tr[i].version - 1) == tr[i].writers[x] ==> w == x
  {
    InvAlways(tr, i);
  }

  /** The release of a holder that was forced out changes neither the version nor the
      entries, however much later it comes. */
  lemma {:induction false} ForcedOutReleaseIsNoOp(tr: seq<State>, i: nat, k: nat, id: Id, token: nat)
    requires IsRun(tr) && i <= k < |tr| && tr[i].version > token + 1
    requires id in tr[k].writers && tr[k].writers[id] == In(token)
    ensures var s' := Step(tr[k], id, Release);
            s'.version == tr[k].version && s'.mem == tr[k].mem
  {
    VersionGrows(tr, i, k);
  }

  lemma {:induction false} VersionGrows(tr: seq<State>, i: nat, k: nat)
    requires IsRun(tr) && i <= k < |tr|
    ensures tr[i].version <= tr[k].version
    decreases k
  {
    if i < k {
      VersionGrows(tr, i, k - 1);
      InvAlways(tr, k - 1);
      assert Follows(tr[k - 1], tr[k]);
      var id, act :| CanStep(tr[k - 1], id, act) && tr[k] == Step(tr[k - 1], id, act);
      WritersStep(tr[k - 1], id, act);
    }
  }

  // ---- left alone, writers and readers get through --------------------------------------------------

  /** A holder that was not forced out frees the bucket by its release, two versions on from the one
      it took; and forcing a version that still stands frees it too. */
  lemma ReleaseFrees(s: State, id: Id)
    requires WritersInv(s)
    ensures id in s.writers && s.writers[id].In? && !ForcedOut(s, s.writers[id]) ==>
              Step(s, id, Release).version == s.writers[id].token + 2 && Step(s, id, Release).version % 2 == 0
    ensures s.version % 2 == 1 ==> Step(s, id, Force(s.version)).version % 2 == 0
  {}

  /** A writer alone in an even bucket takes it, stores and gives it back. */
  lemma WriterAlone(s: State, id: Id, cell: nat, word: nat)
    requires s.version % 2 == 0 && id in s.writers && s.writers[id].Out? && cell < |s.mem|
    ensures var s1 := Step(s, id, LoadForWrite);
            var s2 := Step(s1, id, CasToOdd);
            var s3 := Step(s2, id, Store(cell, word));
            var s4 := Step(s3, id, Release);
            && s2.version == s.version + 1 && s4.version == s.version + 2
            && s4.mem == s.mem[cell := word] && s4.writers == s.writers && s4.readers == s.readers
  {
    var s1 := Step(s, id, LoadForWrite);
    assert s1.writers[id] == Loaded(s.version);
    var s2 := Step(s1, id, CasToOdd);
    assert s2.writers[id] == In(s.version) && !ForcedOut(s2, s2.writers[id]);
  }

  /** What a reader's next step is, when its callback never stops it. */
  function NextRead(s: State, id: Id): Action
    requires id in s.readers && s.readers[id].Scanning?
  {
    if MustCheck(s.readers[id]) then Recheck(true)
    else if |s.readers[id].copied| < |s.mem| then CopyWord
    else Finish
  }

  /** The words and the recheck a scan has left. */
  function Left(s: State, id: Id): int
    requires id in s.readers && s.readers[id].Scanning?
  {
    2 * (|s.mem| - |s.readers[id].copied|) + if MustCheck(s.readers[id]) then 1 else 0
  }

  /** Reader id's next step leads from s to s'. */
  ghost predicate ReadsOn(s: State, s': State, id: Id) {
    id in s.readers && s.readers[id].Scanning? && CanStep(s, id, NextRead(s, id)) && s' == Step(s, id, NextRead(s, id))
  }

  /** A scan that nobody disturbs completes: tr is the run of its own steps from s. */
  lemma {:induction false} ScanCompletes(s: State, id: Id) returns (tr: seq<State>)
    requires Inv(s) && id in s.readers && s.readers[id].Scanning? && s.readers[id].v == s.version
    ensures |tr| > 1 && tr[0] == s && forall i :: 0 <= i < |tr| - 1 ==> ReadsOn(tr[i], tr[i + 1], id)
    ensures var s' := tr[|tr| - 1];
            id in s'.readers && s'.readers[id].Complete? && s'.version == s.version && s'.mem == s.mem
    decreases Left(s, id)
  {
    assert ReaderInv(s, s.readers[id]);
    var act := NextRead(s, id);
    var s1 := Step(s, id, act);
    if act.Finish? {
      tr := [s, s1];
    } else {
      InvStep(s, id, act);
      var rest := ScanCompletes(s1, id);
      tr := [s] + rest;
      forall i | 0 <= i < |tr| - 1 ensures ReadsOn(tr[i], tr[i + 1], id) {
        if i > 0 { assert ReadsOn(rest[i - 1], rest[i], id); }
      }
    }
  }

  // ---- the proviso is needed ------------------------------------------------------------------------

  /** Slot 0 never held e. */
  ghost predicate NeverHeld(tr: seq<State>, e: seq<nat>) {
    forall j :: 0 <= j < |tr| ==> |tr[j].mem| == CELLS && SlotOf(tr[j].mem, 0) != e
  }

  lemma Extend(tr: seq<State>, id: Id, act: Action, e: seq<nat>) returns (tr': seq<State>)
    requires IsRun(tr) && NeverHeld(tr, e) && CanStep(tr[|tr| - 1], id, act)
    requires |Step(tr[|tr| - 1], id, act).mem| == CELLS && SlotOf(Step(tr[|tr| - 1], id, act).mem, 0) != e
    ensures IsRun(tr') && NeverHeld(tr', e) && tr'[|tr'| - 1] == Step(tr[|tr| - 1], id, act)
  {
    var s := tr[|tr| - 1];
    tr' := tr + [Step(s, id, act)];
    assert Follows(s, Step(s, id, act));
    forall i | 0 <= i < |tr'| - 1 ensures Follows(tr'[i], tr'[i + 1]) {
      if i < |tr| - 1 { assert Follows(tr[i], tr[i + 1]); }
    }
  }

  const TORN: seq<nat> := [1, 2, 1, 1, 1]

  function Ones(a: nat, b: nat): seq<nat> {
    seq(CELLS, c => if c == 0 then a else if c == 1 then b else 1)
  }

  /** A writer takes the bucket and is forced out at once. */
  lemma ForcedOutRun() returns (tr: seq<State>)
    ensures IsRun(tr) && NeverHeld(tr, TORN)
    ensures tr[|tr| - 1] == State(2, Ones(1, 1), map[0 := In(0)], map[1 := Idle])
  {
    var s := State(0, Ones(1, 1), map[0 := Out], map[1 := Idle]);
    assert SlotOf(Ones(1, 1), 0)[1] == 1;
    tr := [s];
    tr := Extend(tr, 0, LoadForWrite, TORN);
    assert tr[|tr| - 1] == State(0, Ones(1, 1), map[0 := Loaded(0)], map[1 := Idle]);
    tr := Extend(tr, 0, CasToOdd, TORN);
    assert tr[|tr| - 1] == State(1, Ones(1, 1), map[0 := In(0)], map[1 := Idle]);
    tr := Extend(tr, 0, Force(1), TORN);
  }

  function Any(): seq<nat> -> bool { (e: seq<nat>) => true }

  function Scan(copied: seq<nat>, stale: set<nat>): map<Id, Reader> {
    map[1 := Scanning(2, Any(), copied, {}, false, stale)]
  }

  ghost function At(mem: seq<nat>, copied: seq<nat>, stale: set<nat>): State {
    State(2, mem, map[0 := In(0)], Scan(copied, stale))
  }

  lemma CopyNext(tr: seq<State>, mem: seq<nat>, copied: seq<nat>, stale: set<nat>) returns (tr': seq<State>)
    requires IsRun(tr) && NeverHeld(tr, TORN) && tr[|tr| - 1] == At(mem, copied, stale) && |copied| < WORDS
    ensures |mem| == CELLS && IsRun(tr') && NeverHeld(tr', TORN) && tr'[|tr'| - 1] == At(mem, copied + [mem[|copied|]], stale)
  {
    var s := tr[|tr| - 1];
    assert !MustCheck(s.readers[1]);
    tr' := Extend(tr, 1, CopyWord, TORN);
    assert tr'[|tr'| - 1].readers == Scan(copied + [mem[|copied|]], stale);
  }

  lemma LateStore(tr: seq<State>, mem: seq<nat>, stale: set<nat>, cell: nat, mem': seq<nat>) returns (tr': seq<State>)
    requires IsRun(tr) && NeverHeld(tr, TORN) && tr[|tr| - 1] == At(mem, [1], stale) && |mem| == CELLS
    requires cell < CELLS && mem' == mem[cell := 2] && mem'[0] == 2
    ensures IsRun(tr') && NeverHeld(tr', TORN)
    ensures tr'[|tr'| - 1] == At(mem', [1], if cell == 0 then stale + {0} else stale)
  {
    assert SlotOf(mem', 0)[0] == 2;
    tr' := Extend(tr, 0, Store(cell, 2), TORN);
    assert tr'[|tr'| - 1].readers == Scan([1], if cell == 0 then stale + {0} else stale);
  }

  /** A reader copies one word. */
  lemma OneWordRun() returns (tr: seq<State>)
    ensures IsRun(tr) && NeverHeld(tr, TORN) && tr[|tr| - 1] == At(Ones(1, 1), [1], {})
  {
    tr := ForcedOutRun();
    assert SlotOf(Ones(1, 1), 0)[1] == 1;
    tr := Extend(tr, 1, LoadVersion(Any()), TORN);
    assert tr[|tr| - 1].readers == Scan([], {});
    tr := CopyNext(tr, Ones(1, 1), [], {});
    assert [] + [Ones(1, 1)[0]] == [1];
  }

  /** And the forced-out writer stores two. */
  lemma LateStoreRun() returns (tr: seq<State>)
    ensures IsRun(tr) && NeverHeld(tr, TORN) && tr[|tr| - 1] == At(Ones(2, 2), [1], {0})
  {
    var none: set<nat> := {};
    tr := OneWordRun();
    tr := LateStore(tr, Ones(1, 1), none, 0, Ones(2, 1));
    assert none + {0} == {0};
    tr := LateStore(tr, Ones(2, 1), {0}, 1, Ones(2, 2));
  }

  /** Without the proviso readers are handed torn entries: a run in which a holder is forced
      out and stores late, and a reader under one even version passes its recheck with an
      entry its slot held at no instant of the run. */
  lemma UsurpedStoreTears() returns (tr: seq<State>)
    ensures IsRun(tr) && NeverHeld(tr, TORN)
    ensures var s := tr[|tr| - 1];
            && CanStep(s, 1, Recheck(true)) && SlotOf(s.readers[1].copied, LastSlot(s.readers[1].copied)) == TORN
            && Step(s, 1, Recheck(true)).readers[1].Scanning? && Step(s, 1, Recheck(true)).readers[1].handed == {0}
  {
    tr := LateStoreRun();
    var mem := Ones(2, 2);
    tr := CopyNext(tr, mem, [1], {0});
    tr := CopyNext(tr, mem, [1] + [mem[1]], {0});
    tr := CopyNext(tr, mem, [1] + [mem[1]] + [mem[2]], {0});
    tr := CopyNext(tr, mem, [1] + [mem[1]] + [mem[2]] + [mem[3]], {0});
    assert [1] + [mem[1]] + [mem[2]] + [mem[3]] + [mem[4]] == TORN;
    assert SlotOf(TORN, 0) == TORN;
  }
}
