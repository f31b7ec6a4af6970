/** Runs that show where the write lock's checks end: what its comments rule out and its
    steps allow. */
module RevalidationLimits {
  import opened TokenLock
  import opened Revalidation
  import opened WriteLockRelease

  lemma Extend(tr: seq<State>, p: Pid, act: Action) returns (tr': seq<State>)
    requires IsRun(tr) && CanStep(tr[|tr| - 1], p, act)
    ensures IsRun(tr') && tr' == tr + [Step(tr[|tr| - 1], p, act)]
  {
    var s := tr[|tr| - 1];
    tr' := tr + [Step(s, p, act)];
    assert Follows(s, Step(s, p, act));
    forall i | 0 <= i < |tr'| - 1 ensures Linked(tr', i) {
      if i < |tr| - 1 { assert Linked(tr, i); }
    }
  }

  // ---- whole calls, undisturbed ---------------------------------------------------------------

  lemma Acquire(tr: seq<State>, p: Pid, slot: int) returns (tr': seq<State>)
    requires IsRun(tr) && slot < SLOTS
    requires var s := tr[|tr| - 1]; p in s.procs && s.procs[p] == Locking(Idle) && s.mem.lock == 0
    ensures IsRun(tr')
    ensures var s := tr[|tr| - 1]; var t := TokenOf(s.mem.gen + 1, slot);
            tr'[|tr'| - 1] == State(Shared(t, s.mem.gen + 1), s.owner, s.procs[p := Locking(Holding(t, s.mem.gen + 1))])
  {
    tr' := Extend(tr, p, Try(Sample(slot)));
    tr' := Extend(tr', p, Try(Cas));
    tr' := Extend(tr', p, Try(RereadGen));
    tr' := Extend(tr', p, Try(ClaimGen));
    tr' := Extend(tr', p, Try(FixUp));
  }

  lemma Revalidate(tr: seq<State>, p: Pid, release: bool) returns (tr': seq<State>)
    requires IsRun(tr)
    requires var s := tr[|tr| - 1];
             && p in s.procs && s.procs[p].Published? && s.owner == p
             && s.mem.lock == s.procs[p].value && Register(s.mem.gen) == Register(s.procs[p].generation)
    ensures IsRun(tr')
    ensures var s := tr[|tr| - 1]; var w := s.procs[p];
            tr'[|tr'| - 1] == s.(procs := s.procs[p := if release then Releasing(w.value, w.generation)
                                                       else Revalidated(w.value, w.generation)])
  {
    tr' := Extend(tr, p, LoadGen(release));
    tr' := Extend(tr', p, LoadByte);
    tr' := Extend(tr', p, LoadOwner);
  }

  lemma Watch(tr: seq<State>, r: Pid) returns (tr': seq<State>)
    requires IsRun(tr)
    requires var s := tr[|tr| - 1]; r in s.procs && s.procs[r] == Locking(Idle) && s.mem.lock != 0
    ensures IsRun(tr')
    ensures var s := tr[|tr| - 1];
            tr'[|tr'| - 1] == s.(procs := s.procs[r := Locking(GenChecked(s.mem.lock, s.mem.gen))])
  {
    tr' := Extend(tr, r, Try(Sample(NO_SLOT)));
    tr' := Extend(tr', r, Try(Cas));
    tr' := Extend(tr', r, ReadHolderGen);
    tr' := Extend(tr', r, CheckGen);
  }

  lemma Recover(tr: seq<State>, r: Pid) returns (tr': seq<State>)
    requires IsRun(tr)
    requires var s := tr[|tr| - 1]; r in s.procs && s.procs[r] == Locking(Idle) && s.mem.lock != 0
    ensures IsRun(tr')
    ensures var s := tr[|tr| - 1]; tr'[|tr'| - 1] == State(Shared(0, s.mem.gen + 1), 0, s.procs)
  {
    tr' := Watch(tr, r);
    tr' := Extend(tr', r, ClaimByte);
    tr' := Extend(tr', r, Retire);
    tr' := Extend(tr', r, RecoverOwner);
    tr' := Extend(tr', r, RecoverFree);
  }

  lemma Round(tr: seq<State>, p: Pid) returns (tr': seq<State>)
    requires IsRun(tr)
    requires var s := tr[|tr| - 1]; p in s.procs && s.procs[p] == Locking(Idle) && s.mem.lock == 0 && s.owner == 0
    ensures IsRun(tr')
    ensures var s := tr[|tr| - 1]; tr'[|tr'| - 1] == s.(mem := Shared(0, s.mem.gen + 1))
  {
    tr' := Acquire(tr, p, NO_SLOT);
    tr' := Extend(tr', p, Publish);
    tr' := Revalidate(tr', p, true);
    tr' := Extend(tr', p, ClearOwner);
    tr' := Extend(tr', p, FreeByte);
  }

  lemma {:induction false} Rounds(tr: seq<State>, p: Pid, n: nat) returns (tr': seq<State>)
    requires IsRun(tr)
    requires var s := tr[|tr| - 1]; p in s.procs && s.procs[p] == Locking(Idle) && s.mem.lock == 0 && s.owner == 0
    ensures IsRun(tr')
    ensures var s := tr[|tr| - 1]; tr'[|tr'| - 1] == s.(mem := Shared(0, s.mem.gen + n))
    decreases n
  {
    if n == 0 {
      tr' := tr;
    } else {
      tr' := Rounds(tr, p, n - 1);
      tr' := Round(tr', p);
    }
  }

  const START: State := State(Shared(0, 0), 0, map[1 := Locking(Idle), 2 := Locking(Idle), 3 := Locking(Idle)])

  /** Process 1 acquires and has not stored its PID when process 3 recovers the lock. */
  lemma RecoveredBeforeStore() returns (tr: seq<State>)
    ensures IsRun(tr)
    ensures tr[|tr| - 1] == State(Shared(0, 2), 0, START.procs[1 := Locking(Holding(2, 1))])
  {
    tr := [START];
    tr := Acquire(tr, 1, NO_SLOT);
    tr := Recover(tr, 3);
  }

  /** Process 1's release has revalidated when process 3 recovers the lock. */
  lemma RecoveredInRelease() returns (tr: seq<State>)
    ensures IsRun(tr)
    ensures tr[|tr| - 1] == State(Shared(0, 2), 0, START.procs[1 := Releasing(5, 1)])
  {
    tr := [START];
    tr := Acquire(tr, 1, 2);
    tr := Extend(tr, 1, Publish);
    tr := Revalidate(tr, 1, true);
    tr := Recover(tr, 3);
  }

  /** Process 2 then acquires under a slot that gives it the same token, and passes. */
  lemma UsurperPasses() returns (tr: seq<State>)
    ensures IsRun(tr)
    ensures tr[|tr| - 1] == State(Shared(5, 3), 2, START.procs[1 := Releasing(5, 1)][2 := Revalidated(5, 3)])
  {
    tr := RecoveredInRelease();
    tr := Acquire(tr, 2, 0);
    tr := Extend(tr, 2, Publish);
    tr := Revalidate(tr, 2, false);
  }

  // ---- the witnesses --------------------------------------------------------------------------------

  /** A recovered holder passes again: it stores its PID after the recovery and loads the
      generation after a full turn of the register, while the current holder is in its own
      passed revalidation. */
  lemma RecoveredPassesAgain() returns (tr: seq<State>)
    ensures IsRun(tr)
    ensures var s := tr[|tr| - 1];
            && 1 in s.procs && s.procs[1] == Revalidated(2, 1)
            && 2 in s.procs && s.procs[2] == Revalidated(2, GENERATIONS + 1)
  {
    tr := RecoveredBeforeStore();
    tr := Rounds(tr, 2, GENERATIONS - 2);
    tr := Acquire(tr, 2, NO_SLOT);
    tr := Extend(tr, 2, Publish);
    tr := Revalidate(tr, 2, false);
    tr := Extend(tr, 1, Publish);
    tr := Revalidate(tr, 1, false);
  }

  /** The late store of a PID strands the next holder's lock, with no turn of the register: its
      release gives up, and the byte stays held with no process holding it. */
  lemma LateStoreStrands() returns (tr: seq<State>)
    ensures IsRun(tr)
    ensures var s := tr[|tr| - 1];
            && s.mem == Shared(4, 3) && s.owner == 1
            && 1 in s.procs && s.procs[1] == Published(2, 1)
            && 2 in s.procs && s.procs[2] == Locking(Idle) && 3 in s.procs && s.procs[3] == Locking(Idle)
  {
    tr := RecoveredBeforeStore();
    tr := Acquire(tr, 2, NO_SLOT);
    tr := Extend(tr, 2, Publish);
    tr := Extend(tr, 1, Publish);
    tr := Extend(tr, 2, LoadGen(true));
    tr := Extend(tr, 2, LoadByte);
    tr := Extend(tr, 2, LoadOwner);
  }

  /** A release that was past its revalidation when its lock was recovered frees the next holder's
      byte, two generations on: the two slots give the two generations one token.  A third process
      then passes while that holder is in its own passed revalidation. */
  lemma LateReleaseFreesUsurper() returns (tr: seq<State>)
    ensures IsRun(tr)
    ensures var s := tr[|tr| - 1];
            && 2 in s.procs && s.procs[2] == Revalidated(5, 3)
            && 3 in s.procs && s.procs[3] == Revalidated(5, 4)
  {
    tr := UsurperPasses();
    tr := Extend(tr, 1, ClearOwner);
    tr := Extend(tr, 1, FreeByte);
    tr := Acquire(tr, 3, NO_SLOT);
    tr := Extend(tr, 3, Publish);
    tr := Revalidate(tr, 3, false);
  }

  // ---- a late claim --------------------------------------------------------------------------------------

  /** From state a on the byte holds v. */
  ghost predicate Kept(tr: seq<State>, a: nat, v: nat) {
    forall i :: a <= i < |tr| ==> tr[i].mem.lock == v
  }

  lemma ExtendKept(tr: seq<State>, a: nat, p: Pid, act: Action) returns (tr': seq<State>)
    requires IsRun(tr) && a < |tr| && Kept(tr, a, tr[a].mem.lock) && CanStep(tr[|tr| - 1], p, act)
    requires Step(tr[|tr| - 1], p, act).mem.lock == tr[a].mem.lock
    ensures IsRun(tr') && tr' == tr + [Step(tr[|tr| - 1], p, act)] && Kept(tr', a, tr[a].mem.lock)
  {
    tr' := Extend(tr, p, act);
  }

  /** Process 1 has won the byte and re-read the generation when process 3 recovers the lock. */
  lemma RecoveredBeforeClaim() returns (tr: seq<State>)
    ensures IsRun(tr)
    ensures tr[|tr| - 1] == State(Shared(0, 1), 0, START.procs[1 := Locking(Reread(NO_SLOT, 1, 0))])
  {
    tr := [START];
    tr := Extend(tr, 1, Try(Sample(NO_SLOT)));
    tr := Extend(tr, 1, Try(Cas));
    tr := Extend(tr, 1, Try(RereadGen));
    tr := Recover(tr, 3);
  }

  /** Process 2 acquires and stores its PID at a, and then process 1 claims. */
  lemma LateClaim() returns (tr: seq<State>, a: nat)
    ensures IsRun(tr) && a < |tr| && Kept(tr, a, 3)
    ensures 2 in tr[a].procs && tr[a].procs[2] == Published(3, 2) && tr[a].mem.gen == 2 && tr[a].owner == 2
    ensures tr[|tr| - 1] == State(Shared(3, 3), 2, START.procs[1 := Locking(Lost)][2 := Published(3, 2)])
  {
    tr := RecoveredBeforeClaim();
    tr := Acquire(tr, 2, NO_SLOT);
    tr := Extend(tr, 2, Publish);
    a := |tr| - 1;
    tr := ExtendKept(tr, a, 1, Try(ClaimGen));
    tr := ExtendKept(tr, a, 1, Try(FixUp));
  }

  /** The late claim of a recovered acquirer retires the generation of a holder that nobody
      recovered: from its store of the PID on the byte is its own, yet its release gives up and
      the byte stays held, though nobody else stored in the owner word. */
  lemma LateClaimStrands() returns (tr: seq<State>, a: nat)
    ensures IsRun(tr) && a < |tr| && Kept(tr, a, 3)
    ensures 2 in tr[a].procs && tr[a].procs[2] == Published(3, 2) && tr[a].mem.gen == 2 && tr[a].owner == 2
    ensures var s := tr[|tr| - 1];
            s.mem == Shared(3, 3) && s.owner == 2 && s.procs == START.procs[1 := Locking(Lost)]
  {
    tr, a := LateClaim();
    tr := ExtendKept(tr, a, 2, LoadGen(true));
    tr := ExtendKept(tr, a, 2, LoadByte);
    tr := ExtendKept(tr, a, 2, LoadOwner);
  }

  /** Process 2 wins the byte at a and re-reads the generation, and then process 1 claims. */
  lemma ClaimAfterReread() returns (tr: seq<State>, a: nat)
    ensures IsRun(tr) && a < |tr| && Kept(tr, a, 3)
    ensures 2 in tr[a].procs && tr[a].procs[2] == Locking(Won(NO_SLOT, 2))
    ensures tr[|tr| - 1] == State(Shared(3, 2), 0, START.procs[1 := Locking(Claimed(NO_SLOT, 1, 0, 2))][2 := Locking(Reread(NO_SLOT, 2, 1))])
  {
    tr := RecoveredBeforeClaim();
    tr := Extend(tr, 2, Try(Sample(NO_SLOT)));
    tr := Extend(tr, 2, Try(Cas));
    a := |tr| - 1;
    tr := ExtendKept(tr, a, 2, Try(RereadGen));
    tr := ExtendKept(tr, a, 1, Try(ClaimGen));
  }

  /** It also makes an acquirer that nobody recovered believe it lost: process 2 wins the byte, the
      byte keeps its token, and its fix-up says Lost, with no process holding the lock. */
  lemma ToldLostUnrecovered() returns (tr: seq<State>, a: nat)
    ensures IsRun(tr) && a < |tr| && Kept(tr, a, 3)
    ensures 2 in tr[a].procs && tr[a].procs[2] == Locking(Won(NO_SLOT, 2))
    ensures var s := tr[|tr| - 1];
            s.mem == Shared(3, 3) && s.owner == 0 && s.procs == START.procs[1 := Locking(Claimed(NO_SLOT, 1, 0, 2))][2 := Locking(Lost)]
  {
    tr, a := ClaimAfterReread();
    tr := ExtendKept(tr, a, 2, Try(ClaimGen));
    tr := ExtendKept(tr, a, 2, Try(FixUp));
  }

  // ---- whoever disturbs can make the release give up -------------------------------------------------

  /** From state n on no recovery claims the byte and p's release has not passed. */
  ghost predicate Unclaimed(tr: seq<State>, n: nat, p: Pid) {
    forall i :: n <= i < |tr| ==> tr[i].mem.lock < RECOVERING_A && p in tr[i].procs && !Leaves(tr[i].procs[p])
  }

  lemma ExtendUnclaimed(tr: seq<State>, n: nat, p: Pid, q: Pid, act: Action) returns (tr': seq<State>)
    requires IsRun(tr) && n <= |tr| && Unclaimed(tr, n, p) && CanStep(tr[|tr| - 1], q, act)
    requires var s' := Step(tr[|tr| - 1], q, act); s'.mem.lock < RECOVERING_A && p in s'.procs && !Leaves(s'.procs[p])
    ensures IsRun(tr') && tr' == tr + [Step(tr[|tr| - 1], q, act)] && Unclaimed(tr', n, p)
  {
    tr' := Extend(tr, q, act);
  }

  /** p's checks of byte, generation and owner do not all succeed any more. */
  predicate Spoiled(s: State, p: Pid, w: WPc) {
    && p in s.procs && w.Published? && s.procs[p] == w && s.mem.lock < RECOVERING_A
    && !(Register(s.mem.gen) == Register(w.generation) && s.mem.lock == w.value && s.owner == p)
  }

  lemma GivesUp(tr: seq<State>, n: nat, p: Pid, w: WPc) returns (tr': seq<State>)
    requires IsRun(tr) && n <= |tr| && Unclaimed(tr, n, p) && Spoiled(tr[|tr| - 1], p, w)
    ensures IsRun(tr') && tr <= tr' && Unclaimed(tr', n, p)
    ensures p in tr'[|tr'| - 1].procs && tr'[|tr'| - 1].procs[p] == Locking(Idle)
  {
    tr' := ExtendUnclaimed(tr, n, p, p, LoadGen(true));
    tr' := ExtendUnclaimed(tr', n, p, p, LoadByte);
    tr' := ExtendUnclaimed(tr', n, p, p, LoadOwner);
  }

  lemma NextRegister(g: nat)
    ensures Register(g + 1) != Register(g)
  {}

  // q's remaining steps, up to the one that spoils p's checks.
  lemma SpoilClaiming(tr: seq<State>, p: Pid, q: Pid, w: WPc) returns (tr': seq<State>)
    requires IsRun(tr) && p != q && Sound(tr[|tr| - 1], p) && w == tr[|tr| - 1].procs[p] && w.Published?
    requires q in tr[|tr| - 1].procs && tr[|tr| - 1].procs[q].Locking?
    requires var pc := tr[|tr| - 1].procs[q].pc; pc.Won? || pc.Reread? || pc.RecoveryClaimed?
    ensures IsRun(tr') && tr <= tr' && Unclaimed(tr', |tr|, p) && Spoiled(tr'[|tr'| - 1], p, w)
  {
    var n, pc := |tr|, tr[|tr| - 1].procs[q].pc;
    NextRegister(tr[n - 1].mem.gen);
    if pc.RecoveryClaimed? {
      tr' := ExtendUnclaimed(tr, n, p, q, Retire);
    } else if pc.Reread? {
      tr' := ExtendUnclaimed(tr, n, p, q, Try(ClaimGen));
    } else {
      tr' := ExtendUnclaimed(tr, n, p, q, Try(RereadGen));
      tr' := ExtendUnclaimed(tr', n, p, q, Try(ClaimGen));
    }
  }

  lemma SpoilStoring(tr: seq<State>, p: Pid, q: Pid, w: WPc) returns (tr': seq<State>)
    requires IsRun(tr) && p != q && Sound(tr[|tr| - 1], p) && w == tr[|tr| - 1].procs[p] && w.Published?
    requires q in tr[|tr| - 1].procs && tr[|tr| - 1].procs[q].Locking?
    requires Disturbs(tr[|tr| - 1].procs[q], tr[|tr| - 1].mem.lock)
    requires var pc := tr[|tr| - 1].procs[q].pc; pc.Claimed? || pc.Holding? || pc.RecoveryBumped?
    ensures IsRun(tr') && tr <= tr' && Unclaimed(tr', |tr|, p) && Spoiled(tr'[|tr'| - 1], p, w)
  {
    var n, pc := |tr|, tr[|tr| - 1].procs[q].pc;
    if pc.RecoveryBumped? {
      tr' := ExtendUnclaimed(tr, n, p, q, RecoverOwner);
    } else if pc.Holding? {
      tr' := ExtendUnclaimed(tr, n, p, q, Publish);
    } else {
      tr' := ExtendUnclaimed(tr, n, p, q, Try(FixUp));
      if TokenOf(pc.claimed, pc.slot) == TokenOf(pc.planned, pc.slot) {
        tr' := ExtendUnclaimed(tr', n, p, q, Publish);
      }
    }
  }

  lemma SpoilFreeing(tr: seq<State>, p: Pid, q: Pid, w: WPc) returns (tr': seq<State>)
    requires IsRun(tr) && p != q && Sound(tr[|tr| - 1], p) && w == tr[|tr| - 1].procs[p] && w.Published?
    requires q in tr[|tr| - 1].procs && !tr[|tr| - 1].procs[q].Locking?
    requires Disturbs(tr[|tr| - 1].procs[q], tr[|tr| - 1].mem.lock)
    ensures IsRun(tr') && tr <= tr' && Unclaimed(tr', |tr|, p) && Spoiled(tr'[|tr'| - 1], p, w)
  {
    var n, v := |tr|, tr[|tr| - 1].procs[q];
    if v.RecoveryCleared? {
      tr' := ExtendUnclaimed(tr, n, p, q, RecoverFree);
    } else if v.OwnerCleared? {
      tr' := ExtendUnclaimed(tr, n, p, q, FreeByte);
    } else {
      tr' := ExtendUnclaimed(tr, n, p, q, ClearOwner);
      tr' := ExtendUnclaimed(tr', n, p, q, FreeByte);
    }
  }

  /** Wherever a process disturbs a holder whose checks would all succeed, the run has a continuation
      in which no recovery claims the byte and the holder's release gives up: quiet is exactly what
      it takes. */
  lemma DisturbedGivesUp(tr: seq<State>, p: Pid, q: Pid) returns (tr': seq<State>)
    requires IsRun(tr) && p != q && Sound(tr[|tr| - 1], p) && tr[|tr| - 1].procs[p].Published?
    requires q in tr[|tr| - 1].procs && Disturbs(tr[|tr| - 1].procs[q], tr[|tr| - 1].mem.lock)
    ensures IsRun(tr') && tr <= tr' && Unclaimed(tr', |tr|, p)
    ensures p in tr'[|tr'| - 1].procs && tr'[|tr'| - 1].procs[p] == Locking(Idle)
  {
    var w, v := tr[|tr| - 1].procs[p], tr[|tr| - 1].procs[q];
    if !v.Locking? {
      tr' := SpoilFreeing(tr, p, q, w);
    } else if v.pc.Claimed? || v.pc.Holding? || v.pc.RecoveryBumped? {
      tr' := SpoilStoring(tr, p, q, w);
    } else {
      tr' := SpoilClaiming(tr, p, q, w);
    }
    tr' := GivesUp(tr', |tr|, p, w);
  }
}
