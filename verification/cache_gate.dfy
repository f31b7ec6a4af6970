/** The cache gate and the three-phase stop.

    The gate is 16 reader-writer mutexes.  A reader takes the one its thread is assigned to;
    an exclusive holder takes all of them in index order and unlocks them in reverse.  A
    mutex's state is who holds it, so it is read off the program counters.

    One step is one lock, one unlock, one check, one use of the volumes, or the body of an
    exclusive section. */
module CacheGate {
  import opened Counting

  const SHARDS: nat := 16

  /** A thread and the shard its shared acquisitions use. */
  datatype Tid = Tid(id: nat, home: nat)

  /** What an exclusive acquisition is for. */
  datatype Why =
    | Starting               // Cache::start
    | Other                  // add_volume, reset_stats: the flags and the volumes' state stay
    | Claiming               // Cache::stop, phase 1
    | Closing                // Cache::stop, phase 3

  datatype Pc =
    | Idle
    | Locking(n: nat, why: Why)          // holds shards 0..n-1; all of them: in the gate
    | Unlocking(n: nat, claimed: bool)   // still holds shards 0..n-1
    | Joining                            // stop, phase 2
    | FinalWaiting | FinalSyncing        // the syncer's last pass, made by the stopping thread
    | OpWaiting | OpLocked | OpGranted | OpDenied
    | SyncIdle | SyncWaiting | SyncPass | SyncDone

  datatype State = State(
    threads: map<Tid, Pc>,
    running: bool, stopping: bool,
    open: bool,                          // the volumes are open
    syncer: set<Tid>,                    // the syncer's thread, empty without one
    quit: bool,                          // the syncer was told to stop
    starts: nat, claims: nat, closes: nat)   // history: successful starts, stops that claimed, closings

  /** Whether a start also starts a directory syncer. */
  datatype Spawn = NoSyncer | Syncer(tid: Tid)

  datatype Action =
    | Begin(pc: Pc)
    | Lock
    | Act(opens: bool, spawn: Spawn)        // the body of an exclusive section
    | Unlock
    | Check
    | Use                                   // touch the volumes
    | Loop                                  // the syncer looks at its flag
    | Tell                                  // stop clears the syncer's flag
    | Join

  predicate Shares(pc: Pc) {
    pc.OpLocked? || pc.OpGranted? || pc.OpDenied? || pc.SyncPass? || pc.FinalSyncing?
  }

  predicate WaitsShared(pc: Pc) { pc.OpWaiting? || pc.SyncWaiting? || pc.FinalWaiting? }

  predicate UsesVolumes(pc: Pc) { pc.OpGranted? || pc.SyncPass? || pc.FinalSyncing? }

  predicate InGate(pc: Pc) { pc.Locking? && pc.n >= SHARDS }

  /** t holds shard i exclusively. */
  predicate Excl(s: State, t: Tid, i: nat) {
    t in s.threads && (s.threads[t].Locking? || s.threads[t].Unlocking?) && i < s.threads[t].n
  }

  predicate Shared(s: State, t: Tid, i: nat) {
    t in s.threads && Shares(s.threads[t]) && t.home == i
  }

  ghost predicate NobodyElse(s: State, t: Tid, i: nat) {
    forall u :: u != t ==> !Excl(s, u, i) && !Shared(s, u, i)
  }

  ghost predicate NoWriter(s: State, i: nat) {
    forall u :: !Excl(s, u, i)
  }

  /** Which steps the program counter allows. */
  predicate Allowed(pc: Pc, act: Action) {
    match act
    case Begin(next) => pc.Idle? && (next.OpWaiting? || (next.Locking? && next.n == 0 && !next.why.Closing?))
    case Lock => WaitsShared(pc) || (pc.Locking? && pc.n < SHARDS)
    case Act(_, _) => InGate(pc)
    case Unlock => pc.Unlocking? || (Shares(pc) && !pc.OpLocked?)
    case Check => pc.OpLocked?
    case Use => UsesVolumes(pc)
    case Loop => pc.SyncIdle?
    case Tell => pc.Joining?
    case Join => pc.Joining?
  }

  ghost predicate CanStep(s: State, t: Tid, act: Action) {
    && t in s.threads
    && var pc := s.threads[t];
       && Allowed(pc, act)
       && match act
          case Lock => if pc.Locking? then NobodyElse(s, t, pc.n) else NoWriter(s, t.home)
          case Act(_, spawn) => spawn.Syncer? ==> spawn.tid !in s.threads && spawn.tid.home < SHARDS
          case Tell => !s.quit
          case Join => s.quit && forall u :: u in s.syncer ==> u in s.threads && s.threads[u].SyncDone?
          case _ => true
  }

  // The bodies of the exclusive sections: a start that succeeds, a stop that claims the
  // teardown, the closing of the volumes.  Everything else changes nothing.

  predicate Starts(s: State, pc: Pc, act: Action) {
    InGate(pc) && act.Act? && pc.why.Starting? && act.opens && !s.running
  }

  predicate Claims(s: State, pc: Pc, act: Action) {
    InGate(pc) && act.Act? && pc.why.Claiming? && s.running && !s.stopping
  }

  predicate Closes(pc: Pc, act: Action) {
    InGate(pc) && act.Act? && pc.why.Closing?
  }

  function AfterLock(pc: Pc): Pc
    requires pc.Locking? || WaitsShared(pc)
  {
    match pc
    case Locking(n, why) => Locking(n + 1, why)
    case OpWaiting => OpLocked
    case SyncWaiting => SyncPass
    case _ => FinalSyncing
  }

  function AfterUnlock(s: State, pc: Pc): Pc
    requires pc.Unlocking? || Shares(pc)
  {
    match pc
    case Unlocking(n, claimed) =>
      if n > 1 then Unlocking(n - 1, claimed)
      else if !claimed then Idle
      else if s.syncer == {} then Locking(0, Closing)
      else Joining
    case SyncPass => SyncIdle
    case FinalSyncing => Locking(0, Closing)
    case _ => Idle
  }

  function NextPc(s: State, pc: Pc, act: Action): Pc
    requires Allowed(pc, act)
  {
    match act
    case Begin(next) => next
    case Lock => AfterLock(pc)
    case Act(_, _) => Unlocking(SHARDS, Claims(s, pc, act))
    case Unlock => AfterUnlock(s, pc)
    case Check => if s.running && !s.stopping then OpGranted else OpDenied
    case Loop => if s.quit then SyncDone else SyncWaiting
    case Join => FinalWaiting
    case _ => pc
  }

  predicate Spawns(s: State, pc: Pc, act: Action, u: Tid) {
    Starts(s, pc, act) && act.spawn == Syncer(u)
  }

  ghost function Step(s: State, t: Tid, act: Action): (s': State)
    requires CanStep(s, t, act)
  {
    var pc := s.threads[t];
    var starts, claims, closes := Starts(s, pc, act), Claims(s, pc, act), Closes(pc, act);
    State((if starts && act.spawn.Syncer? then s.threads[act.spawn.tid := SyncIdle] else s.threads)[t := NextPc(s, pc, act)],
          (s.running || starts) && !closes,
          (s.stopping || claims) && !closes,
          (s.open || starts) && !closes,
          if !starts then s.syncer else if act.spawn.Syncer? then {act.spawn.tid} else {},
          if starts then false else s.quit || act.Tell?,
          s.starts + Ind(starts), s.claims + Ind(claims), s.closes + Ind(closes))
  }

  predicate Init(s: State) {
    && (forall t :: t in s.threads ==> s.threads[t].Idle? && t.home < SHARDS)
    && !s.running && !s.stopping && !s.open && s.syncer == {} && !s.quit
    && s.starts == 0 && s.claims == 0 && s.closes == 0
  }

  // ---- invariant -----------------------------------------------------------------------------------

  /** The stop that won phase 1, up to its closing of the volumes. */
  predicate TearsDown(pc: Pc) {
    || (pc.Unlocking? && pc.claimed) || pc.Joining? || pc.FinalWaiting? || pc.FinalSyncing?
    || (pc.Locking? && pc.why.Closing?)
  }

  /** Past the join. */
  predicate Joined(pc: Pc) {
    pc.FinalWaiting? || pc.FinalSyncing? || (pc.Locking? && pc.why.Closing?)
  }

  predicate SyncAlive(pc: Pc) { pc.SyncIdle? || pc.SyncWaiting? || pc.SyncPass? }

  predicate ThreadOk(s: State, t: Tid)
    requires t in s.threads
  {
    var pc := s.threads[t];
    && t.home < SHARDS
    && (pc.Locking? ==> pc.n <= SHARDS)
    && (pc.Unlocking? ==> 0 < pc.n <= SHARDS)
    && (TearsDown(pc) ==> s.stopping)
    && (pc.OpGranted? ==> s.running && !s.stopping)
    && (SyncAlive(pc) ==> s.syncer == {t} && s.running)
  }

  ghost predicate ThreadsInv(s: State) { forall t :: t in s.threads ==> ThreadOk(s, t) }

  predicate Conflict(s: State, t: Tid, u: Tid, i: nat) {
    Excl(s, t, i) && t != u && (Excl(s, u, i) || Shared(s, u, i))
  }

  ghost predicate Exclusion(s: State) {
    forall t, u, i :: !Conflict(s, t, u, i)
  }

  predicate InTeardown(s: State, t: Tid) { t in s.threads && TearsDown(s.threads[t]) }

  predicate PastJoin(s: State, t: Tid) { t in s.threads && Joined(s.threads[t]) }

  predicate LiveSyncer(s: State, t: Tid) { t in s.threads && SyncAlive(s.threads[t]) }

  ghost predicate OneTeardown(s: State) {
    && (forall t, u :: InTeardown(s, t) && InTeardown(s, u) ==> t == u)
    && (s.stopping ==> exists t :: InTeardown(s, t))
  }

  ghost predicate SyncersInv(s: State) {
    && (forall t, u :: PastJoin(s, t) ==> !LiveSyncer(s, u))
    && (forall u :: u in s.syncer ==> u in s.threads && (LiveSyncer(s, u) || s.threads[u].SyncDone?))
  }

  predicate FlagsInv(s: State) {
    && (s.stopping ==> s.running) && (s.running <==> s.open)
    && s.starts == s.closes + Ind(s.running) && s.claims == s.closes + Ind(s.stopping)
  }

  ghost predicate Inv(s: State) {
    ThreadsInv(s) && Exclusion(s) && OneTeardown(s) && SyncersInv(s) && FlagsInv(s)
  }

  // ---- every step keeps it ---------------------------------------------------------------------------

  lemma OthersStay(s: State, t: Tid, act: Action, u: Tid)
    requires CanStep(s, t, act) && u != t
    ensures var s' := Step(s, t, act);
            && (u in s.threads ==> u in s'.threads && s'.threads[u] == s.threads[u])
            && (u in s'.threads && u !in s.threads ==> Spawns(s, s.threads[t], act, u) && s'.threads[u] == SyncIdle)
  {}

  lemma OwnHoldings(s: State, t: Tid, act: Action, i: nat)
    requires CanStep(s, t, act) && ThreadOk(s, t)
    ensures t in Step(s, t, act).threads
    ensures Excl(Step(s, t, act), t, i) ==> Excl(s, t, i) || (act.Lock? && s.threads[t].Locking? && i == s.threads[t].n)
    ensures Shared(Step(s, t, act), t, i) ==> Shared(s, t, i) || (act.Lock? && WaitsShared(s.threads[t]) && i == t.home)
  {}

  /** Holdings grow only by a lock step, on a shard that admits it. */
  lemma HoldingsStep(s: State, t: Tid, act: Action, u: Tid, i: nat)
    requires CanStep(s, t, act) && ThreadOk(s, t)
    ensures var s' := Step(s, t, act);
            && (Excl(s', u, i) ==> Excl(s, u, i) || (act.Lock? && u == t && s.threads[t].Locking? && i == s.threads[t].n))
            && (Shared(s', u, i) ==> Shared(s, u, i) || (act.Lock? && u == t && WaitsShared(s.threads[t]) && i == t.home))
  {
    if u == t { OwnHoldings(s, t, act, i); } else { OthersStay(s, t, act, u); }
  }

  lemma ExclusionStep(s: State, t: Tid, act: Action)
    requires Inv(s) && CanStep(s, t, act)
    ensures Exclusion(Step(s, t, act))
  {
    var s' := Step(s, t, act);
    assert ThreadOk(s, t);
    forall u, v, i ensures !Conflict(s', u, v, i) {
      assert !Conflict(s, u, v, i) && !Conflict(s, v, u, i);
      HoldingsStep(s, t, act, u, i);
      HoldingsStep(s, t, act, v, i);
    }
  }

  /** The flags change only inside an exclusive section, where no shard is shared. */
  lemma AloneInGate(s: State, t: Tid, u: Tid)
    requires Inv(s) && t in s.threads && InGate(s.threads[t]) && u in s.threads && u != t
    ensures !Shares(s.threads[u]) && !InGate(s.threads[u])
  {
    assert ThreadOk(s, u);
    assert !Conflict(s, t, u, u.home) && !Conflict(s, t, u, 0);
    assert Excl(s, t, u.home) && Excl(s, t, 0);
  }

  lemma OwnOk(s: State, t: Tid, act: Action)
    requires CanStep(s, t, act) && ThreadOk(s, t)
    ensures t in Step(s, t, act).threads && ThreadOk(Step(s, t, act), t)
  {}

  lemma OtherOk(s: State, t: Tid, act: Action, u: Tid)
    requires CanStep(s, t, act) && u in s.threads && u != t && ThreadOk(s, u) && ThreadOk(s, t)
    requires InGate(s.threads[t]) ==> !Shares(s.threads[u])
    requires InTeardown(s, t) ==> !InTeardown(s, u)
    requires PastJoin(s, t) ==> !LiveSyncer(s, u)
    ensures u in Step(s, t, act).threads && ThreadOk(Step(s, t, act), u)
  {
    OthersStay(s, t, act, u);
  }

  lemma ThreadsStep(s: State, t: Tid, act: Action)
    requires Inv(s) && CanStep(s, t, act)
    ensures ThreadsInv(Step(s, t, act))
  {
    var s' := Step(s, t, act);
    assert ThreadOk(s, t);
    forall u | u in s'.threads ensures ThreadOk(s', u) {
      if u == t {
        OwnOk(s, t, act);
      } else if u in s.threads {
        assert ThreadOk(s, u);
        if InGate(s.threads[t]) { AloneInGate(s, t, u); }
        OtherOk(s, t, act, u);
      } else {
        OthersStay(s, t, act, u);
      }
    }
  }

  lemma FlagsStep(s: State, t: Tid, act: Action)
    requires FlagsInv(s) && CanStep(s, t, act) && ThreadOk(s, t)
    ensures FlagsInv(Step(s, t, act))
  {}

  /** Only the stop that claims enters the teardown, and only the closing one leaves it. */
  lemma TeardownOf(s: State, t: Tid, act: Action)
    requires CanStep(s, t, act) && ThreadOk(s, t)
    ensures var s' := Step(s, t, act);
            && (InTeardown(s', t) && !InTeardown(s, t) ==> !s.stopping)
            && (InTeardown(s, t) && !InTeardown(s', t) ==> !s'.stopping)
            && (s'.stopping && !s.stopping ==> InTeardown(s', t))
  {}

  lemma OneTeardownStep(s: State, t: Tid, act: Action)
    requires Inv(s) && CanStep(s, t, act)
    ensures OneTeardown(Step(s, t, act))
  {
    var s' := Step(s, t, act);
    assert ThreadOk(s, t);
    TeardownOf(s, t, act);
    forall u, v | InTeardown(s', u) && InTeardown(s', v) ensures u == v {
      TeardownOfOther(s, t, act, u);
      TeardownOfOther(s, t, act, v);
    }
    if s'.stopping && s.stopping {
      var u :| InTeardown(s, u);
      if u != t { OthersStay(s, t, act, u); }
      assert InTeardown(s', u);
    }
  }

  lemma TeardownOfOther(s: State, t: Tid, act: Action, u: Tid)
    requires ThreadsInv(s) && CanStep(s, t, act)
    ensures InTeardown(Step(s, t, act), u) && u != t ==> InTeardown(s, u) && s.stopping
  {
    if u != t { OthersStay(s, t, act, u); assert u in s.threads ==> ThreadOk(s, u); }
  }

  lemma JoinOf(s: State, t: Tid, act: Action)
    requires CanStep(s, t, act) && ThreadOk(s, t)
    ensures PastJoin(Step(s, t, act), t) && !PastJoin(s, t) ==> s.syncer == {} || act.Join?
    ensures LiveSyncer(Step(s, t, act), t) ==> LiveSyncer(s, t)
    ensures LiveSyncer(s, t) ==> LiveSyncer(Step(s, t, act), t) || Step(s, t, act).threads[t].SyncDone?
    ensures PastJoin(s, t) ==> !Starts(s, s.threads[t], act)
    ensures Step(s, t, act).syncer != s.syncer ==> Starts(s, s.threads[t], act)
  {}

  lemma SyncersStep(s: State, t: Tid, act: Action)
    requires Inv(s) && CanStep(s, t, act)
    ensures SyncersInv(Step(s, t, act))
  {
    var s' := Step(s, t, act);
    assert ThreadOk(s, t);
    JoinOf(s, t, act);
    forall u, v | PastJoin(s', u) ensures !LiveSyncer(s', v) {
      if u != t { OthersStay(s, t, act, u); assert u in s.threads ==> ThreadOk(s, u); }
      if v != t { OthersStay(s, t, act, v); assert v in s.threads ==> ThreadOk(s, v); }
      assert LiveSyncer(s, v) ==> v in s.syncer;
      assert PastJoin(s, u) ==> !LiveSyncer(s, v);
    }
    forall u | u in s'.syncer ensures u in s'.threads && (LiveSyncer(s', u) || s'.threads[u].SyncDone?) {
      if u != t { OthersStay(s, t, act, u); }
    }
  }

  lemma InvStep(s: State, t: Tid, act: Action)
    requires Inv(s) && CanStep(s, t, act)
    ensures Inv(Step(s, t, act))
  {
    assert ThreadOk(s, t);
    ThreadsStep(s, t, act);
    ExclusionStep(s, t, act);
    OneTeardownStep(s, t, act);
    SyncersStep(s, t, act);
    FlagsStep(s, t, act);
  }

  // ---- runs ---------------------------------------------------------------------------------------------

  ghost predicate Follows(s: State, s': State) {
    exists t, act :: CanStep(s, t, act) && s' == Step(s, t, act)
  }

  // A predicate of its own, so that a proof unfolds only the steps it names.
  ghost predicate Linked(tr: seq<State>, i: int) {
    0 <= i < |tr| - 1 && Follows(tr[i], tr[i + 1])
  }

  ghost predicate IsRun(tr: seq<State>) {
    |tr| > 0 && Init(tr[0]) && forall i :: 0 <= i < |tr| - 1 ==> Linked(tr, i)
  }

  lemma {:induction false} InvAlways(tr: seq<State>, i: nat)
    requires IsRun(tr) && i < |tr|
    ensures Inv(tr[i])
  {
    if i > 0 {
      InvAlways(tr, i - 1);
      assert Linked(tr, i - 1);
      var t, act :| CanStep(tr[i - 1], t, act) && tr[i] == Step(tr[i - 1], t, act);
      InvStep(tr[i - 1], t, act);
    }
  }

  /** No operation and no sync pass, the final one included, touches a closed volume. */
  lemma UseFindsVolumesOpen(tr: seq<State>, i: nat, t: Tid)
    requires IsRun(tr) && i < |tr| && CanStep(tr[i], t, Use)
    ensures tr[i].open
  {
    InvAlways(tr, i);
    assert ThreadOk(tr[i], t);
  }

  /** However many stops run at once, one thread tears a started cache down: the teardowns
      begun and finished match the starts. */
  lemma OneStopTearsDown(tr: seq<State>, i: nat, t: Tid, u: Tid)
    requires IsRun(tr) && i < |tr|
    ensures InTeardown(tr[i], t) && InTeardown(tr[i], u) ==> t == u
    ensures tr[i].closes <= tr[i].claims <= tr[i].starts <= tr[i].closes + 1
    ensures tr[i].closes < tr[i].claims <==> exists v :: InTeardown(tr[i], v)
  {
    InvAlways(tr, i);
    assert forall v :: InTeardown(tr[i], v) ==> ThreadOk(tr[i], v);
  }

  /** An operation's check grants it exactly while a start has no stop that claimed it. */
  lemma GrantedWhileStarted(tr: seq<State>, i: nat, t: Tid)
    requires IsRun(tr) && i < |tr| && CanStep(tr[i], t, Check)
    ensures Step(tr[i], t, Check).threads[t] ==
            if tr[i].starts > tr[i].closes && tr[i].claims == tr[i].closes then OpGranted else OpDenied
  {
    InvAlways(tr, i);
  }

  /** On the way to closing the volumes after the syncer's last pass. */
  predicate ToClose(s: State, t: Tid) {
    t in s.threads && s.threads[t].Locking? && s.threads[t].why.Closing?
  }

  lemma ClosingSince(s: State, s': State, t: Tid)
    requires Inv(s) && Follows(s, s') && ToClose(s', t) && s'.syncer != {}
    ensures t in s.threads && s.syncer == s'.syncer && (ToClose(s, t) || s.threads[t].FinalSyncing?)
  {
    var u, act :| CanStep(s, u, act) && s' == Step(s, u, act);
    assert ThreadOk(s, u);
    JoinOf(s, u, act);
    if u != t { OthersStay(s, u, act, t); }
    assert t in s.threads ==> ThreadOk(s, t);
  }

  /** With a syncer, the stopping thread makes the final pass before it closes the volumes. */
  lemma {:induction false} FinalPassFirst(tr: seq<State>, i: nat, t: Tid) returns (j: nat)
    requires IsRun(tr) && i < |tr| && ToClose(tr[i], t) && tr[i].syncer != {}
    ensures j < i && t in tr[j].threads && tr[j].threads[t].FinalSyncing? && tr[j].syncer == tr[i].syncer
    ensures forall m :: j < m <= i ==> ToClose(tr[m], t)
    decreases i
  {
    assert i > 0;
    InvAlways(tr, i - 1);
    assert Linked(tr, i - 1);
    ClosingSince(tr[i - 1], tr[i], t);
    if ToClose(tr[i - 1], t) {
      j := FinalPassFirst(tr, i - 1, t);
    } else {
      j := i - 1;
    }
  }

  // ---- one reader-writer lock ---------------------------------------------------------------------------

  datatype RwLock = RwLock(writers: set<Tid>, readers: set<Tid>)

  /** What a reader-writer lock allows one thread to do. */
  predicate RwNext(l: RwLock, l': RwLock, t: Tid) {
    || l' == l
    || (l.writers == {} && l' == l.(readers := l.readers + {t}))
    || (t in l.readers && l' == l.(readers := l.readers - {t}))
    || (l.writers == {} && l.readers == {} && l' == l.(writers := {t}))
    || (l.writers == {t} && l' == l.(writers := {}))
  }

  predicate HoldsAll(pc: Pc) { (pc.Locking? || pc.Unlocking?) && pc.n >= SHARDS }

  function Abs(s: State): RwLock {
    RwLock(set t | t in s.threads && HoldsAll(s.threads[t]), set t | t in s.threads && Shares(s.threads[t]))
  }

  lemma AbsOthers(s: State, t: Tid, act: Action, u: Tid)
    requires CanStep(s, t, act) && u != t
    ensures u in Abs(Step(s, t, act)).writers <==> u in Abs(s).writers
    ensures u in Abs(Step(s, t, act)).readers <==> u in Abs(s).readers
  {
    OthersStay(s, t, act, u);
  }

  /** The thread's own two memberships after a step. */
  lemma AbsOwn(s: State, t: Tid, act: Action)
    requires CanStep(s, t, act) && ThreadOk(s, t)
    ensures t in Abs(s).writers ==> t !in Abs(s).readers && t !in Abs(Step(s, t, act)).readers
    ensures t in Abs(s).readers ==> t !in Abs(Step(s, t, act)).writers
    ensures t in Abs(Step(s, t, act)).writers ==> t !in Abs(Step(s, t, act)).readers
    ensures t in Abs(Step(s, t, act)).writers && t !in Abs(s).writers ==> act.Lock? && s.threads[t].Locking? && s.threads[t].n == SHARDS - 1
    ensures t in Abs(Step(s, t, act)).readers && t !in Abs(s).readers ==> act.Lock? && WaitsShared(s.threads[t])
  {}

  lemma NoReaderFor(s: State, t: Tid, u: Tid)
    requires Inv(s) && u in s.threads && u != t
    requires t in s.threads && s.threads[t].Locking? && s.threads[t].n == SHARDS - 1 && NobodyElse(s, t, SHARDS - 1)
    ensures !HoldsAll(s.threads[u]) && !Shares(s.threads[u])
  {
    assert ThreadOk(s, u);
    assert !Conflict(s, t, u, u.home);
    assert HoldsAll(s.threads[u]) ==> Excl(s, u, SHARDS - 1);
    assert Shares(s.threads[u]) ==> Shared(s, u, u.home);
  }

  lemma NoWriterFor(s: State, i: nat, u: Tid)
    requires i < SHARDS && NoWriter(s, i) && u in s.threads
    ensures !HoldsAll(s.threads[u])
  {
    assert !Excl(s, u, i);
  }

  lemma OneWriter(s: State, u: Tid, v: Tid)
    requires Inv(s) && u in Abs(s).writers && v in Abs(s).writers
    ensures u == v
  {
    assert !Conflict(s, u, v, 0);
  }

  lemma RefinesStep(s: State, t: Tid, act: Action)
    requires Inv(s) && CanStep(s, t, act)
    ensures RwNext(Abs(s), Abs(Step(s, t, act)), t)
  {
    assert ThreadOk(s, t);
    AbsOwn(s, t, act);
    var l, l' := Abs(s), Abs(Step(s, t, act));
    forall u | u != t ensures (u in l'.writers <==> u in l.writers) && (u in l'.readers <==> u in l.readers) {
      AbsOthers(s, t, act, u);
    }
    var pc := s.threads[t];
    if act.Lock? && WaitsShared(pc) {
      assert l.writers == {} by { forall u | u in s.threads ensures !HoldsAll(s.threads[u]) { NoWriterFor(s, t.home, u); } }
    }
    if act.Lock? && pc.Locking? && pc.n == SHARDS - 1 {
      forall u | u in s.threads && u != t ensures !HoldsAll(s.threads[u]) && !Shares(s.threads[u]) { NoReaderFor(s, t, u); }
      assert l.writers == {} && l.readers == {};
    }
    forall u | u in l.writers && t in l.writers ensures u == t { OneWriter(s, u, t); }
    AbsNext(l, l', t);
  }

  /** Two lock states that differ at most in what t holds. */
  lemma AbsNext(l: RwLock, l': RwLock, t: Tid)
    requires forall u :: u != t ==> (u in l'.writers <==> u in l.writers) && (u in l'.readers <==> u in l.readers)
    requires t in l.writers ==> l.writers == {t} && t !in l.readers && t !in l'.readers
    requires t in l.readers ==> t !in l'.writers
    requires t in l'.writers && t !in l.writers ==> l.writers == {} && l.readers == {} && t !in l'.readers
    requires t in l'.readers && t !in l.readers ==> l.writers == {}
    ensures RwNext(l, l', t)
  {
    if t in l.readers && t !in l'.readers { assert l'.readers == l.readers - {t}; }
    if t in l'.readers { assert l'.readers == l.readers + {t}; }
    if t !in l.readers && t !in l'.readers { assert l'.readers == l.readers; }
    if t in l.writers && t !in l'.writers { assert l'.writers == {}; }
    if (t in l.writers) == (t in l'.writers) { assert l'.writers == l.writers; }
    if t in l'.writers && t !in l.writers { assert l'.writers == {t}; }
  }

  /** Every run of the sharded gate is a run of one reader-writer lock, and a completed
      exclusive acquisition excludes every reader and every other exclusive holder. */
  lemma RefinesOneLock(tr: seq<State>, i: nat)
    requires IsRun(tr) && i + 1 < |tr|
    ensures exists t, act :: CanStep(tr[i], t, act) && tr[i + 1] == Step(tr[i], t, act) && RwNext(Abs(tr[i]), Abs(tr[i + 1]), t)
    ensures forall t :: t in Abs(tr[i]).writers ==> Abs(tr[i]) == RwLock({t}, {})
  {
    InvAlways(tr, i);
    assert Linked(tr, i);
    var t, act :| CanStep(tr[i], t, act) && tr[i + 1] == Step(tr[i], t, act);
    RefinesStep(tr[i], t, act);
    forall t | t in Abs(tr[i]).writers ensures Abs(tr[i]) == RwLock({t}, {}) { WriterIsAlone(tr[i], t); }
  }

  lemma WriterIsAlone(s: State, t: Tid)
    requires Inv(s) && t in Abs(s).writers
    ensures Abs(s) == RwLock({t}, {})
  {
    forall u | u in Abs(s).writers ensures u == t { OneWriter(s, u, t); }
    forall u ensures u !in Abs(s).readers {
      assert u in s.threads ==> ThreadOk(s, u);
      assert !Conflict(s, t, u, u.home);
    }
  }

  // ---- no deadlock ----------------------------------------------------------------------------------------

  /** A thread with something left to do. */
  predicate Busy(s: State, t: Tid) {
    t in s.threads && !s.threads[t].Idle? && !s.threads[t].SyncDone?
  }

  /** t can take a step of its unfinished call, one that changes the state. */
  ghost predicate Moves(s: State, t: Tid) {
    exists act :: CanStep(s, t, act) && !act.Begin? && Step(s, t, act) != s
  }

  /** u holds the shard t wants, or is the syncer t joins. */
  predicate WaitsFor(s: State, t: Tid, u: Tid) {
    && t in s.threads && u in s.threads
    && var pc := s.threads[t];
       || (pc.Locking? && pc.n < SHARDS && u != t && (Excl(s, u, pc.n) || Shared(s, u, pc.n)))
       || (WaitsShared(pc) && Excl(s, u, t.home))
       || (pc.Joining? && s.quit && u in s.syncer && !s.threads[u].SyncDone?)
  }

  /** How far along a thread is: joining, wanting its shared shard, wanting shard n, or not waiting. */
  function Rank(pc: Pc): nat {
    if pc.Joining? then 0
    else if WaitsShared(pc) then 1
    else if pc.Locking? then 2 + pc.n
    else 3 + SHARDS
  }

  /** Nobody waits for itself through others: whoever is waited for is further along. */
  lemma WaitsForIsAcyclic(s: State, t: Tid, u: Tid)
    requires Inv(s) && WaitsFor(s, t, u)
    ensures Rank(s.threads[t]) < Rank(s.threads[u]) && Busy(s, u)
  {
    assert ThreadOk(s, t) && ThreadOk(s, u);
    if s.threads[t].Joining? { assert LiveSyncer(s, u); }
  }

  lemma HolderMoves(s: State, t: Tid)
    requires Inv(s) && t in s.threads
    requires Shares(s.threads[t]) || s.threads[t].Unlocking? || InGate(s.threads[t]) || s.threads[t].SyncIdle?
    ensures Moves(s, t)
  {
    var pc := s.threads[t];
    assert ThreadOk(s, t);
    var act := if pc.OpLocked? then Check else if pc.SyncIdle? then Loop else if pc.Locking? then Act(false, NoSyncer) else Unlock;
    assert CanStep(s, t, act) && Step(s, t, act).threads[t] != pc;
  }

  /** A busy thread can move, or waits for somebody. */
  lemma MovesOrWaits(s: State, t: Tid)
    requires Inv(s) && Busy(s, t)
    ensures Moves(s, t) || exists u :: WaitsFor(s, t, u)
  {
    var pc := s.threads[t];
    assert ThreadOk(s, t);
    if pc.Joining? {
      JoinerMovesOrWaits(s, t);
    } else if WaitsShared(pc) {
      if NoWriter(s, t.home) {
        assert CanStep(s, t, Lock) && Step(s, t, Lock).threads[t] != pc;
      } else {
        var u :| Excl(s, u, t.home);
        assert WaitsFor(s, t, u);
      }
    } else if pc.Locking? && pc.n < SHARDS {
      if NobodyElse(s, t, pc.n) {
        assert CanStep(s, t, Lock) && Step(s, t, Lock).threads[t] != pc;
      } else {
        var u :| u != t && (Excl(s, u, pc.n) || Shared(s, u, pc.n));
        assert WaitsFor(s, t, u);
      }
    } else {
      HolderMoves(s, t);
    }
  }

  lemma JoinerMovesOrWaits(s: State, t: Tid)
    requires Inv(s) && t in s.threads && s.threads[t].Joining?
    ensures Moves(s, t) || exists u :: WaitsFor(s, t, u)
  {
    if !s.quit {
      assert CanStep(s, t, Tell) && Step(s, t, Tell).quit;
    } else if forall u :: u in s.syncer ==> u in s.threads && s.threads[u].SyncDone? {
      assert CanStep(s, t, Join) && Step(s, t, Join).threads[t] != s.threads[t];
    } else {
      var u :| u in s.syncer && !(u in s.threads && s.threads[u].SyncDone?);
      assert WaitsFor(s, t, u);
    }
  }

  /** And not both: one that waits for somebody cannot move. */
  lemma WaitsMeansStuck(s: State, t: Tid, u: Tid)
    requires WaitsFor(s, t, u)
    ensures !Moves(s, t)
  {}

  /** p leads from t, each waiting for the next, to a thread that can move. */
  ghost predicate ChainToMover(s: State, t: Tid, p: seq<Tid>) {
    && |p| > 0 && p[0] == t && Moves(s, p[|p| - 1])
    && forall i :: 0 <= i < |p| - 1 ==> WaitsFor(s, p[i], p[i + 1])
  }

  lemma {:induction false} FindMover(s: State, t: Tid) returns (p: seq<Tid>)
    requires Inv(s) && Busy(s, t)
    ensures ChainToMover(s, t, p)
    decreases 3 + SHARDS - Rank(s.threads[t])
  {
    MovesOrWaits(s, t);
    if Moves(s, t) {
      p := [t];
    } else {
      assert ThreadOk(s, t);
      var u :| WaitsFor(s, t, u);
      WaitsForIsAcyclic(s, t, u);
      var q := FindMover(s, u);
      p := [t] + q;
      forall i | 0 <= i < |p| - 1 ensures WaitsFor(s, p[i], p[i + 1]) {
        if i > 0 { assert WaitsFor(s, q[i - 1], q[i]); }
      }
    }
  }

  /** No deadlock: every unfinished call, and the syncer, can move itself or waits, through a
      chain of threads each waiting for the next, for one that can.  Competing exclusive
      acquisitions, readers, the syncer and the stop that joins it are all in it. */
  lemma NoDeadlock(tr: seq<State>, i: nat, t: Tid)
    requires IsRun(tr) && i < |tr| && Busy(tr[i], t)
    ensures exists p :: ChainToMover(tr[i], t, p)
    ensures Moves(tr[i], t) <==> !exists u :: WaitsFor(tr[i], t, u)
    ensures forall u :: WaitsFor(tr[i], t, u) ==> Rank(tr[i].threads[t]) < Rank(tr[i].threads[u])
  {
    InvAlways(tr, i);
    var p := FindMover(tr[i], t);
    MovesOrWaits(tr[i], t);
    forall u | WaitsFor(tr[i], t, u) ensures Rank(tr[i].threads[t]) < Rank(tr[i].threads[u]) && !Moves(tr[i], t) {
      WaitsForIsAcyclic(tr[i], t, u);
      WaitsMeansStuck(tr[i], t, u);
    }
  }
}
