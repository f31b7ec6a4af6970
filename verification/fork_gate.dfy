/** The fork gate: a Dekker handshake over two counters between background passes and
    fork(), for any number of threads, nested passes and concurrent forks. */
module ForkGate {
  import opened Counting

  type Tid = nat

  datatype Pc =
    | Run
    | Announced               // pass: active count raised, pending forks not yet looked at
    | BackingOut              // pass: a fork is pending
    | Waiting                 // pass: backed out, polling the pending count
    | Preparing               // fork from outside a pass: pending count raised, polling the active count
    | Quiesced                // fork: saw no active pass
    | Forking                 // fork: liveness mutex held, the address space is being copied
    | Resuming                // fork, parent: mutex released, pending count not yet lowered
    | InMutex                 // claim or probe under the liveness mutex

  datatype Thread = Thread(depth: nat, pc: Pc)

  datatype Mutex = Free | HeldBy(t: Tid)

  datatype State = State(threads: map<Tid, Thread>, active: int, pending: int, mutex: Mutex, epoch: nat)

  datatype Action = Announce | LookForFork | BackOut | PollFork(keepRunning: bool) | Nest | Leave
                  | BeginFork | PollPasses | TakeMutex | ParentUnlock | ParentDone | Lock | Unlock

  predicate CanStep(s: State, t: Tid, act: Action) {
    && t in s.threads
    && var th := s.threads[t];
      match act
      case Announce => th == Thread(0, Run)
      case LookForFork => th.pc.Announced?
      case BackOut => th.pc.BackingOut?
      case PollFork(_) => th.pc.Waiting?
      case Nest => th.depth > 0 && th.pc.Run?
      case Leave => th.depth > 0 && th.pc.Run?
      case BeginFork => th.pc.Run?
      case PollPasses => th.pc.Preparing?
      case TakeMutex => th.pc.Quiesced? && s.mutex.Free?
      case ParentUnlock => th.pc.Forking?
      case ParentDone => th.pc.Resuming?
      case Lock => th.pc.Run? && s.mutex.Free?
      case Unlock => th.pc.InMutex?
  }

  function Step(s: State, t: Tid, act: Action): (s': State)
    requires CanStep(s, t, act)
  {
    var th := s.threads[t];
    match act
    case Announce => s.(active := s.active + 1, threads := s.threads[t := Thread(0, Announced)])
    case LookForFork =>
      s.(threads := s.threads[t := if s.pending == 0 then Thread(1, Run) else Thread(th.depth, BackingOut)])
    case BackOut => s.(active := s.active - 1, threads := s.threads[t := Thread(th.depth, Waiting)])
    case PollFork(keepRunning) =>
      // No fork any more: back to the announcement, which is the next step, or the pass is skipped.
      s.(threads := s.threads[t := if s.pending != 0 && keepRunning then th else Thread(th.depth, Run)])
    case Nest => s.(threads := s.threads[t := Thread(th.depth + 1, Run)])
    case Leave =>
      s.(active := if th.depth == 1 then s.active - 1 else s.active, threads := s.threads[t := Thread(th.depth - 1, Run)])
    case BeginFork =>
      // A fork from inside a pass leaves the gate alone and only takes the mutex.
      if th.depth == 0 then s.(pending := s.pending + 1, threads := s.threads[t := Thread(0, Preparing)])
      else if s.mutex.Free? then s.(mutex := HeldBy(t), threads := s.threads[t := Thread(th.depth, Forking)])
      else s
    case PollPasses => s.(threads := s.threads[t := if s.active == 0 then Thread(th.depth, Quiesced) else th])
    case TakeMutex => s.(mutex := HeldBy(t), threads := s.threads[t := Thread(th.depth, Forking)])
    case ParentUnlock =>
      s.(mutex := Free, threads := s.threads[t := Thread(th.depth, if th.depth == 0 then Resuming else Run)])
    case ParentDone => s.(pending := s.pending - 1, threads := s.threads[t := Thread(th.depth, Run)])
    case Lock => s.(mutex := HeldBy(t), threads := s.threads[t := Thread(th.depth, InMutex)])
    case Unlock => s.(mutex := Free, threads := s.threads[t := Thread(th.depth, Run)])
  }

  /** The child of a fork by t, after its handler: a copy of the memory with the one
      thread t, whose handler unlocks the mutex and stores both counters. */
  function Child(s: State, t: Tid): (c: State)
    requires t in s.threads && s.threads[t].pc.Forking?
  {
    var depth := s.threads[t].depth;
    State(map[t := Thread(depth, Run)], if depth != 0 then 1 else 0, 0, Free, s.epoch + 1)
  }

  predicate Init(s: State) {
    s.active == 0 && s.pending == 0 && s.mutex == Free && forall t :: t in s.threads ==> s.threads[t] == Thread(0, Run)
  }

  // ---- the true counts --------------------------------------------------------------------

  /** Inside a pass, or announcing itself and not yet backed out. */
  predicate Counted(th: Thread) {
    th.depth > 0 || th.pc.Announced? || th.pc.BackingOut?
  }

  /** Between the announcement of a fork from outside a pass and its parent handler's end. */
  predicate Forks(th: Thread) {
    th.depth == 0 && (th.pc.Preparing? || th.pc.Quiesced? || th.pc.Forking? || th.pc.Resuming?)
  }

  /** Past the wait of the prepare handler. */
  predicate PastPrepare(th: Thread) {
    th.depth == 0 && (th.pc.Quiesced? || th.pc.Forking? || th.pc.Resuming?)
  }

  ghost function ActiveSet(s: State): set<Tid> {
    set t | t in s.threads && Counted(s.threads[t])
  }

  ghost function ForkSet(s: State): set<Tid> {
    set t | t in s.threads && Forks(s.threads[t])
  }

  ghost predicate CountsAreTrue(s: State) {
    s.active == |ActiveSet(s)| && s.pending == |ForkSet(s)|
  }

  ghost predicate Inv(s: State) {
    && CountsAreTrue(s)
    && (forall t :: t in s.threads && s.threads[t].pc !in {Run, Forking, InMutex} ==> s.threads[t].depth == 0)
    && (forall t :: t in s.threads ==> (s.mutex == HeldBy(t) <==> s.threads[t].pc in {Forking, InMutex}))
    && (forall t, u :: t in s.threads && u in s.threads && PastPrepare(s.threads[t]) ==> s.threads[u].depth == 0)
  }

  // One thread changes: the true counts move by what it was and what it is.
  lemma OneThread(s: State, s': State, t: Tid)
    requires t in s.threads && t in s'.threads && s'.threads == s.threads[t := s'.threads[t]]
    ensures |ActiveSet(s')| == |ActiveSet(s)| - Ind(Counted(s.threads[t])) + Ind(Counted(s'.threads[t]))
    ensures |ForkSet(s')| == |ForkSet(s)| - Ind(Forks(s.threads[t])) + Ind(Forks(s'.threads[t]))
  {
    Resize(ActiveSet(s), ActiveSet(s'), t);
    Resize(ForkSet(s), ForkSet(s'), t);
  }

  lemma CountsStep(s: State, t: Tid, act: Action)
    requires Inv(s) && CanStep(s, t, act)
    ensures CountsAreTrue(Step(s, t, act))
  {
    OneThread(s, Step(s, t, act), t);
  }

  lemma InvStep(s: State, t: Tid, act: Action)
    requires Inv(s) && CanStep(s, t, act)
    ensures Inv(Step(s, t, act))
  {
    CountsStep(s, t, act);
    var s' := Step(s, t, act);
    forall u, w | u in s'.threads && w in s'.threads && PastPrepare(s'.threads[u]) ensures s'.threads[w].depth == 0 {
      if act.LookForFork? && w == t {
        if PastPrepare(s.threads[u]) { assert u in ForkSet(s); }
      } else if act.PollPasses? && u == t && w != t {
        if s.active == 0 { assert w !in ActiveSet(s); }
      }
    }
  }

  // ---- runs ----------------------------------------------------------------------------------

  ghost predicate Follows(s: State, s': State) {
    exists t, act :: CanStep(s, t, act) && s' == Step(s, t, act)
  }

  ghost predicate IsRun(tr: seq<State>) {
    |tr| > 0 && Init(tr[0]) && forall i :: 0 <= i < |tr| - 1 ==> Follows(tr[i], tr[i + 1])
  }

  lemma {:induction false} InvAlways(tr: seq<State>, i: nat)
    requires IsRun(tr) && i < |tr|
    ensures Inv(tr[i])
  {
    if i == 0 {
      assert ActiveSet(tr[0]) == {} && ForkSet(tr[0]) == {};
    } else {
      InvAlways(tr, i - 1);
      assert Follows(tr[i - 1], tr[i]);
      var t, act :| CanStep(tr[i - 1], t, act) && tr[i] == Step(tr[i - 1], t, act);
      InvStep(tr[i - 1], t, act);
    }
  }

  /** From the end of its prepare handler to its parent handler, a fork made outside a pass
      finds no thread inside any pass, and no other thread in the liveness mutex. */
  lemma NoPassDuringFork(tr: seq<State>, i: nat, t: Tid)
    requires IsRun(tr) && i < |tr| && t in tr[i].threads && PastPrepare(tr[i].threads[t])
    ensures forall u :: u in tr[i].threads ==> tr[i].threads[u].depth == 0
    ensures tr[i].threads[t].pc.Forking? ==> forall u :: u in tr[i].threads && u != t ==> !tr[i].threads[u].pc.InMutex?
  {
    InvAlways(tr, i);
  }

  /** A thread that waits for a fork is in no count, so it holds no fork up. */
  lemma WaitingIsNotCounted(tr: seq<State>, i: nat, t: Tid)
    requires IsRun(tr) && i < |tr| && t in tr[i].threads && tr[i].threads[t].pc.Waiting?
    ensures tr[i].active == |ActiveSet(tr[i]) - {t}|
  {
    InvAlways(tr, i);
    assert ActiveSet(tr[i]) - {t} == ActiveSet(tr[i]);
  }

  /** An announced pass goes ahead exactly when no fork from outside a pass is under way. */
  lemma EntersExactly(tr: seq<State>, i: nat, t: Tid)
    requires IsRun(tr) && i < |tr| && CanStep(tr[i], t, LookForFork)
    ensures Step(tr[i], t, LookForFork).threads[t].depth > 0 <==> forall u :: u in tr[i].threads ==> !Forks(tr[i].threads[u])
  {
    InvAlways(tr, i);
    NoneCounted(ForkSet(tr[i]));
    assert forall u :: u in ForkSet(tr[i]) <==> u in tr[i].threads && Forks(tr[i].threads[u]);
  }

  /** A fork's prepare handler goes on exactly when nobody is inside a pass or announced. */
  lemma QuiescesExactly(tr: seq<State>, i: nat, t: Tid)
    requires IsRun(tr) && i < |tr| && CanStep(tr[i], t, PollPasses)
    ensures Step(tr[i], t, PollPasses).threads[t].pc.Quiesced? <==> forall u :: u in tr[i].threads ==> !Counted(tr[i].threads[u])
  {
    InvAlways(tr, i);
    NoneCounted(ActiveSet(tr[i]));
    assert forall u :: u in ActiveSet(tr[i]) <==> u in tr[i].threads && Counted(tr[i].threads[u]);
  }

  lemma NoneCounted(s: set<Tid>)
    ensures |s| == 0 <==> forall u :: u !in s
  {
    if |s| > 0 { var u :| u in s; }
  }

  /** The counters the child handler stores are the true counts of the one-thread child,
      from inside a pass or outside, whatever state the fork copies: the child meets the
      gate's invariant and its own passes and forks start from a correct gate. */
  lemma ChildStartsCorrect(s: State, t: Tid)
    requires t in s.threads && s.threads[t].pc.Forking?
    ensures Inv(Child(s, t)) && Child(s, t).mutex == Free && Child(s, t).epoch == s.epoch + 1
  {
    var c := Child(s, t);
    assert ActiveSet(c) == if c.threads[t].depth != 0 then {t} else {};
    assert ForkSet(c) == {};
  }

  lemma Extend(tr: seq<State>, t: Tid, act: Action) returns (tr': seq<State>)
    requires IsRun(tr) && CanStep(tr[|tr| - 1], t, act)
    ensures IsRun(tr') && tr'[|tr'| - 1] == Step(tr[|tr| - 1], t, act)
  {
    var s := tr[|tr| - 1];
    tr' := tr + [Step(s, t, act)];
    assert Follows(s, Step(s, t, act));
    forall i | 0 <= i < |tr'| - 1 ensures Follows(tr'[i], tr'[i + 1]) {
      if i < |tr| - 1 { assert Follows(tr[i], tr[i + 1]); }
    }
  }

  /** The counters it inherits can be wrong: in this run a thread announces itself while
      another forks, so it is in the copied count and not in the child. */
  lemma InheritedCountIsWrong() returns (tr: seq<State>)
    ensures IsRun(tr)
    ensures var s := tr[|tr| - 1];
            && 0 in s.threads && s.threads[0] == Thread(0, Forking)
            && s.active == 1 && |ActiveSet(Child(s, 0))| == 0
  {
    tr := [State(map[0 := Thread(0, Run), 1 := Thread(0, Run)], 0, 0, Free, 0)];
    tr := Extend(tr, 0, BeginFork);
    tr := Extend(tr, 0, PollPasses);
    tr := Extend(tr, 0, TakeMutex);
    tr := Extend(tr, 1, Announce);
    assert ActiveSet(Child(tr[|tr| - 1], 0)) == {};
  }
}
