/** The token lock when recovery is applied only to dead holders: exclusion in every
    interleaving of acquire, release, crash and recovery steps, with the generation
    register wrapping at 16 bits.

    A recovery checks the generation and claims the byte in two steps, and anything may
    happen between them but one thing: its claim never lands on the byte of a live process. */
module DeadRecovery {
  import opened TokenLock

  // `holder` is a history variable: the process that put the current value in the
  // lock byte, 0 when the byte is free.
  datatype State = State(mem: Shared, procs: map<Pid, Pc>, crashed: set<Pid>, holder: nat)

  datatype Action =
    | Try(access: Access)
    | ReadHolderGen
    | CheckGen
    | ClaimByte
    | Retire
    | Free
    | CheckRelease
    | Release
    | Retry
    | Crash

  predicate Live(s: State, p: Pid) {
    p in s.procs && p !in s.crashed
  }

  function With(s: State, p: Pid, m: Shared, pc: Pc, holder: nat): State {
    s.(mem := m, procs := s.procs[p := pc], holder := holder)
  }

  predicate CanStep(s: State, p: Pid, act: Action) {
    && Live(s, p)
    && var pc := s.procs[p];
      match act
      case Try(a) => Enabled(pc, a)
      case ReadHolderGen => pc.Blocked?
      case CheckGen => pc.Watching?
      // Only a dead holder, or a dead recoverer, is recovered from.
      case ClaimByte => pc.GenChecked? && (s.mem.lock == pc.stuck ==> s.holder in s.crashed)
      case Retire => pc.RecoveryClaimed?
      case Free => pc.RecoveryBumped?
      case CheckRelease => pc.Holding?
      case Release => pc.ReleaseChecked?
      case Retry => pc.Blocked? || pc.Watching? || pc.Lost?
      case Crash => true
  }

  function Step(s: State, p: Pid, act: Action): (s': State)
    requires CanStep(s, p, act)
  {
    var m, pc := s.mem, s.procs[p];
    match act
    case Try(a) =>
      var r := Attempt(m, pc, a);
      With(s, p, r.0, r.1, if r.1.Won? then p else s.holder)
    case ReadHolderGen => With(s, p, m, Watching(pc.observed, m.gen), s.holder)
    case CheckGen =>
      With(s, p, m, if Register(m.gen) == Register(pc.holderGen) then GenChecked(pc.observed, pc.holderGen) else Idle, s.holder)
    case ClaimByte =>
      if m.lock == pc.stuck then With(s, p, m.(lock := RecoveryClaim(pc.stuck)), RecoveryClaimed, p)
      else With(s, p, m, Idle, s.holder)
    case Retire => With(s, p, m.(gen := m.gen + 1), RecoveryBumped, s.holder)
    case Free => With(s, p, m.(lock := 0), Idle, 0)
    case CheckRelease =>
      if Register(m.gen) == Register(pc.generation)
      then With(s, p, m, ReleaseChecked(pc.value, pc.generation), s.holder)
      else With(s, p, m, Idle, s.holder)
    case Release =>
      if m.lock == pc.value then With(s, p, m.(lock := 0), Idle, 0) else With(s, p, m, Idle, s.holder)
    case Retry => With(s, p, m, Idle, s.holder)
    case Crash => s.(crashed := s.crashed + {p})
  }

  predicate Init(s: State) {
    && s.mem.lock == 0 && s.holder == 0 && s.crashed == {}
    && forall p :: p in s.procs ==> s.procs[p] == Idle
  }

  // ---- the invariant -------------------------------------------------------------------

  /** From the winning CAS (or a recovery's claim) to the byte's release. */
  predicate OwnsByte(pc: Pc) {
    pc.Won? || pc.Reread? || pc.Claimed? || pc.Holding? || pc.ReleaseChecked? || pc.RecoveryClaimed? || pc.RecoveryBumped?
  }

  // What the byte and the generation are while `pc` owns the byte.
  predicate Owned(m: Shared, pc: Pc) {
    match pc
    case Won(slot, planned) => slot < SLOTS && m.lock == TokenOf(planned, slot)
    case Reread(slot, planned, after) => slot < SLOTS && m.lock == TokenOf(planned, slot) && after == m.gen
    case Claimed(slot, planned, after, claimed) =>
      slot < SLOTS && m.lock == TokenOf(planned, slot) && claimed == after + 1 == m.gen
    case Holding(value, generation) => m.lock == value && generation == m.gen
    case ReleaseChecked(value, generation) => m.lock == value && generation == m.gen
    case RecoveryClaimed => m.lock == RECOVERING_A || m.lock == RECOVERING_B
    case RecoveryBumped => m.lock == RECOVERING_A || m.lock == RECOVERING_B
    case _ => false
  }

  ghost predicate Inv(s: State) {
    && (s.mem.lock == 0 <==> s.holder == 0)
    && (s.holder != 0 ==> s.holder in s.procs && Owned(s.mem, s.procs[s.holder]))
    && forall p :: Live(s, p) ==>
      && (OwnsByte(s.procs[p]) ==> s.holder == p)
      && !s.procs[p].Lost?
      && (s.procs[p].Blocked? ==> s.procs[p].observed != 0)
      && (s.procs[p].Watching? ==> s.procs[p].observed != 0)
      && (s.procs[p].GenChecked? ==> s.procs[p].stuck != 0)
  }

  lemma InvStep(s: State, p: Pid, act: Action)
    requires Inv(s) && CanStep(s, p, act)
    ensures Inv(Step(s, p, act))
  {
    var s' := Step(s, p, act);
    match act
    case Try(a) => InvTry(s, p, a);
    case _ =>
  }

  lemma InvTry(s: State, p: Pid, a: Access)
    requires Inv(s) && CanStep(s, p, Try(a))
    ensures Inv(Step(s, p, Try(a)))
  {
    var s' := Step(s, p, Try(a));
    if s.procs[p].Claimed? { assert s.holder == p; }
    assert forall q :: q != p && Live(s', q) ==> Live(s, q) && s'.procs[q] == s.procs[q];
  }

  // ---- runs -------------------------------------------------------------------------------

  /** tr[i + 1] follows from tr[i] by a step of some process. */
  ghost predicate IsRun(tr: seq<State>) {
    && |tr| > 0 && Init(tr[0])
    && forall i :: 0 <= i < |tr| - 1 ==> exists p, act :: CanStep(tr[i], p, act) && tr[i + 1] == Step(tr[i], p, act)
  }

  lemma {:induction false} InvAlways(tr: seq<State>, i: nat)
    requires IsRun(tr) && i < |tr|
    ensures Inv(tr[i])
  {
    if i > 0 {
      InvAlways(tr, i - 1);
      var p, act :| CanStep(tr[i - 1], p, act) && tr[i] == Step(tr[i - 1], p, act);
      InvStep(tr[i - 1], p, act);
    }
  }

  /** In every state of every run at most one live process is anywhere between winning
      the byte and freeing it, and no live process that won its CAS was told it lost. */
  lemma AtMostOneHolder(tr: seq<State>, i: nat)
    requires IsRun(tr) && i < |tr|
    ensures forall p, q :: Live(tr[i], p) && Live(tr[i], q) && OwnsByte(tr[i].procs[p]) && OwnsByte(tr[i].procs[q]) ==> p == q
    ensures forall p :: Live(tr[i], p) ==> !tr[i].procs[p].Lost?
  {
    InvAlways(tr, i);
  }

  /** A live holder's release always frees the byte. */
  lemma ReleaseFrees(tr: seq<State>, i: nat, p: Pid)
    requires IsRun(tr) && i < |tr| && Live(tr[i], p) && tr[i].procs[p].Holding?
    ensures var s1 := Step(tr[i], p, CheckRelease);
            && s1.procs[p].ReleaseChecked?
            && Step(s1, p, Release).mem.lock == 0
  {
    InvAlways(tr, i);
    HolderFrees(tr[i], p);
  }

  lemma HolderFrees(s: State, p: Pid)
    requires Inv(s) && Live(s, p) && s.procs[p].Holding?
    ensures var s1 := Step(s, p, CheckRelease);
            && s1.procs[p].ReleaseChecked?
            && Step(s1, p, Release).mem.lock == 0
  {
    assert OwnsByte(s.procs[p]);
  }

  /** A crash never wedges the lock: any live idle process can watch the dead holder and,
      alone, free the byte. */
  lemma CrashIsRecoverable(s: State, p: Pid)
    requires Inv(s) && Live(s, p) && s.procs[p] == Idle
    requires s.holder in s.crashed
    ensures var s0 := Step(s, p, Try(Sample(NO_SLOT)));
            var s1 := Step(s0, p, Try(Cas));
            var s2 := Step(s1, p, ReadHolderGen);
            var s3 := Step(s2, p, CheckGen);
            var s4 := Step(s3, p, ClaimByte);
            var s5 := Step(s4, p, Retire);
            var s6 := Step(s5, p, Free);
            s6.mem.lock == 0 && s6.procs[p] == Idle && s6.mem.gen == s.mem.gen + 1
  {}
}
