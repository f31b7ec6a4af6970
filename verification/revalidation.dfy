/** The write lock when live holders may be usurped: every shared-memory access of
    acquire, revalidate, release and recovery is its own step, in any interleaving.

    What excludes a usurped holder is not the lock byte but its generation, which is
    current for at most one acquisition until the 16-bit register has gone all the way
    round, and the owner PID, which only the holder itself ever sets to its own -- once,
    and possibly after the lock was recovered from it. */
module Revalidation {
  import opened TokenLock

  datatype WPc =
    | Locking(pc: Pc)                                                    // acquiring or recovering
    | Published(value: nat, generation: nat)                             // holder, PID stored
    | GenLoaded(value: nat, generation: nat, ok: bool, release: bool)    // revalidate: first load
    | ByteLoaded(value: nat, generation: nat, ok: bool, release: bool)   // revalidate: second load
    | Revalidated(value: nat, generation: nat)                           // revalidate returned true
    | Releasing(value: nat, generation: nat)                             // release: revalidated
    | OwnerCleared(value: nat, generation: nat)
    | RecoveryCleared                                                    // recovery: owner PID cleared

  datatype State = State(mem: Shared, owner: nat, procs: map<Pid, WPc>)

  datatype Action =
    | Try(access: Access)
    | Retry
    | Publish
    | LoadGen(release: bool)
    | LoadByte
    | LoadOwner
    | Use
    | ClearOwner
    | FreeByte
    | ReadHolderGen
    | CheckGen
    | ClaimByte
    | Retire
    | RecoverOwner
    | RecoverFree

  predicate CanStep(s: State, p: Pid, act: Action) {
    && p in s.procs
    && var w := s.procs[p];
      match act
      case Try(a) => w.Locking? && Enabled(w.pc, a)
      case Retry => w.Locking? && (w.pc.Blocked? || w.pc.Watching? || w.pc.Lost?)
      case Publish => w.Locking? && w.pc.Holding?
      case LoadGen(_) => w.Published?
      case LoadByte => w.GenLoaded?
      case LoadOwner => w.ByteLoaded?
      case Use => w.Revalidated?
      case ClearOwner => w.Releasing?
      case FreeByte => w.OwnerCleared?
      case ReadHolderGen => w.Locking? && w.pc.Blocked?
      case CheckGen => w.Locking? && w.pc.Watching?
      case ClaimByte => w.Locking? && w.pc.GenChecked?
      case Retire => w.Locking? && w.pc.RecoveryClaimed?
      case RecoverOwner => w.Locking? && w.pc.RecoveryBumped?
      case RecoverFree => w.RecoveryCleared?
  }

  function With(s: State, p: Pid, m: Shared, owner: nat, w: WPc): State {
    State(m, owner, s.procs[p := w])
  }

  function Step(s: State, p: Pid, act: Action): (s': State)
    requires CanStep(s, p, act)
  {
    var m, o, w := s.mem, s.owner, s.procs[p];
    match act
    case Try(a) => var r := Attempt(m, w.pc, a); With(s, p, r.0, o, Locking(r.1))
    case Retry => With(s, p, m, o, Locking(Idle))
    case Publish => With(s, p, m, p, Published(w.pc.value, w.pc.generation))
    case LoadGen(release) =>
      With(s, p, m, o, GenLoaded(w.value, w.generation, Register(m.gen) == Register(w.generation), release))
    case LoadByte =>
      With(s, p, m, o, ByteLoaded(w.value, w.generation, w.ok && m.lock == w.value, w.release))
    case LoadOwner =>
      With(s, p, m, o,
           if w.ok && o == p then (if w.release then Releasing(w.value, w.generation) else Revalidated(w.value, w.generation))
           else if w.release then Locking(Idle) else Published(w.value, w.generation))
    case Use => With(s, p, m, o, Published(w.value, w.generation))
    case ClearOwner => With(s, p, m, if o == p then 0 else o, OwnerCleared(w.value, w.generation))
    case FreeByte => With(s, p, if m.lock == w.value then m.(lock := 0) else m, o, Locking(Idle))
    case ReadHolderGen => With(s, p, m, o, Locking(Watching(w.pc.observed, m.gen)))
    case CheckGen =>
      With(s, p, m, o,
           Locking(if Register(m.gen) == Register(w.pc.holderGen) then GenChecked(w.pc.observed, w.pc.holderGen) else Idle))
    case ClaimByte =>
      if m.lock == w.pc.stuck then With(s, p, m.(lock := RecoveryClaim(w.pc.stuck)), o, Locking(RecoveryClaimed))
      else With(s, p, m, o, Locking(Idle))
    case Retire => With(s, p, m.(gen := m.gen + 1), o, Locking(RecoveryBumped))
    case RecoverOwner => With(s, p, m, 0, RecoveryCleared)
    case RecoverFree => With(s, p, m.(lock := 0), o, Locking(Idle))
  }

  predicate Init(s: State) {
    s.mem.lock == 0 && s.owner == 0 && forall p :: p in s.procs ==> s.procs[p] == Locking(Idle)
  }

  // ---- generations -----------------------------------------------------------------------

  /** Whether this process has claimed a generation it has not given up. */
  predicate HasGeneration(w: WPc) {
    if w.Locking? then w.pc.Claimed? || w.pc.Holding? else !w.RecoveryCleared?
  }

  function Generation(w: WPc): nat
    requires HasGeneration(w)
  {
    if w.Locking? then (if w.pc.Claimed? then w.pc.claimed else w.pc.generation) else w.generation
  }

  function Bumps(s: State, p: Pid): int
    requires p in s.procs && HasGeneration(s.procs[p])
  {
    s.mem.gen - Generation(s.procs[p])
  }

  ghost predicate Inv(s: State) {
    && (forall p :: p in s.procs && HasGeneration(s.procs[p]) ==> Bumps(s, p) >= 0)
    && (forall p, q :: p in s.procs && q in s.procs && p != q && HasGeneration(s.procs[p]) && HasGeneration(s.procs[q])
          ==> Generation(s.procs[p]) != Generation(s.procs[q]))
  }

  // Every step of p leaves the generations of the others alone, and gives p only one
  // it already had or one nobody had.
  lemma OneStep(s: State, p: Pid, act: Action)
    requires CanStep(s, p, act)
    ensures var s' := Step(s, p, act);
            && s'.procs.Keys == s.procs.Keys
            && (forall q :: q in s.procs && q != p ==> s'.procs[q] == s.procs[q])
            && s.mem.gen <= s'.mem.gen
            && (HasGeneration(s'.procs[p]) ==>
                  if HasGeneration(s.procs[p]) then Generation(s'.procs[p]) == Generation(s.procs[p])
                  else Generation(s'.procs[p]) == s'.mem.gen == s.mem.gen + 1)
  {}

  lemma InvStep(s: State, p: Pid, act: Action)
    requires Inv(s) && CanStep(s, p, act)
    ensures Inv(Step(s, p, act))
  {
    OneStep(s, p, act);
    var s' := Step(s, p, act);
    forall q | q in s'.procs && HasGeneration(s'.procs[q]) ensures Bumps(s', q) >= 0 {
      assert q in s.procs;
      if HasGeneration(s.procs[q]) { assert Bumps(s, q) >= 0; }
    }
    forall q | q in s'.procs && q != p && HasGeneration(s'.procs[p]) && HasGeneration(s'.procs[q])
      ensures Generation(s'.procs[q]) != Generation(s'.procs[p])
    {
      assert Bumps(s, q) >= 0;
    }
  }

  // ---- runs ---------------------------------------------------------------------------------

  ghost predicate Follows(s: State, s': State) {
    exists p, act :: CanStep(s, p, act) && s' == Step(s, p, act)
  }

  // A predicate of its own, so that a proof unfolds only the steps it names.
  ghost predicate Linked(tr: seq<State>, i: int) {
    0 <= i < |tr| - 1 && Follows(tr[i], tr[i + 1])
  }

  ghost predicate IsRun(tr: seq<State>) {
    |tr| > 0 && Init(tr[0]) && forall i :: 0 <= i < |tr| - 1 ==> Linked(tr, i)
  }

  lemma {:induction false} InvAlways(tr: seq<State>, i: nat)
    requires IsRun(tr) && i < |tr|
    ensures Inv(tr[i])
  {
    if i > 0 {
      InvAlways(tr, i - 1);
      assert Linked(tr, i - 1);
      var p, act :| CanStep(tr[i - 1], p, act) && tr[i] == Step(tr[i - 1], p, act);
      InvStep(tr[i - 1], p, act);
    }
  }

  /** The generation check tells how often the generation was bumped since the claim,
      modulo the 65536 values of the register. */
  lemma GenerationCheck(s: State, p: Pid)
    requires Inv(s) && p in s.procs && HasGeneration(s.procs[p])
    ensures Register(s.mem.gen) == Register(Generation(s.procs[p])) <==> Bumps(s, p) % GENERATIONS == 0
  {
    var g, b := Generation(s.procs[p]), Bumps(s, p);
    assert s.mem.gen == g + b;
    ModSum(g, b);
  }

  lemma ModSum(g: nat, b: nat)
    ensures (g + b) % GENERATIONS == g % GENERATIONS <==> b % GENERATIONS == 0
  {
    var k := b / GENERATIONS;
    assert b == k * GENERATIONS + b % GENERATIONS;
  }

  /** p has the generation it had at state b, and has not given it up since. */
  ghost predicate Keeps(tr: seq<State>, b: nat, k: nat, p: Pid)
    requires k < |tr|
  {
    forall i :: b <= i <= k ==> p in tr[i].procs && HasGeneration(tr[i].procs[p])
  }

  lemma KeptFollows(s: State, s': State, p: Pid)
    requires Follows(s, s') && p in s.procs && HasGeneration(s.procs[p]) && p in s'.procs && HasGeneration(s'.procs[p])
    ensures Generation(s'.procs[p]) == Generation(s.procs[p]) && s'.mem.gen >= s.mem.gen
  {
    var q, act :| CanStep(s, q, act) && s' == Step(s, q, act);
    OneStep(s, q, act);
  }

  /** A generation that is not given up stays the same, and the bumps since its claim only grow. */
  lemma {:induction false} BumpsGrow(tr: seq<State>, b: nat, k: nat, p: Pid)
    requires IsRun(tr) && b <= k < |tr| && Keeps(tr, b, k, p)
    ensures Generation(tr[k].procs[p]) == Generation(tr[b].procs[p]) && Bumps(tr[k], p) >= Bumps(tr[b], p)
    decreases k
  {
    if b < k {
      BumpsGrow(tr, b, k - 1, p);
      assert HasGeneration(tr[k - 1].procs[p]) && HasGeneration(tr[k].procs[p]);
      assert Linked(tr, k - 1);
      KeptFollows(tr[k - 1], tr[k], p);
    }
  }

  // ---- the owner PID ----------------------------------------------------------------------------

  /** From the publication of the PID on, until a release has revalidated or given up. */
  predicate Holds(s: State, p: Pid) {
    && p in s.procs
    && var w := s.procs[p]; w.Published? || w.GenLoaded? || w.ByteLoaded? || w.Revalidated?
  }

  /** p's PID was cleared or replaced under it. */
  predicate Barred(s: State, p: Pid) {
    Holds(s, p) && s.owner != p
  }

  /** The two accesses that store another value in the owner word of a holder. */
  predicate Overwrites(act: Action) {
    act.Publish? || act.RecoverOwner?
  }

  /** A recovery's clearing of the owner, or another's store of its PID, bars every other
      process that has stored its own, wherever its revalidation is. */
  lemma RecoveryBars(s: State, p: Pid, r: Pid, act: Action)
    requires Holds(s, p) && p != r && Overwrites(act) && CanStep(s, r, act)
    ensures Barred(Step(s, r, act), p)
  {}

  /** Nobody but p lifts the bar, and p only by giving the lock up; until then no step of p,
      its release included, touches the lock byte, the generation or the owner. */
  lemma BarredStep(s: State, p: Pid, q: Pid, act: Action)
    requires Barred(s, p) && CanStep(s, q, act)
    ensures var s' := Step(s, q, act);
            && (Barred(s', p) || (q == p && s'.procs[p] == Locking(Idle)))
            && (s'.procs[p].Revalidated? ==> s.procs[p].Revalidated?)
            && (q == p ==> s'.mem == s.mem && s'.owner == s.owner)
  {}

  lemma BarredFollows(s: State, s': State, p: Pid)
    requires Barred(s, p) && Follows(s, s')
    ensures p in s'.procs && (Barred(s', p) || s'.procs[p] == Locking(Idle))
    ensures s'.procs[p].Revalidated? ==> s.procs[p].Revalidated?
  {
    var q, act :| CanStep(s, q, act) && s' == Step(s, q, act);
    BarredStep(s, p, q, act);
  }

  /** p's revalidation, or that of its release, succeeds at this very step. */
  predicate Passes(s: State, p: Pid) {
    p in s.procs && s.procs[p].ByteLoaded? && s.procs[p].ok && s.owner == p
  }

  lemma PassesIsPassing(s: State, p: Pid)
    requires CanStep(s, p, LoadOwner)
    ensures var w := Step(s, p, LoadOwner).procs[p];
            Passes(s, p) <==> w.Revalidated? || w.Releasing?
  {}

  /** A holder recovered after it stored its PID never passes again and its release is a no-op,
      along every run, however often the generation wraps and wherever its revalidation was. */
  lemma {:induction false} RecoveredNeverRevalidates(tr: seq<State>, o: nat, k: nat, p: Pid, r: Pid)
    requires IsRun(tr) && o < k < |tr|
    requires Holds(tr[o], p) && p != r
    requires CanStep(tr[o], r, RecoverOwner) && tr[o + 1] == Step(tr[o], r, RecoverOwner)
    requires Keeps(tr, o, k - 1, p)
    ensures p in tr[k].procs && (Barred(tr[k], p) || tr[k].procs[p] == Locking(Idle)) && !Passes(tr[k], p)
    ensures tr[k].procs[p].Revalidated? ==> p in tr[k - 1].procs && tr[k - 1].procs[p].Revalidated?
    decreases k
  {
    if k == o + 1 {
      RecoveryBars(tr[o], p, r, RecoverOwner);
    } else {
      RecoveredNeverRevalidates(tr, o, k - 1, p, r);
      assert HasGeneration(tr[k - 1].procs[p]);
      assert Linked(tr, k - 1);
      BarredFollows(tr[k - 1], tr[k], p);
    }
  }

  lemma LostStays(s: State, s': State, p: Pid)
    requires Follows(s, s') && Holds(s, p) && s.owner != p && Holds(s', p)
    ensures s'.owner != p
  {
    var q, act :| CanStep(s, q, act) && s' == Step(s, q, act);
  }

  /** A holder that finds its PID in place had it in place all along. */
  lemma {:induction false} OwnerThroughout(tr: seq<State>, i: nat, k: nat, p: Pid)
    requires IsRun(tr) && i <= k < |tr| && tr[k].owner == p
    requires forall j :: i <= j <= k ==> Holds(tr[j], p)
    ensures forall j :: i <= j <= k ==> tr[j].owner == p
    decreases k
  {
    if i < k {
      assert Linked(tr, k - 1) && Holds(tr[k - 1], p) && Holds(tr[k], p);
      if tr[k - 1].owner != p { LostStays(tr[k - 1], tr[k], p); }
      OwnerThroughout(tr, i, k - 1, p);
    }
  }

  /** At most one passes: the holds of two processes that pass a revalidation, each from the
      publication of its PID to the moment it passes, never overlap -- in any run, with live
      holders usurped at any instruction. */
  lemma PassesExclude(tr: seq<State>, i: nat, k: nat, p: Pid, i': nat, k': nat, q: Pid)
    requires IsRun(tr) && i <= k < |tr| && i' <= k' < |tr| && p != q
    requires Passes(tr[k], p) && (forall j :: i <= j <= k ==> Holds(tr[j], p))
    requires Passes(tr[k'], q) && (forall j :: i' <= j <= k' ==> Holds(tr[j], q))
    ensures k < i' || k' < i
  {
    OwnerThroughout(tr, i, k, p);
    OwnerThroughout(tr, i', k', q);
    var j := if i < i' then i' else i;
    assert j <= k ==> tr[j].owner == p;
    assert j <= k' ==> tr[j].owner == q;
  }

  // ---- the generation load of a revalidation that passes ---------------------------------------

  /** A revalidation whose checks so far, the generation's among them, succeeded. */
  predicate GoingWell(w: WPc) {
    ((w.GenLoaded? || w.ByteLoaded?) && w.ok) || w.Revalidated? || w.Releasing? || w.OwnerCleared?
  }

  lemma GoingWellSince(s: State, s': State, p: Pid)
    requires Follows(s, s') && p in s'.procs && GoingWell(s'.procs[p])
    ensures p in s.procs && (GoingWell(s.procs[p]) || (s.procs[p].Published? && Register(s.mem.gen) == Register(s.procs[p].generation)))
    ensures s.procs[p].generation == s'.procs[p].generation
  {
    var q, act :| CanStep(s, q, act) && s' == Step(s, q, act);
    OneStep(s, q, act);
  }

  lemma {:induction false} GenerationLoad(tr: seq<State>, k: nat, p: Pid) returns (j: nat)
    requires IsRun(tr) && k < |tr| && p in tr[k].procs && GoingWell(tr[k].procs[p])
    ensures j < k && p in tr[j].procs && tr[j].procs[p].Published? && tr[j].procs[p].generation == tr[k].procs[p].generation
    ensures Register(tr[j].mem.gen) == Register(tr[k].procs[p].generation)
    ensures forall m :: j < m <= k ==> p in tr[m].procs && GoingWell(tr[m].procs[p])
    decreases k
  {
    assert k > 0;
    assert Linked(tr, k - 1);
    GoingWellSince(tr[k - 1], tr[k], p);
    if GoingWell(tr[k - 1].procs[p]) {
      j := GenerationLoad(tr, k - 1, p);
    } else {
      j := k - 1;
    }
  }

  /** A process in a revalidation that goes well or has passed loaded its generation at an instant when, short of a
      full turn of the register in its hold, that generation was the current one and no other
      process's was. */
  lemma PassedWhenCurrent(tr: seq<State>, k: nat, p: Pid) returns (j: nat)
    requires IsRun(tr) && k < |tr| && p in tr[k].procs && GoingWell(tr[k].procs[p])
    ensures j < k && p in tr[j].procs && tr[j].procs[p].Published? && tr[j].procs[p].generation == tr[k].procs[p].generation
    ensures Bumps(tr[j], p) % GENERATIONS == 0
    ensures Bumps(tr[j], p) < GENERATIONS ==>
      Bumps(tr[j], p) == 0 && forall q :: q in tr[j].procs && q != p && HasGeneration(tr[j].procs[q]) ==> Bumps(tr[j], q) > 0
    ensures forall m :: j < m <= k ==> p in tr[m].procs && GoingWell(tr[m].procs[p])
  {
    j := GenerationLoad(tr, k, p);
    InvAlways(tr, j);
    GenerationCheck(tr[j], p);
    forall q | q in tr[j].procs && q != p && HasGeneration(tr[j].procs[q])
      ensures Bumps(tr[j], p) == 0 ==> Bumps(tr[j], q) > 0
    {
      assert Bumps(tr[j], q) >= 0;
    }
  }

  // ---- a holder whose generation was retired -----------------------------------------------------

  /** p holds generation g, but a revalidation it begins now, or has begun with the
      generation load behind it, fails.  It may have stored its PID or not. */
  predicate Doomed(s: State, p: Pid, g: nat) {
    && p in s.procs
    && s.mem.gen > g
    && HasGeneration(s.procs[p]) && Generation(s.procs[p]) == g
    && !GoingWell(s.procs[p])
  }

  /** A recovery's bump dooms every process that has claimed a generation, if and only if it is
      not inside a revalidation that has already found its generation current. */
  lemma RetireDooms(s: State, p: Pid, r: Pid)
    requires Inv(s) && p != r && p in s.procs && HasGeneration(s.procs[p])
    requires CanStep(s, r, Retire)
    ensures Doomed(Step(s, r, Retire), p, Generation(s.procs[p])) <==> !GoingWell(s.procs[p])
  {
    assert Bumps(s, p) >= 0;
  }

  /** A doomed holder stays doomed at a step unless it gives the lock up, or loads the generation
      while the register shows its own again.  It moves no generation, and once it has stored
      its PID none of its steps touches byte or owner. */
  lemma DoomedStep(s: State, p: Pid, g: nat, q: Pid, act: Action)
    requires Doomed(s, p, g) && CanStep(s, q, act)
    ensures var s' := Step(s, q, act);
            && (!Doomed(s', p, g) <==>
                  q == p && (!HasGeneration(s'.procs[p]) || (act.LoadGen? && (s.mem.gen - g) % GENERATIONS == 0)))
            && (q == p ==> s'.mem.gen == s.mem.gen)
            && (q == p && !s.procs[p].Locking? ==> s'.mem == s.mem && s'.owner == s.owner)
  {
    OneStep(s, q, act);
    ModSum(g, s.mem.gen - g);
  }

  /** From s to s', p loads the generation while the register shows g. */
  predicate LoadsAliased(s: State, s': State, p: Pid, g: nat) {
    && p in s.procs && s.procs[p].Published? && p in s'.procs && s'.procs[p].GenLoaded?
    && (s.mem.gen - g) % GENERATIONS == 0
  }

  lemma DoomedFollows(s: State, s': State, p: Pid, g: nat)
    requires Doomed(s, p, g) && Follows(s, s') && !LoadsAliased(s, s', p, g)
    ensures p in s'.procs && (Doomed(s', p, g) || !HasGeneration(s'.procs[p]))
  {
    var q, act :| CanStep(s, q, act) && s' == Step(s, q, act);
    DoomedStep(s, p, g, q, act);
  }

  /** Once a holder's generation is retired it stays unable to pass until it gives the lock up,
      as long as no generation load of its own finds the register showing its generation. */
  lemma {:induction false} RetiredNeverRevalidates(tr: seq<State>, i: nat, k: nat, p: Pid, g: nat)
    requires IsRun(tr) && i <= k < |tr|
    requires Doomed(tr[i], p, g)
    requires forall j :: i <= j < k ==> p in tr[j].procs && HasGeneration(tr[j].procs[p]) && !LoadsAliased(tr[j], tr[j + 1], p, g)
    ensures p in tr[k].procs && (Doomed(tr[k], p, g) || !HasGeneration(tr[k].procs[p])) && !Passes(tr[k], p)
    decreases k
  {
    if i < k {
      RetiredNeverRevalidates(tr, i, k - 1, p, g);
      assert Linked(tr, k - 1);
      DoomedFollows(tr[k - 1], tr[k], p, g);
    }
  }

  // ---- every recovered holder -----------------------------------------------------------------------

  /** The release of p is past its revalidation. */
  predicate Leaves(w: WPc) { w.Releasing? || w.OwnerCleared? }

  lemma {:induction false} LeavesOn(tr: seq<State>, o: nat, k: nat, p: Pid)
    requires IsRun(tr) && o <= k < |tr| && Keeps(tr, o, k, p) && Leaves(tr[o].procs[p])
    ensures Leaves(tr[k].procs[p])
    decreases k
  {
    if o < k {
      LeavesOn(tr, o, k - 1, p);
      assert Linked(tr, k - 1);
    }
  }

  lemma PublishStep(s: State, s': State, p: Pid)
    requires Follows(s, s') && p in s.procs && s.procs[p].Locking? && HasGeneration(s.procs[p])
    requires p in s'.procs && !s'.procs[p].Locking?
    ensures CanStep(s, p, Publish) && s' == Step(s, p, Publish)
  {}

  /** The step at which p stored its PID. */
  lemma {:induction false} PublishInstant(tr: seq<State>, o: nat, k: nat, p: Pid) returns (m: nat)
    requires IsRun(tr) && o <= k < |tr| && Keeps(tr, o, k, p)
    requires tr[o].procs[p].Locking? && !tr[k].procs[p].Locking?
    ensures o <= m < k && CanStep(tr[m], p, Publish) && tr[m + 1] == Step(tr[m], p, Publish)
    ensures forall i :: o <= i <= m ==> p in tr[i].procs && tr[i].procs[p].Locking?
    decreases k - o
  {
    assert p in tr[o + 1].procs && HasGeneration(tr[o + 1].procs[p]);
    if tr[o + 1].procs[p].Locking? {
      m := PublishInstant(tr, o + 1, k, p);
    } else {
      assert Linked(tr, o);
      PublishStep(tr[o], tr[o + 1], p);
      m := o;
    }
  }

  /** A process recovered by r after it claimed its generation -- bump at b, clearing of the owner
      at o -- passes a revalidation before giving the lock up only if it stored its PID after the
      recovery had cleared the owner, and loaded the generation after the register had gone all
      the way round since its claim. */
  lemma RecoveredPasses(tr: seq<State>, b: nat, o: nat, k: nat, p: Pid, r: Pid) returns (m: nat, j: nat)
    requires IsRun(tr) && b < o < k < |tr| && p != r && Keeps(tr, b, k, p)
    requires CanStep(tr[b], r, Retire) && tr[b + 1] == Step(tr[b], r, Retire)
    requires CanStep(tr[o], r, RecoverOwner) && tr[o + 1] == Step(tr[o], r, RecoverOwner)
    requires Passes(tr[k], p)
    ensures o < m < j < k && CanStep(tr[m], p, Publish) && tr[m + 1] == Step(tr[m], p, Publish)
    ensures tr[j].procs[p].Published? && Bumps(tr[j], p) >= GENERATIONS && Bumps(tr[j], p) % GENERATIONS == 0
  {
    UnpublishedAt(tr, o, k, p, r);
    m := PublishInstant(tr, o, k, p);
    j := PassedWhenCurrent(tr, k, p);
    assert !GoingWell(tr[o].procs[p]);
    RetiredBumps(tr, b, j, p, r);
  }

  lemma RetiredBumps(tr: seq<State>, b: nat, j: nat, p: Pid, r: Pid)
    requires IsRun(tr) && b < j < |tr| && p != r && Keeps(tr, b, j, p)
    requires CanStep(tr[b], r, Retire) && tr[b + 1] == Step(tr[b], r, Retire)
    ensures Bumps(tr[j], p) > 0
  {
    InvAlways(tr, b);
    assert Bumps(tr[b], p) >= 0;
    BumpsGrow(tr, b + 1, j, p);
  }

  lemma UnpublishedAt(tr: seq<State>, o: nat, k: nat, p: Pid, r: Pid)
    requires IsRun(tr) && o < k < |tr| && p != r && Keeps(tr, o, k, p)
    requires CanStep(tr[o], r, RecoverOwner) && tr[o + 1] == Step(tr[o], r, RecoverOwner)
    requires Passes(tr[k], p)
    ensures tr[o].procs[p].Locking?
  {
    assert HasGeneration(tr[o].procs[p]);
    if Holds(tr[o], p) {
      RecoveredNeverRevalidates(tr, o, k, p, r);
    } else if Leaves(tr[o].procs[p]) {
      LeavesOn(tr, o, k, p);
    }
  }

  // ---- exactly when a revalidation passes ----------------------------------------------------------------

  /** Another process overwrites the owner from s to s'. */
  ghost predicate Overwritten(s: State, s': State, p: Pid) {
    exists q, act :: q != p && Overwrites(act) && CanStep(s, q, act) && s' == Step(s, q, act)
  }

  lemma OverwrittenStep(s: State, s': State, p: Pid)
    requires Follows(s, s') && Holds(s, p) && Holds(s', p)
    ensures s'.owner == p <==> s.owner == p && !Overwritten(s, s', p)
  {
    var q, act :| CanStep(s, q, act) && s' == Step(s, q, act);
    if q != p && Overwrites(act) { assert Overwritten(s, s', p); }
  }

  lemma {:induction false} StandsUntouched(tr: seq<State>, a: nat, k: nat, p: Pid)
    requires IsRun(tr) && a <= k < |tr| && tr[a].owner == p
    requires forall i :: a <= i <= k ==> Holds(tr[i], p)
    requires forall i :: a <= i < k ==> !Overwritten(tr[i], tr[i + 1], p)
    ensures tr[k].owner == p
    decreases k
  {
    if a < k {
      StandsUntouched(tr, a, k - 1, p);
      assert Holds(tr[k - 1], p) && Holds(tr[k], p);
      assert Linked(tr, k - 1);
      OverwrittenStep(tr[k - 1], tr[k], p);
    }
  }

  /** A holder's PID is in place if and only if nobody else stored in the owner word since it
      stored its own. */
  lemma OwnerStands(tr: seq<State>, m: nat, k: nat, p: Pid)
    requires IsRun(tr) && m < k < |tr| && CanStep(tr[m], p, Publish) && tr[m + 1] == Step(tr[m], p, Publish)
    requires forall i :: m < i <= k ==> Holds(tr[i], p)
    ensures tr[k].owner == p <==> forall i :: m < i < k ==> !Overwritten(tr[i], tr[i + 1], p)
  {
    if tr[k].owner == p {
      OwnerThroughout(tr, m + 1, k, p);
      forall i | m < i < k ensures !Overwritten(tr[i], tr[i + 1], p) {
        assert Holds(tr[i], p) && Holds(tr[i + 1], p);
        assert Linked(tr, i);
        OverwrittenStep(tr[i], tr[i + 1], p);
      }
    } else if forall i :: m < i < k ==> !Overwritten(tr[i], tr[i + 1], p) {
      StandsUntouched(tr, m + 1, k, p);
    }
  }

  /** p is between two loads of a revalidation all the way from state a to state k. */
  ghost predicate Between(tr: seq<State>, a: nat, k: nat, p: Pid, byteLoaded: bool)
    requires k < |tr|
  {
    forall i :: a <= i <= k ==> p in tr[i].procs && (if byteLoaded then tr[i].procs[p].ByteLoaded? else tr[i].procs[p].GenLoaded?)
  }

  lemma {:induction false} Steady(tr: seq<State>, a: nat, k: nat, p: Pid, byteLoaded: bool)
    requires IsRun(tr) && a <= k < |tr| && Between(tr, a, k, p, byteLoaded)
    ensures p in tr[a].procs && p in tr[k].procs && tr[k].procs[p] == tr[a].procs[p]
    decreases k
  {
    if a < k {
      Steady(tr, a, k - 1, p, byteLoaded);
      assert Linked(tr, k - 1);
      SteadyStep(tr[k - 1], tr[k], p, byteLoaded);
    }
  }

  lemma SteadyStep(s: State, s': State, p: Pid, byteLoaded: bool)
    requires Follows(s, s') && p in s.procs && p in s'.procs
    requires if byteLoaded then s.procs[p].ByteLoaded? && s'.procs[p].ByteLoaded? else s.procs[p].GenLoaded? && s'.procs[p].GenLoaded?
    ensures s'.procs[p] == s.procs[p]
  {}

  /** p loads from s to s'. */
  predicate Loads(s: State, s': State, p: Pid, act: Action) {
    (act.LoadGen? || act.LoadByte?) && CanStep(s, p, act) && s' == Step(s, p, act)
  }

  lemma LoadsSay(s: State, s': State, t: State, t': State, p: Pid, release: bool)
    requires Inv(s) && Loads(s, s', p, LoadGen(release)) && Loads(t, t', p, LoadByte)
    requires t.procs[p] == s'.procs[p]
    ensures var w := t'.procs[p];
            w.ByteLoaded? && (w.ok <==> Bumps(s, p) % GENERATIONS == 0 && t.mem.lock == w.value)
  {
    GenerationCheck(s, p);
  }

  /** A revalidation -- PID stored at m, generation loaded at j, byte at b, owner at k -- passes if
      and only if the bumps since the claim were a multiple of 65536 at j, the byte held the
      holder's value at b, and nobody else stored in the owner word from m to k. */
  lemma PassesExactly(tr: seq<State>, m: nat, j: nat, b: nat, k: nat, p: Pid, release: bool)
    requires IsRun(tr) && m < j < b < k < |tr| && CanStep(tr[m], p, Publish) && tr[m + 1] == Step(tr[m], p, Publish)
    requires forall i :: m < i <= k ==> Holds(tr[i], p)
    requires Loads(tr[j], tr[j + 1], p, LoadGen(release)) && Between(tr, j + 1, b, p, false)
    requires Loads(tr[b], tr[b + 1], p, LoadByte) && Between(tr, b + 1, k, p, true)
    ensures Holds(tr[k], p)
    ensures Passes(tr[k], p) <==>
      && Bumps(tr[j], p) % GENERATIONS == 0
      && tr[b].mem.lock == tr[k].procs[p].value
      && forall i :: m < i < k ==> !Overwritten(tr[i], tr[i + 1], p)
  {
    CheckedLoads(tr, j, b, k, p, release);
    OwnerStands(tr, m, k, p);
  }

  lemma CheckedLoads(tr: seq<State>, j: nat, b: nat, k: nat, p: Pid, release: bool)
    requires IsRun(tr) && j < b < k < |tr|
    requires Loads(tr[j], tr[j + 1], p, LoadGen(release)) && Between(tr, j + 1, b, p, false)
    requires Loads(tr[b], tr[b + 1], p, LoadByte) && Between(tr, b + 1, k, p, true)
    ensures p in tr[k].procs && tr[k].procs[p].ByteLoaded?
    ensures tr[k].procs[p].ok <==> Bumps(tr[j], p) % GENERATIONS == 0 && tr[b].mem.lock == tr[k].procs[p].value
  {
    InvAlways(tr, j);
    Steady(tr, j + 1, b, p, false);
    LoadsSay(tr[j], tr[j + 1], tr[b], tr[b + 1], p, release);
    Steady(tr, b + 1, k, p, true);
  }
}
