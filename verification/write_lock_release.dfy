/** What becomes of the lock byte: exactly when an acquirer is told it lost, when a release
    frees the byte, and which processes can come between. */
module WriteLockRelease {
  import opened TokenLock
  import opened Revalidation

  /** p takes step `act` from s to s'. */
  predicate Takes(s: State, s': State, p: Pid, act: Action) {
    CanStep(s, p, act) && s' == Step(s, p, act)
  }

  // ---- exactly when an acquirer that won its CAS is told it lost -----------------------------

  lemma {:induction false} GenerationGrows(tr: seq<State>, a: nat, c: nat)
    requires IsRun(tr) && a <= c < |tr|
    ensures tr[a].mem.gen <= tr[c].mem.gen
    decreases c
  {
    if a < c {
      GenerationGrows(tr, a, c - 1);
      assert Linked(tr, c - 1);
      var q, act :| CanStep(tr[c - 1], q, act) && tr[c] == Step(tr[c - 1], q, act);
      OneStep(tr[c - 1], q, act);
    }
  }

  /** An acquirer -- generation re-read at a, claimed at c, token fixed up at f -- is told it lost if
      and only if the bumps between its re-read and its claim are no multiple of 65536, or its
      token has to move and the byte has left the provisional one.  Otherwise it holds the lock
      under the token of the generation it claimed. */
  lemma ToldLostExactly(tr: seq<State>, a: nat, c: nat, f: nat, p: Pid, slot: int, planned: nat)
    requires IsRun(tr) && a < c < f < |tr| - 1 && slot < SLOTS
    requires p in tr[a].procs && tr[a].procs[p] == Locking(Won(slot, planned))
    requires Takes(tr[a], tr[a + 1], p, Try(RereadGen)) && p in tr[c].procs && tr[c].procs[p] == tr[a + 1].procs[p]
    requires Takes(tr[c], tr[c + 1], p, Try(ClaimGen)) && p in tr[f].procs && tr[f].procs[p] == tr[c + 1].procs[p]
    requires Takes(tr[f], tr[f + 1], p, Try(FixUp))
    ensures var claimed, held := tr[c].mem.gen + 1, TokenOf(planned, slot);
            tr[f + 1].procs[p] ==
            if (tr[c].mem.gen - tr[a].mem.gen) % GENERATIONS != 0
               || (TokenOf(claimed, slot) != held && tr[f].mem.lock != held)
            then Locking(Lost) else Locking(Holding(TokenOf(claimed, slot), claimed))
  {
    GenerationGrows(tr, a, c);
    ModSum(tr[a].mem.gen + 1, tr[c].mem.gen - tr[a].mem.gen);
  }

  // ---- exactly when a release frees the byte -------------------------------------------------------

  /** A release -- PID stored at m, generation, byte and owner loaded at j, b and k -- goes on to free
      the byte if and only if the bumps since the claim were a multiple of 65536 at j, the byte was
      the holder's at b, and nobody else stored in the owner word; otherwise it gives up and touches
      nothing.  Where the byte keeps the holder's value throughout, the byte is freed if and only if
      the other two conditions hold, and otherwise stays held with no process releasing it. */
  lemma ReleaseFreesExactly(tr: seq<State>, m: nat, j: nat, b: nat, k: nat, p: Pid)
    requires IsRun(tr) && m < j < b < k < |tr| && Takes(tr[m], tr[m + 1], p, Publish)
    requires forall i :: m < i <= k ==> Holds(tr[i], p)
    requires Loads(tr[j], tr[j + 1], p, LoadGen(true)) && Between(tr, j + 1, b, p, false)
    requires Loads(tr[b], tr[b + 1], p, LoadByte) && Between(tr, b + 1, k, p, true)
    ensures Holds(tr[k], p) && tr[k].procs[p].ByteLoaded? && tr[k].procs[p].release
    ensures var s1, v := Step(tr[k], p, LoadOwner), tr[k].procs[p].value;
            var stands := Bumps(tr[j], p) % GENERATIONS == 0 && forall i :: m < i < k ==> !Overwritten(tr[i], tr[i + 1], p);
            && s1.procs[p] == (if stands && tr[b].mem.lock == v then Releasing(v, tr[k].procs[p].generation) else Locking(Idle))
            && s1.mem == tr[k].mem
            && (stands && tr[b].mem.lock == tr[k].mem.lock == v ==> Step(Step(s1, p, ClearOwner), p, FreeByte).mem.lock == 0)
  {
    PassesExactly(tr, m, j, b, k, p, true);
    Steady(tr, j + 1, b, p, false);
    Steady(tr, b + 1, k, p, true);
  }

  // ---- late processes ---------------------------------------------------------------------------------

  /** Told by the generation that its claim stands, whatever the byte shows. */
  predicate ClaimStands(pc: Pc) {
    pc.Claimed? && pc.slot < SLOTS && Register(pc.claimed) == Register(pc.after + 1)
  }

  /** A process that can still bump the generation or store in the owner word although another
      holds the byte: an acquirer or a recoverer that was recovered from under way. */
  predicate Late(w: WPc) {
    && w.Locking?
    && (|| w.pc.Won? || w.pc.Reread? || w.pc.Holding? || w.pc.RecoveryClaimed? || w.pc.RecoveryBumped?
        || (ClaimStands(w.pc) && TokenOf(w.pc.claimed, w.pc.slot) == TokenOf(w.pc.planned, w.pc.slot)))
  }

  ghost predicate NoneLate(s: State, p: Pid) {
    forall q :: q in s.procs && q != p ==> !Late(s.procs[q])
  }

  /** Another process bumps the generation from s to s'. */
  ghost predicate Bumped(s: State, s': State, p: Pid) {
    exists q, act :: q != p && CanStep(s, q, act) && s' == Step(s, q, act) && s'.mem.gen != s.mem.gen
  }

  // What one step of a process that is not late can do while the byte stays taken.
  lemma NotLateStep(s: State, q: Pid, act: Action)
    requires CanStep(s, q, act) && !Late(s.procs[q])
    requires s.mem.lock != 0 && Step(s, q, act).mem.lock == s.mem.lock
    ensures var s' := Step(s, q, act);
            !Late(s'.procs[q]) && s'.mem == s.mem && !Overwrites(act)
  {}

  lemma NoneLateFollows(s: State, s': State, p: Pid)
    requires Follows(s, s') && NoneLate(s, p) && s.mem.lock != 0 && s'.mem.lock == s.mem.lock
    ensures NoneLate(s', p) && !Overwritten(s, s', p) && !Bumped(s, s', p)
  {
    var q, act :| CanStep(s, q, act) && s' == Step(s, q, act);
    OneStep(s, q, act);
    if q != p { NotLateStep(s, q, act); }
    forall r, act' | r != p && CanStep(s, r, act') && s' == Step(s, r, act') ensures !Overwrites(act') && s'.mem.gen == s.mem.gen {
      NotLateStep(s, r, act');
    }
  }

  /** While the byte keeps a value, only a process already late bumps the generation or stores in
      the owner word: where there is none, nobody but p does either. */
  lemma {:induction false} OnlyLateOverwrite(tr: seq<State>, a: nat, k: nat, p: Pid)
    requires IsRun(tr) && a <= k < |tr| && NoneLate(tr[a], p) && tr[a].mem.lock != 0
    requires forall i :: a <= i <= k ==> tr[i].mem.lock == tr[a].mem.lock
    ensures NoneLate(tr[k], p)
    ensures forall i :: a <= i < k ==> !Overwritten(tr[i], tr[i + 1], p) && !Bumped(tr[i], tr[i + 1], p)
    decreases k
  {
    if a < k {
      OnlyLateOverwrite(tr, a, k - 1, p);
      assert Linked(tr, k - 1);
      NoneLateFollows(tr[k - 1], tr[k], p);
    }
  }

  lemma RereadFollows(s: State, s': State, p: Pid)
    requires Follows(s, s') && NoneLate(s, p) && s.mem.lock != 0 && s'.mem.lock == s.mem.lock
    requires p in s.procs && s.procs[p].Locking? && s.procs[p].pc.Reread? && p in s'.procs && s'.procs[p] == s.procs[p]
    ensures NoneLate(s', p) && s'.mem.gen == s.mem.gen
  {
    NoneLateFollows(s, s', p);
    var q, act :| CanStep(s, q, act) && s' == Step(s, q, act);
    if q != p { NotLateStep(s, q, act); }
  }

  lemma {:induction false} GenerationStands(tr: seq<State>, a: nat, c: nat, p: Pid, w: WPc)
    requires IsRun(tr) && a <= c < |tr| && NoneLate(tr[a], p) && tr[a].mem.lock != 0 && w.Locking? && w.pc.Reread?
    requires forall i :: a <= i <= c ==> tr[i].mem.lock == tr[a].mem.lock && p in tr[i].procs && tr[i].procs[p] == w
    ensures tr[c].mem.gen == tr[a].mem.gen
    ensures NoneLate(tr[c], p)
    decreases c
  {
    if a < c {
      GenerationStands(tr, a, c - 1, p, w);
      assert Linked(tr, c - 1);
      RereadFollows(tr[c - 1], tr[c], p);
    }
  }

  /** An acquirer whose byte keeps its provisional token, with no other process late when it
      re-read the generation, is not told it lost. */
  lemma NotToldLost(tr: seq<State>, a: nat, c: nat, f: nat, p: Pid, slot: int, planned: nat)
    requires IsRun(tr) && a < c < f < |tr| - 1 && slot < SLOTS
    requires p in tr[a].procs && tr[a].procs[p] == Locking(Won(slot, planned)) && NoneLate(tr[a + 1], p)
    requires Takes(tr[a], tr[a + 1], p, Try(RereadGen))
    requires forall i :: a < i <= c ==> p in tr[i].procs && tr[i].procs[p] == tr[a + 1].procs[p]
    requires Takes(tr[c], tr[c + 1], p, Try(ClaimGen)) && p in tr[f].procs && tr[f].procs[p] == tr[c + 1].procs[p]
    requires Takes(tr[f], tr[f + 1], p, Try(FixUp))
    requires forall i :: a < i <= f ==> tr[i].mem.lock == TokenOf(planned, slot)
    ensures tr[f + 1].procs[p] == Locking(Holding(TokenOf(tr[a].mem.gen + 1, slot), tr[a].mem.gen + 1))
  {
    GenerationStands(tr, a + 1, c, p, tr[a + 1].procs[p]);
    ToldLostExactly(tr, a, c, f, p, slot, planned);
  }

  // ---- a hold that nobody disturbs ------------------------------------------------------------------------

  /** A process that can take the byte, bump the generation or overwrite the owner under a holder of
      `value`, other than by a recovery that claims the byte. */
  predicate Disturbs(w: WPc, value: nat) {
    || Late(w) || w.RecoveryCleared?
    || (Leaves(w) && w.value == value)
    || (w.Locking? && ClaimStands(w.pc) && TokenOf(w.pc.planned, w.pc.slot) == value)
  }

  /** p holds the lock, its PID stored and not yet freed, and every check it makes succeeds. */
  predicate Sound(s: State, p: Pid) {
    && p in s.procs && HasGeneration(s.procs[p]) && !s.procs[p].Locking?
    && var w := s.procs[p];
      && s.mem.lock == w.value && 0 < w.value < RECOVERING_A
      && Register(s.mem.gen) == Register(w.generation)
      && s.owner == (if w.OwnerCleared? then 0 else p)
      && (w.GenLoaded? || w.ByteLoaded? ==> w.ok)
  }

  ghost predicate Quiet(s: State, p: Pid) {
    Sound(s, p) && forall q :: q in s.procs && q != p ==> !Disturbs(s.procs[q], s.mem.lock)
  }

  lemma OwnSoundStep(s: State, p: Pid, act: Action)
    requires Sound(s, p) && CanStep(s, p, act)
    ensures var s' := Step(s, p, act);
            if act.FreeByte? then s'.mem.lock == 0 && s'.procs[p] == Locking(Idle)
            else Sound(s', p) && s'.mem == s.mem
  {}

  lemma OtherSoundStep(s: State, p: Pid, q: Pid, act: Action)
    requires Sound(s, p) && q != p && CanStep(s, q, act) && !Disturbs(s.procs[q], s.mem.lock)
    ensures var s' := Step(s, q, act);
            s'.mem.lock < RECOVERING_A ==> Sound(s', p) && s'.mem == s.mem && !Disturbs(s'.procs[q], s.mem.lock)
  {}

  lemma QuietFollows(s: State, s': State, p: Pid)
    requires Quiet(s, p) && Follows(s, s') && s'.mem.lock < RECOVERING_A
    ensures Quiet(s', p) || (Takes(s, s', p, FreeByte) && s'.mem.lock == 0)
  {
    var q, act :| CanStep(s, q, act) && s' == Step(s, q, act);
    OneStep(s, q, act);
    if q == p { OwnSoundStep(s, p, act); } else { OtherSoundStep(s, p, q, act); }
  }

  /** From a quiet state on, and as long as no recovery claims the byte, every check of the holder
      succeeds and the byte is its own, until its release frees it. */
  lemma {:induction false} QuietUntilFreed(tr: seq<State>, a: nat, k: nat, p: Pid) returns (e: nat)
    requires IsRun(tr) && a <= k < |tr| && Quiet(tr[a], p)
    requires forall i :: a <= i <= k ==> tr[i].mem.lock < RECOVERING_A
    ensures a <= e <= k && forall i :: a <= i <= e ==> Quiet(tr[i], p)
    ensures e < k ==> Takes(tr[e], tr[e + 1], p, FreeByte) && tr[e + 1].mem.lock == 0
    decreases k
  {
    if a == k {
      e := a;
    } else {
      e := QuietUntilFreed(tr, a, k - 1, p);
      if e == k - 1 {
        assert Linked(tr, k - 1);
        QuietFollows(tr[k - 1], tr[k], p);
        if Quiet(tr[k], p) { e := k; }
      }
    }
  }

  // ---- a release that was past its revalidation when the lock was recovered ---------------------------

  /** The byte then taken by q, under a slot or none, is freed by p's late release if and only if
      p's value is q's token: it decodes to q's slot under q's generation, or, when q has no slot,
      is the plain token of q's generation -- which, when p has none either, is agreement of the two
      registers modulo 253. */
  lemma LateRelease(s: State, p: Pid, q: Pid, slot: int)
    requires CanStep(s, p, FreeByte) && Holds(s, q) && slot < SLOTS
    requires s.mem.lock == s.procs[q].value == TokenOf(s.procs[q].generation, slot)
    ensures var v, g, g' := s.procs[p].value, s.procs[p].generation, s.procs[q].generation;
            var frees := Step(s, p, FreeByte).mem.lock == 0;
            && (slot >= 0 ==> (frees <==> SlotOfToken(v, g') == slot))
            && (slot < 0 ==> (frees <==> v == LockToken(g')))
            && (slot < 0 && v == LockToken(g) ==> (frees <==> Register(g) % 253 == Register(g') % 253))
  {
    if slot >= 0 {
      SlotTokenRoundTrip(s.procs[q].generation, slot);
      SlotOfTokenIsExact(s.procs[p].value, s.procs[q].generation);
    }
  }
}
