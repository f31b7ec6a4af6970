/** What becomes of a miss: from a state with one read waiting for its fetch, a run in which the done
    callback stores and answers, and one in which the fetch never completes and a destroy answers
    when its drain times out.

    Each lemma makes one step of a call, or a few, and says what state the run then ends in. */
module MissBridgeRuns {
  import opened WaiterLedger
  import opened MissBridge

  function End(tr: seq<State>): State
    requires |tr| > 0
  {
    tr[|tr| - 1]
  }

  lemma Extend(tr: seq<State>, a: Act, act: Action) returns (tr': seq<State>)
    requires IsRun(tr) && CanStep(End(tr), a, act)
    ensures IsRun(tr') && End(tr') == Step(End(tr), a, act)
  {
    tr' := tr + [Step(End(tr), a, act)];
    assert Follows(End(tr), Step(End(tr), a, act));
    forall i | 0 <= i < |tr'| - 1 ensures Linked(tr', i) {
      if i < |tr| - 1 { assert Linked(tr, i); }
    }
  }

  /** In run tr's last state call a is at pc, and the other calls are those of m. */
  predicate At(tr: seq<State>, m: map<Act, Pc>, a: Act, pc: Pc)
    requires |tr| > 0
  {
    End(tr).acts == m[a := pc]
  }

  lemma Enter(tr: seq<State>, a: Act, pc: Pc) returns (tr': seq<State>)
    requires IsRun(tr) && a !in End(tr).acts
    requires pc.ReadStart? || pc.DrainStart? || (pc.DoneStart? && pc.ctx in End(tr).fetches)
    ensures IsRun(tr') && End(tr') == End(tr).(acts := End(tr).acts[a := pc])
  {
    tr' := Extend(tr, a, Call(pc));
  }

  /** A step that moves only the program counter. */
  predicate OnlyMoves(s: State, pc: Pc, act: Action, pc': Pc) {
    || (pc.ReadStart? && act.CheckShutdown? && !s.shuttingDown && pc' == ReadProbing(pc.key))
    || (pc.ReadProbing? && act == Lookup(false) && pc' == ReadMissed(pc.key))
    || (pc.ReadMissed? && act == LoadHandler(true) && pc' == ReadAllocated(pc.key))
    || (pc.ReadFetching? && act.HandlerReturns? && pc' == ReadReturned(true))
    || (pc.DoneWriting? && act.WriteBack? && pc' == DoneNotifying(true))
  }

  lemma Move(tr: seq<State>, m: map<Act, Pc>, a: Act, pc: Pc, act: Action, pc': Pc) returns (tr': seq<State>)
    requires IsRun(tr) && At(tr, m, a, pc) && OnlyMoves(End(tr), pc, act, pc')
    ensures IsRun(tr') && End(tr') == End(tr).(acts := m[a := pc'])
  {
    tr' := Extend(tr, a, act);
  }

  lemma Enlisted(tr: seq<State>, m: map<Act, Pc>, a: Act, key: Key) returns (tr': seq<State>)
    requires IsRun(tr) && At(tr, m, a, ReadAllocated(key))
    requires !End(tr).shuttingDown && End(tr).maxInFlight == 0 && key !in End(tr).ledger.inFlight
    ensures IsRun(tr')
    ensures var s := End(tr);
            End(tr') == s.(acts := m[a := ReadFetching(key)], ledger := s.ledger.Enlist(key, a), fetches := s.fetches[a := key])
  {
    tr' := Extend(tr, a, Register);
  }

  lemma Claimed(tr: seq<State>, m: map<Act, Pc>, a: Act, ctx: Act) returns (tr': seq<State>)
    requires IsRun(tr) && At(tr, m, a, DoneStart(ctx, true)) && ctx !in End(tr).completed
    ensures IsRun(tr')
    ensures var s := End(tr); End(tr') == s.(acts := m[a := DoneClaimed(ctx, true)], completed := s.completed + {ctx})
  {
    tr' := Extend(tr, a, ClaimDone);
  }

  lemma Taken(tr: seq<State>, m: map<Act, Pc>, a: Act, ctx: Act, key: Key) returns (tr': seq<State>)
    requires IsRun(tr) && At(tr, m, a, DoneClaimed(ctx, true))
    requires ctx in End(tr).fetches && End(tr).fetches[ctx] == key && !End(tr).closed
    ensures IsRun(tr')
    ensures var s := End(tr);
            End(tr') == s.(acts := m[a := DoneWriting], ledger := s.ledger.Take(a, {key}), retired := s.retired + {ctx},
                           pendingWrites := s.pendingWrites + 1)
  {
    tr' := Extend(tr, a, TakeWaiters);
  }

  lemma Notified(tr: seq<State>, a: Act, key: Key, r: Act) returns (tr': seq<State>)
    requires IsRun(tr) && a in End(tr).acts && Notifies(End(tr).acts[a]) && r in End(tr).ledger.Local(a, key)
    ensures IsRun(tr') && End(tr') == End(tr).(ledger := End(tr).ledger.Deliver(a, key, r))
  {
    tr' := Extend(tr, a, Notify(key, r));
    assert End(tr').acts == End(tr).acts;
  }

  lemma Finished(tr: seq<State>, m: map<Act, Pc>, a: Act, pc: Pc) returns (tr': seq<State>)
    requires IsRun(tr) && At(tr, m, a, pc) && forall k :: End(tr).ledger.Local(a, k) == multiset{}
    requires pc == DoneNotifying(true) || pc == DrainNotifying(true)
    ensures IsRun(tr')
    ensures var s := End(tr);
            End(tr') == if pc.DoneNotifying? then s.(acts := m[a := Over], pendingWrites := s.pendingWrites - 1)
                        else s.(acts := m[a := DestroyClosing])
  {
    tr' := Extend(tr, a, FinishNotifying);
  }

  lemma Draining(tr: seq<State>, m: map<Act, Pc>, a: Act) returns (tr': seq<State>)
    requires IsRun(tr) && At(tr, m, a, DrainStart(true))
    ensures IsRun(tr') && End(tr') == End(tr).(acts := m[a := DrainWaiting(true)], shuttingDown := true)
  {
    tr' := Extend(tr, a, BeginShutdown);
  }

  lemma TimedOut(tr: seq<State>, m: map<Act, Pc>, a: Act) returns (tr': seq<State>)
    requires IsRun(tr) && At(tr, m, a, DrainWaiting(true))
    ensures IsRun(tr')
    ensures var s := End(tr);
            End(tr') == s.(acts := m[a := DrainNotifying(true)], ledger := s.ledger.Take(a, s.ledger.inFlight.Keys))
  {
    tr' := Extend(tr, a, DrainTimeout);
  }

  lemma Closed(tr: seq<State>, m: map<Act, Pc>, a: Act) returns (tr': seq<State>)
    requires IsRun(tr) && At(tr, m, a, DestroyClosing) && End(tr).pendingWrites == 0
    ensures IsRun(tr') && End(tr') == Step(End(tr), a, Close)
  {
    tr' := Extend(tr, a, Close);
  }

  lemma Destroyed(tr: seq<State>, m: map<Act, Pc>, a: Act) returns (tr': seq<State>)
    requires IsRun(tr) && At(tr, m, a, DestroyClosing) && End(tr).pendingWrites == 0
    ensures IsRun(tr') && End(tr') == End(tr).(acts := m[a := Over], closed := true, cacheOpen := false)
  {
    tr' := Closed(tr, m, a);
    tr' := Extend(tr', a, DestroyCache);
  }

  // ---- the runs -----------------------------------------------------------------------------------

  /** The only registration in ledger l is that of read r, waiting under key. */
  ghost predicate WaitsOne(l: Ledger, key: Key, r: Act) {
    l.inFlight.Keys == {key} && l.inFlight[key] == multiset{r} && l.held == map[] && l.calls == multiset{}
  }

  /** The only registration in ledger l is that of read r, in the list of call a under key. */
  ghost predicate HoldsOne(l: Ledger, a: Act, key: Key, r: Act) {
    l.inFlight == map[] && l.calls == multiset{} && forall k :: l.Local(a, k) == if k == key then multiset{r} else multiset{}
  }

  lemma TakesOne(l: Ledger, a: Act, key: Key, r: Act)
    requires WaitsOne(l, key, r)
    ensures HoldsOne(l.Take(a, {key}), a, key, r)
  {
    assert (l.inFlight - {key}).Keys == {};
    forall k ensures l.Take(a, {key}).Local(a, k) == if k == key then multiset{r} else multiset{} {
      TakenList(l, a, {key}, a, k);
    }
  }

  lemma DeliversOne(l: Ledger, a: Act, key: Key, r: Act)
    requires HoldsOne(l, a, key, r)
    ensures var m := l.Deliver(a, key, r);
            m.inFlight == map[] && m.calls == multiset{r} && forall k :: m.Local(a, k) == multiset{}
  {
    assert multiset{r} - multiset{r} == multiset{};
    forall k ensures l.Deliver(a, key, r).Local(a, k) == multiset{} {
      assert l.Local(a, k) == if k == key then multiset{r} else multiset{};
    }
    assert multiset{} + multiset{r} == multiset{r};
  }

  /** Call a notifies its one read and ends. */
  lemma AnswersOne(tr: seq<State>, m: map<Act, Pc>, a: Act, key: Key, r: Act, pc: Pc) returns (tr': seq<State>)
    requires IsRun(tr) && At(tr, m, a, pc) && HoldsOne(End(tr).ledger, a, key, r)
    requires pc == DoneNotifying(true) || pc == DrainNotifying(true)
    ensures IsRun(tr')
    ensures var s, l := End(tr), End(tr).ledger.Deliver(a, key, r);
            && l.calls == multiset{r} && l.inFlight == map[]
            && End(tr') == if pc.DoneNotifying? then s.(acts := m[a := Over], ledger := l, pendingWrites := s.pendingWrites - 1)
                           else s.(acts := m[a := DestroyClosing], ledger := l)
  {
    DeliversOne(End(tr).ledger, a, key, r);
    tr' := Notified(tr, a, key, r);
    tr' := Finished(tr', m, a, pc);
  }

  /** Read r has missed, is the only one waiting for key, and its fetch has not been completed. */
  ghost predicate Fetching(s: State, key: Key, r: Act) {
    && r in s.acts && s.acts[r] == ReadReturned(true) && WaitsOne(s.ledger, key, r) && r in s.fetches && s.fetches[r] == key
    && r !in s.completed && r !in s.retired && s.pendingWrites == 0 && !s.closed && s.cacheOpen
  }

  /** A bridge just made can come to that. */
  lemma Misses(key: Key, r: Act) returns (tr: seq<State>)
    ensures IsRun(tr) && Fetching(End(tr), key, r) && End(tr).acts.Keys == {r}
  {
    tr := [State(map[], EMPTY, map[], {}, {}, 0, false, false, true, 0)];
    tr := Enter(tr, r, ReadStart(key));
    tr := Move(tr, map[], r, ReadStart(key), CheckShutdown, ReadProbing(key));
    tr := Move(tr, map[], r, ReadProbing(key), Lookup(false), ReadMissed(key));
    tr := Move(tr, map[], r, ReadMissed(key), LoadHandler(true), ReadAllocated(key));
    tr := Enlisted(tr, map[], r, key);
    tr := Move(tr, map[], r, ReadFetching(key), HandlerReturns, ReadReturned(true));
  }

  /** The done callback of the fetch takes the waiters and writes back. */
  lemma WritesBack(tr: seq<State>, key: Key, r: Act, a: Act) returns (tr': seq<State>)
    requires IsRun(tr) && Fetching(End(tr), key, r) && a !in End(tr).acts
    ensures IsRun(tr')
    ensures var s, s' := End(tr), End(tr');
            && s'.acts == s.acts[a := DoneNotifying(true)] && s'.ledger == s.ledger.Take(a, {key})
            && s'.retired == s.retired + {r} && s'.pendingWrites == 1 && s'.cacheOpen
  {
    var m := End(tr).acts;
    tr' := Enter(tr, a, DoneStart(r, true));
    tr' := Claimed(tr', m, a, r);
    tr' := Taken(tr', m, a, r, key);
    tr' := Move(tr', m, a, DoneWriting, WriteBack, DoneNotifying(true));
  }

  /** The done callback can store the data and answer the read: nothing is left over. */
  lemma FetchAnswers(tr: seq<State>, key: Key, r: Act, a: Act) returns (tr': seq<State>)
    requires IsRun(tr) && Fetching(End(tr), key, r) && a !in End(tr).acts
    ensures IsRun(tr') && End(tr').acts == End(tr).acts[a := Over] && End(tr').ledger.calls == multiset{r}
    ensures End(tr').ledger.inFlight == map[] && End(tr').pendingWrites == 0 && r in End(tr').retired && End(tr').cacheOpen
  {
    var m := End(tr).acts;
    TakesOne(End(tr).ledger, a, key, r);
    tr' := WritesBack(tr, key, r, a);
    tr' := AnswersOne(tr', m, a, key, r, DoneNotifying(true));
  }

  /** A destroy's drain times out and takes every waiter. */
  lemma GivesUp(tr: seq<State>, key: Key, r: Act, a: Act) returns (tr': seq<State>)
    requires IsRun(tr) && Fetching(End(tr), key, r) && a !in End(tr).acts
    ensures IsRun(tr')
    ensures var s := End(tr);
            End(tr') == s.(acts := s.acts[a := DrainNotifying(true)], ledger := s.ledger.Take(a, {key}), shuttingDown := true)
  {
    var m := End(tr).acts;
    tr' := Enter(tr, a, DrainStart(true));
    tr' := Draining(tr', m, a);
    tr' := TimedOut(tr', m, a);
  }

  /** The fetch need never complete: a destroy whose drain times out can answer the read and let
      the cache go, with the fetch still outstanding. */
  lemma DestroyAnswers(tr: seq<State>, key: Key, r: Act, a: Act) returns (tr': seq<State>)
    requires IsRun(tr) && Fetching(End(tr), key, r) && a !in End(tr).acts
    ensures IsRun(tr') && End(tr').acts == End(tr).acts[a := Over] && End(tr').ledger.calls == multiset{r}
    ensures End(tr').ledger.inFlight == map[] && !End(tr').cacheOpen && Outstanding(End(tr'), r)
  {
    var m := End(tr).acts;
    TakesOne(End(tr).ledger, a, key, r);
    tr' := GivesUp(tr, key, r, a);
    tr' := AnswersOne(tr', m, a, key, r, DrainNotifying(true));
    tr' := Destroyed(tr', m, a);
  }
}
