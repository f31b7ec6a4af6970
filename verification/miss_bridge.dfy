/** Miss coalescing in the C bridge: async reads, done callbacks (repeated and late ones
    too), throwing handlers, drains and destroy, in any interleaving.  Each critical
    section of the in-flight mutex is one step, and so is each access outside it.

    The context a read hands to the miss handler is named by the read. */
module MissBridge {
  import opened Counting
  import opened WaiterLedger

  datatype Pc =
    | ReadStart(key: Key)
    | ReadProbing(key: Key)                  // not shutting down when it looked
    | ReadMissed(key: Key)
    | ReadAllocated(key: Key)                // handler loaded, context allocated
    | ReadRejected                           // refused under the lock; read_cb still to be called
    | ReadFetching(key: Key)                 // the handler is running
    | ReadFailing(unregistered: bool)        // the handler threw: tell the reads that coalesced
    | ReadReturned(ok: bool)
    | DoneStart(ctx: Act, ok: bool)          // ok: there is data to store
    | DoneClaimed(ctx: Act, ok: bool)        // completed flag won
    | DoneWriting                            // write-back registered
    | DoneNotifying(wrote: bool)
    | DrainStart(destroy: bool)
    | DrainWaiting(destroy: bool)
    | DrainNotifying(destroy: bool)          // timed out
    | DestroyClosing
    | DestroyWaiting
    | Over

  datatype State = State(
    acts: map<Act, Pc>,
    ledger: Ledger,
    fetches: map<Act, Key>,                  // contexts handed to the miss handler
    completed: set<Act>,                     // their completed flags
    retired: set<Act>,                       // contexts whose in-flight entry was taken
    pendingWrites: int,
    shuttingDown: bool, closed: bool, cacheOpen: bool,
    maxInFlight: nat)

  datatype Action =
    | Call(pc: Pc)
    | CheckShutdown
    | Lookup(hit: bool)
    | LoadHandler(present: bool)
    | Fail                                   // an allocation throws
    | Register
    | CallRejected
    | HandlerReturns
    | HandlerThrows
    | Notify(key: Key, read: Act)
    | FinishNotifying
    | ClaimDone
    | TakeWaiters
    | WriteBack
    | BeginShutdown
    | DrainIdle
    | DrainTimeout
    | Close
    | DestroyCache

  predicate Notifies(pc: Pc) { pc.ReadFailing? || pc.DoneNotifying? || pc.DrainNotifying? }

  /** Which steps the program counter allows. */
  predicate Allowed(pc: Pc, act: Action) {
    match act
    case Call(_) => false
    case CheckShutdown => pc.ReadStart?
    case Lookup(_) => pc.ReadProbing?
    case LoadHandler(_) => pc.ReadMissed?
    case Fail => pc.ReadMissed? || pc.ReadAllocated?
    case Register => pc.ReadAllocated?
    case CallRejected => pc.ReadRejected?
    case HandlerReturns => pc.ReadFetching?
    case HandlerThrows => pc.ReadFetching?
    case Notify(_, _) => Notifies(pc)
    case FinishNotifying => Notifies(pc)
    case ClaimDone => pc.DoneStart?
    case TakeWaiters => pc.DoneClaimed?
    case WriteBack => pc.DoneWriting?
    case BeginShutdown => pc.DrainStart?
    case DrainIdle => pc.DrainWaiting?
    case DrainTimeout => pc.DrainWaiting?
    case Close => pc.DestroyClosing?
    case DestroyCache => pc.DestroyWaiting?
  }

  ghost predicate CanStep(s: State, a: Act, act: Action) {
    match act
    case Call(pc) =>
      && a !in s.acts
      && (pc.ReadStart? || pc.DrainStart? || (pc.DoneStart? && pc.ctx in s.fetches))
    case Notify(key, read) => a in s.acts && Allowed(s.acts[a], act) && read in s.ledger.Local(a, key)
    case FinishNotifying => a in s.acts && Allowed(s.acts[a], act) && forall k :: s.ledger.Local(a, k) == multiset{}
    case TakeWaiters => a in s.acts && Allowed(s.acts[a], act) && s.acts[a].ctx in s.fetches
    case DrainIdle => a in s.acts && Allowed(s.acts[a], act) && s.ledger.inFlight == map[] && s.pendingWrites == 0
    case DestroyCache => a in s.acts && Allowed(s.acts[a], act) && s.pendingWrites == 0
    case _ => a in s.acts && Allowed(s.acts[a], act)
  }

  // ---- what a step does to each variable -------------------------------------------------------

  predicate Full(s: State, key: Key) {
    key !in s.ledger.inFlight && s.maxInFlight > 0 && |s.ledger.inFlight| >= s.maxInFlight
  }

  predicate Rejects(s: State, key: Key) { s.shuttingDown || Full(s, key) }

  /** The read answers without going through the in-flight map. */
  predicate Answers(s: State, act: Action) {
    || (act.CheckShutdown? && s.shuttingDown) || (act.Lookup? && act.hit)
    || (act.LoadHandler? && !act.present) || act.CallRejected?
  }

  /** The read joins the waiters of its key. */
  predicate Enlists(s: State, pc: Pc, act: Action) {
    act.Register? && pc.ReadAllocated? && !Rejects(s, pc.key)
  }

  /** The read's registration starts a fetch: nobody else has the key in flight. */
  predicate Starts(s: State, pc: Pc, act: Action) {
    Enlists(s, pc, act) && pc.key !in s.ledger.inFlight
  }

  /** The handler threw before any done callback completed its context. */
  predicate Retires(s: State, a: Act, act: Action) {
    act.HandlerThrows? && a !in s.completed
  }

  /** A done callback wins the completed flag of its context. */
  predicate Wins(s: State, pc: Pc, act: Action) {
    act.ClaimDone? && pc.DoneStart? && pc.ctx !in s.completed
  }

  predicate StoresData(s: State, pc: Pc, act: Action) {
    act.TakeWaiters? && pc.DoneClaimed? && pc.ok && !s.closed
  }

  function NextPc(s: State, a: Act, pc: Pc, act: Action): Pc
    requires Allowed(pc, act)
  {
    if Answers(s, act) then ReadReturned(true)
    else match act
      case CheckShutdown => ReadProbing(pc.key)
      case Lookup(_) => ReadMissed(pc.key)
      case LoadHandler(_) => ReadAllocated(pc.key)
      case Fail => ReadReturned(false)
      case Register =>
        if Rejects(s, pc.key) then ReadRejected
        else if Starts(s, pc, act) then ReadFetching(pc.key)
        else ReadReturned(true)
      case HandlerReturns => ReadReturned(true)
      case HandlerThrows => ReadFailing(Retires(s, a, act) && a in s.ledger.Waiters(pc.key))
      case FinishNotifying =>
        (match pc
         case ReadFailing(unregistered) => ReadReturned(!unregistered)
         case DrainNotifying(destroy) => if destroy then DestroyClosing else Over
         case _ => Over)
      case ClaimDone => if Wins(s, pc, act) then DoneClaimed(pc.ctx, pc.ok) else Over
      case TakeWaiters => if StoresData(s, pc, act) then DoneWriting else DoneNotifying(false)
      case WriteBack => DoneNotifying(true)
      case BeginShutdown => DrainWaiting(pc.destroy)
      case DrainIdle => if pc.destroy then DestroyClosing else Over
      case DrainTimeout => DrainNotifying(pc.destroy)
      case Close => DestroyWaiting
      case DestroyCache => Over
      case _ => pc
  }

  function NextLedger(s: State, a: Act, pc: Pc, act: Action): Ledger
    requires Allowed(pc, act)
    requires act.TakeWaiters? ==> pc.ctx in s.fetches
  {
    var l := s.ledger;
    if Answers(s, act) then l.Answer(a)
    else match act
      case Register => if Rejects(s, pc.key) then l else l.Enlist(pc.key, a)
      case HandlerThrows =>
        if !Retires(s, a, act) then l
        else (if a in l.Waiters(pc.key) then l.Withdraw(pc.key, a) else l).Take(a, {pc.key})
      case Notify(key, read) => l.Deliver(a, key, read)
      case TakeWaiters => l.Take(a, {s.fetches[pc.ctx]})
      case DrainTimeout => l.Take(a, l.inFlight.Keys)
      case _ => l
  }

  function NextWrites(s: State, pc: Pc, act: Action): int {
    if StoresData(s, pc, act) then s.pendingWrites + 1
    else if act.FinishNotifying? && pc.DoneNotifying? && pc.wrote then s.pendingWrites - 1
    else s.pendingWrites
  }

  ghost function Step(s: State, a: Act, act: Action): (s': State)
    requires CanStep(s, a, act)
  {
    if act.Call? then s.(acts := s.acts[a := act.pc])
    else
      var pc := s.acts[a];
      State(s.acts[a := NextPc(s, a, pc, act)],
            NextLedger(s, a, pc, act),
            if Starts(s, pc, act) then s.fetches[a := pc.key] else s.fetches,
            if Retires(s, a, act) then s.completed + {a} else if Wins(s, pc, act) then s.completed + {pc.ctx} else s.completed,
            if Retires(s, a, act) then s.retired + {a} else if act.TakeWaiters? then s.retired + {pc.ctx} else s.retired,
            NextWrites(s, pc, act),
            s.shuttingDown || act.BeginShutdown?,
            s.closed || act.Close?,
            s.cacheOpen && !act.DestroyCache?,
            s.maxInFlight)
  }

  predicate Init(s: State) {
    && s.acts == map[] && s.ledger == EMPTY && s.fetches == map[] && s.completed == {} && s.retired == {}
    && s.pendingWrites == 0 && !s.shuttingDown && !s.closed && s.cacheOpen
  }

  // ---- the invariant ---------------------------------------------------------------------------

  /** A read that owes, or has made, exactly one callback. */
  predicate Owes(pc: Pc) {
    pc.ReadFetching? || (pc.ReadFailing? && !pc.unregistered) || (pc.ReadReturned? && pc.ok)
  }

  predicate OwedAt(s: State, r: Act) {
    (r in s.acts && Owes(s.acts[r])) <==> s.ledger.Where(r) != Nowhere
  }

  ghost predicate OwedOnce(s: State) { forall r :: OwedAt(s, r) }

  /** A call's program counter agrees with the contexts. */
  predicate PcOk(s: State, a: Act)
    requires a in s.acts
  {
    var pc := s.acts[a];
    && (a in s.fetches ==> pc.ReadFetching? || pc.ReadFailing? || pc.ReadReturned?)
    && (pc.ReadFetching? ==> a in s.fetches && s.fetches[a] == pc.key)
    && (pc.DoneStart? ==> pc.ctx in s.fetches)
    && (pc.DoneClaimed? ==> pc.ctx in s.completed && pc.ctx !in s.retired)
    && (pc.DrainWaiting? ==> s.shuttingDown)
  }

  predicate Claims(s: State, a: Act, ctx: Act) {
    a in s.acts && s.acts[a].DoneClaimed? && s.acts[a].ctx == ctx
  }

  ghost predicate ClaimsInv(s: State) {
    && (forall a :: a in s.acts ==> PcOk(s, a))
    && (forall a, b, c :: Claims(s, a, c) && Claims(s, b, c) ==> a == b)
    && s.retired <= s.completed && s.completed <= s.fetches.Keys && s.fetches.Keys <= s.acts.Keys
  }

  /** A context whose entry, if it has one, is still in the map. */
  predicate Outstanding(s: State, c: Act) {
    c in s.fetches && c !in s.retired
  }

  predicate Registered(s: State, c: Act)
    requires c in s.fetches
  {
    && (s.fetches[c] in s.ledger.inFlight ==> s.ledger.Where(c) == Waiting(s.fetches[c]))
    && (s.fetches[c] !in s.ledger.inFlight ==> s.shuttingDown)
  }

  ghost predicate FetchesInv(s: State) {
    && (forall c :: Outstanding(s, c) ==> Registered(s, c))
    && (forall c, d :: Outstanding(s, c) && Outstanding(s, d) && s.fetches[c] == s.fetches[d] ==> c == d)
    && (s.maxInFlight > 0 ==> |s.ledger.inFlight| <= s.maxInFlight)
  }

  /** The fetch that will take the entry of key k out of the map. */
  ghost predicate Fetched(s: State, k: Key) {
    exists c :: Outstanding(s, c) && s.fetches[c] == k
  }

  ghost predicate KeysInv(s: State) { forall k :: k in s.ledger.inFlight ==> Fetched(s, k) }

  /** Only a call that has yet to notify them holds waiters. */
  predicate Holds(s: State, a: Act) {
    a in s.acts && (Notifies(s.acts[a]) || s.acts[a].DoneWriting?)
  }

  ghost predicate HoldersInv(s: State) {
    forall a, k :: s.ledger.Local(a, k) != multiset{} ==> Holds(s, a)
  }

  predicate WritesBack(pc: Pc) { pc.DoneWriting? || (pc.DoneNotifying? && pc.wrote) }

  function WriteBacks(s: State): set<Act> {
    set a | a in s.acts && WritesBack(s.acts[a])
  }

  ghost predicate WritesInv(s: State) {
    && s.pendingWrites == |WriteBacks(s)|
    && (forall a :: a in s.acts && s.acts[a].DestroyWaiting? ==> s.closed)
    && (!s.cacheOpen ==> s.closed && s.pendingWrites == 0)
  }

  ghost predicate Inv(s: State) {
    Balanced(s.ledger) && OwedOnce(s) && ClaimsInv(s) && FetchesInv(s) && KeysInv(s) && HoldersInv(s) && WritesInv(s)
  }

  // ---- every step keeps it ------------------------------------------------------------------------

  /** A handler throws with its context uncompleted: its read is still registered, unless a drain took it. */
  lemma ThrowerWaits(s: State, a: Act)
    requires Balanced(s.ledger) && ClaimsInv(s) && FetchesInv(s) && CanStep(s, a, HandlerThrows) && a !in s.completed
    ensures s.ledger.Where(a) == Waiting(s.acts[a].key) <==> s.acts[a].key in s.ledger.inFlight
    ensures a in s.ledger.Waiters(s.acts[a].key) <==> s.acts[a].key in s.ledger.inFlight
  {
    assert BalancedAt(s.ledger, a);
    assert PcOk(s, a) && Outstanding(s, a) && Registered(s, a);
  }

  lemma LedgerStep(s: State, a: Act, act: Action)
    requires Inv(s) && CanStep(s, a, act)
    ensures Balanced(Step(s, a, act).ledger)
  {
    assert OwedAt(s, a);
    match act
    case Call(_) =>
    case Register => if !Rejects(s, s.acts[a].key) { EnlistBalanced(s.ledger, s.acts[a].key, a); }
    case Notify(key, read) => DeliverBalanced(s.ledger, a, key, read);
    case TakeWaiters => TakeBalanced(s.ledger, a, {s.fetches[s.acts[a].ctx]});
    case DrainTimeout => TakeBalanced(s.ledger, a, s.ledger.inFlight.Keys);
    case HandlerThrows => if a !in s.completed { RetireBalanced(s, a); }
    case _ => if Answers(s, act) { AnswerBalanced(s.ledger, a); }
  }

  lemma RetireBalanced(s: State, a: Act)
    requires Balanced(s.ledger) && ClaimsInv(s) && FetchesInv(s) && CanStep(s, a, HandlerThrows) && a !in s.completed
    ensures Balanced(Step(s, a, HandlerThrows).ledger)
  {
    ThrowerWaits(s, a);
    var key := s.acts[a].key;
    if a in s.ledger.Waiters(key) {
      WithdrawBalanced(s.ledger, key, a);
      TakeBalanced(s.ledger.Withdraw(key, a), a, {key});
    } else {
      TakeBalanced(s.ledger, a, {key});
    }
  }

  /** Where a step of a leaves the registrations of the others. */
  lemma OthersPlaces(s: State, a: Act, act: Action, r: Act)
    requires CanStep(s, a, act) && Balanced(s.ledger) && r != a
    ensures Step(s, a, act).ledger.Where(r) == Nowhere <==> s.ledger.Where(r) == Nowhere
  {
    match act
    case Notify(key, read) => DeliverBalanced(s.ledger, a, key, read);
    case TakeWaiters => TakenFrom(s.ledger, a, {s.fetches[s.acts[a].ctx]}, r);
    case DrainTimeout => TakenFrom(s.ledger, a, s.ledger.inFlight.Keys, r);
    case HandlerThrows =>
      var key := s.acts[a].key;
      TakenFrom(s.ledger, a, {key}, r);
      TakenFrom(s.ledger.Withdraw(key, a), a, {key}, r);
    case _ =>
  }

  /** The read leaves its fetch unanswered: it threw while it was still registered. */
  predicate Withdraws(s: State, a: Act, pc: Pc, act: Action) {
    Retires(s, a, act) && pc.ReadFetching? && a in s.ledger.Waiters(pc.key)
  }

  /** A read comes to owe its callback when it answers or registers, and stops only by withdrawing. */
  lemma OwesStep(s: State, a: Act, pc: Pc, act: Action)
    requires Allowed(pc, act)
    ensures Owes(NextPc(s, a, pc, act)) <==> Answers(s, act) || Enlists(s, pc, act) || (Owes(pc) && !Withdraws(s, a, pc, act))
  {}

  lemma ThrownPlace(s: State, a: Act, key: Key)
    requires s.ledger.Where(a) == Waiting(key) <==> a in s.ledger.Waiters(key)
    ensures NextLedger(s, a, ReadFetching(key), HandlerThrows).Where(a) == Nowhere
       <==> s.ledger.Where(a) == Nowhere || Withdraws(s, a, ReadFetching(key), HandlerThrows)
  {
    TakenFrom(s.ledger, a, {key}, a);
    TakenFrom(s.ledger.Withdraw(key, a), a, {key}, a);
  }

  lemma TakerPlace(s: State, a: Act, pc: Pc, act: Action)
    requires Allowed(pc, act) && (act.DrainTimeout? || (act.TakeWaiters? && pc.ctx in s.fetches))
    ensures NextLedger(s, a, pc, act).Where(a) == Nowhere <==> s.ledger.Where(a) == Nowhere
  {
    if act.DrainTimeout? {
      TakenFrom(s.ledger, a, s.ledger.inFlight.Keys, a);
    } else {
      TakenFrom(s.ledger, a, {s.fetches[pc.ctx]}, a);
    }
  }

  lemma OtherPlace(s: State, a: Act, pc: Pc, act: Action)
    requires Allowed(pc, act) && !act.DrainTimeout? && !act.TakeWaiters? && !act.HandlerThrows?
    requires act.Notify? ==> s.ledger.Where(act.read) != Nowhere
    ensures NextLedger(s, a, pc, act).Where(a) == Nowhere
       <==> s.ledger.Where(a) == Nowhere && !Answers(s, act) && !Enlists(s, pc, act)
  {}

  /** A step owes its own read's callback exactly when it leaves it registered or answers it. */
  lemma OwnPlace(s: State, a: Act, act: Action)
    requires CanStep(s, a, act) && OwedAt(s, a)
    requires act.Notify? ==> s.ledger.Where(act.read) != Nowhere
    requires Retires(s, a, act) ==> (s.ledger.Where(a) == Waiting(s.acts[a].key) <==> a in s.ledger.Waiters(s.acts[a].key))
    ensures OwedAt(Step(s, a, act), a)
  {
    if !act.Call? {
      var pc := s.acts[a];
      OwesStep(s, a, pc, act);
      if act.TakeWaiters? || act.DrainTimeout? {
        TakerPlace(s, a, pc, act);
      } else if act.HandlerThrows? {
        if Retires(s, a, act) { ThrownPlace(s, a, pc.key); }
      } else {
        OtherPlace(s, a, pc, act);
      }
    }
  }

  lemma OwedStep(s: State, a: Act, act: Action)
    requires Inv(s) && CanStep(s, a, act)
    ensures OwedOnce(Step(s, a, act))
  {
    var s' := Step(s, a, act);
    forall r ensures OwedAt(s', r) {
      assert OwedAt(s, r);
      if r != a {
        OthersPlaces(s, a, act, r);
      } else {
        if act.Notify? { DeliverBalanced(s.ledger, a, act.key, act.read); assert OwedAt(s, act.read); }
        if Retires(s, a, act) { ThrowerWaits(s, a); }
        OwnPlace(s, a, act);
      }
    }
  }

  lemma ClaimsStep(s: State, a: Act, act: Action)
    requires ClaimsInv(s) && CanStep(s, a, act)
    ensures ClaimsInv(Step(s, a, act))
  {
    var s' := Step(s, a, act);
    forall b | b in s'.acts ensures PcOk(s', b) {
      if b == a {
        OwnPcOk(s, a, act);
      } else {
        assert PcOk(s, b);
        assert act.TakeWaiters? && Claims(s, b, s.acts[a].ctx) ==> Claims(s, a, s.acts[a].ctx);
        OtherPcOk(s, a, act, b);
      }
    }
    assert a in s.acts ==> PcOk(s, a);
    forall b, d, c | Claims(s', b, c) && Claims(s', d, c) ensures b == d {
      assert b in s.acts ==> PcOk(s, b);
      assert d in s.acts ==> PcOk(s, d);
      if b != a && d != a { assert Claims(s, b, c) && Claims(s, d, c); }
    }
  }

  lemma OwnPcOk(s: State, a: Act, act: Action)
    requires a in s.acts ==> PcOk(s, a)
    requires s.retired <= s.completed && s.fetches.Keys <= s.acts.Keys
    requires CanStep(s, a, act)
    ensures a in Step(s, a, act).acts && PcOk(Step(s, a, act), a)
  {}

  lemma OtherPcOk(s: State, a: Act, act: Action, b: Act)
    requires CanStep(s, a, act) && b in s.acts && b != a && PcOk(s, b)
    requires act.TakeWaiters? && s.acts[b].DoneClaimed? ==> s.acts[b].ctx != s.acts[a].ctx
    ensures PcOk(Step(s, a, act), b)
  {}

  /** The keys a step takes out of the in-flight map. */
  function TakenKeys(s: State, a: Act, act: Action): set<Key>
    requires a in s.acts && Allowed(s.acts[a], act)
    requires act.TakeWaiters? ==> s.acts[a].ctx in s.fetches
  {
    if Retires(s, a, act) then {s.acts[a].key}
    else if act.TakeWaiters? then {s.fetches[s.acts[a].ctx]}
    else if act.DrainTimeout? then s.ledger.inFlight.Keys
    else {}
  }

  lemma KeysStep(s: State, a: Act, act: Action)
    requires CanStep(s, a, act) && !act.Call?
    requires Retires(s, a, act) ==> (a in s.ledger.Waiters(s.acts[a].key) ==> s.acts[a].key in s.ledger.inFlight)
    ensures Step(s, a, act).ledger.inFlight.Keys
         == s.ledger.inFlight.Keys - TakenKeys(s, a, act) + (if Enlists(s, s.acts[a], act) then {s.acts[a].key} else {})
  {}

  /** A key leaves the map only with its fetch retired, or in a shutdown. */
  lemma TakenIsRetired(s: State, a: Act, act: Action, c: Act)
    requires ClaimsInv(s) && FetchesInv(s) && CanStep(s, a, act) && !act.Call?
    requires Outstanding(s, c) && s.fetches[c] in TakenKeys(s, a, act)
    ensures c in Step(s, a, act).retired || s.shuttingDown
  {
    assert PcOk(s, a);
    if Retires(s, a, act) { assert Outstanding(s, a); }
    if act.TakeWaiters? { assert Outstanding(s, s.acts[a].ctx); }
  }

  /** A registration in a list the step does not take stays there. */
  lemma WaiterStays(s: State, a: Act, act: Action, c: Act)
    requires CanStep(s, a, act) && !act.Call?
    requires s.ledger.Where(c).Waiting? && s.ledger.Where(c).key !in TakenKeys(s, a, act)
    requires act.DrainTimeout? ==> s.ledger.Where(c).key in s.ledger.inFlight
    requires c == a ==> !Answers(s, act) && !act.Register?
    requires act.Notify? ==> s.ledger.Where(act.read).HeldBy?
    requires Retires(s, a, act) ==> (s.ledger.Where(a) == Waiting(s.acts[a].key) <==> a in s.ledger.Waiters(s.acts[a].key))
    ensures Step(s, a, act).ledger.Where(c) == s.ledger.Where(c)
  {
    match act
    case TakeWaiters => TakenFrom(s.ledger, a, {s.fetches[s.acts[a].ctx]}, c);
    case HandlerThrows =>
      var key := s.acts[a].key;
      TakenFrom(s.ledger, a, {key}, c);
      TakenFrom(s.ledger.Withdraw(key, a), a, {key}, c);
    case _ =>
  }

  lemma OutstandingStays(s: State, a: Act, act: Action, c: Act)
    requires Inv(s) && CanStep(s, a, act) && !act.Call?
    requires Outstanding(s, c) && s.fetches[c] in s.ledger.inFlight && s.fetches[c] !in TakenKeys(s, a, act)
    ensures Step(s, a, act).ledger.Where(c) == Waiting(s.fetches[c])
  {
    assert Registered(s, c) && PcOk(s, a);
    if act.Notify? { DeliverBalanced(s.ledger, a, act.key, act.read); }
    if Retires(s, a, act) { ThrowerWaits(s, a); }
    WaiterStays(s, a, act, c);
  }

  lemma KeyStep(s: State, a: Act, act: Action, k: Key)
    requires Inv(s) && CanStep(s, a, act) && !act.Call?
    ensures k in Step(s, a, act).ledger.inFlight
       <==> (k in s.ledger.inFlight && k !in TakenKeys(s, a, act)) || (Enlists(s, s.acts[a], act) && k == s.acts[a].key)
  {
    if Retires(s, a, act) { ThrowerWaits(s, a); }
    KeysStep(s, a, act);
  }

  lemma RegisteredStep(s: State, a: Act, act: Action, c: Act)
    requires Inv(s) && CanStep(s, a, act) && !act.Call?
    requires Outstanding(s, c)
    ensures Outstanding(Step(s, a, act), c) ==> Registered(Step(s, a, act), c)
  {
    assert Registered(s, c);
    KeyStep(s, a, act, s.fetches[c]);
    if s.fetches[c] in TakenKeys(s, a, act) {
      TakenIsRetired(s, a, act, c);
    } else if s.fetches[c] in s.ledger.inFlight {
      OutstandingStays(s, a, act, c);
    }
  }

  lemma FetchesStep(s: State, a: Act, act: Action)
    requires Inv(s) && CanStep(s, a, act)
    ensures FetchesInv(Step(s, a, act))
  {
    var s' := Step(s, a, act);
    if act.Call? {
      assert forall c :: Outstanding(s', c) ==> Outstanding(s, c) && Registered(s, c);
    } else {
      forall c | Outstanding(s, c) ensures Outstanding(s', c) ==> Registered(s', c) {
        RegisteredStep(s, a, act, c);
      }
      if Retires(s, a, act) { ThrowerWaits(s, a); }
      KeysStep(s, a, act);
      StartedAlone(s, a, act);
    }
  }

  /** A new fetch is for a key nobody else is fetching, and there is room for it. */
  lemma StartedAlone(s: State, a: Act, act: Action)
    requires CanStep(s, a, act) && !act.Call?
    requires FetchesInv(s)
    ensures var s' := Step(s, a, act);
            && (forall c :: Outstanding(s', c) ==> Outstanding(s, c) || (c == a && Starts(s, s.acts[a], act)))
            && (forall c, d :: Outstanding(s', c) && Outstanding(s', d) && s'.fetches[c] == s'.fetches[d] ==> c == d)
  {
    var s' := Step(s, a, act);
    forall c, d | Outstanding(s', c) && Outstanding(s', d) && s'.fetches[c] == s'.fetches[d] ensures c == d {
      assert c != a ==> Outstanding(s, c);
      assert d != a ==> Outstanding(s, d);
    }
  }

  /** A fetch is retired only with its key out of the map. */
  lemma RetiredIsTaken(s: State, a: Act, act: Action, c: Act)
    requires ClaimsInv(s) && CanStep(s, a, act) && !act.Call?
    requires Outstanding(s, c) && c in Step(s, a, act).retired
    ensures s.fetches[c] in TakenKeys(s, a, act)
  {
    assert PcOk(s, a);
  }

  lemma FetchedStep(s: State, a: Act, act: Action, k: Key)
    requires Inv(s) && CanStep(s, a, act) && !act.Call? && k in Step(s, a, act).ledger.inFlight
    ensures Fetched(Step(s, a, act), k)
  {
    var s' := Step(s, a, act);
    KeyStep(s, a, act, k);
    if k in s.ledger.inFlight && k !in TakenKeys(s, a, act) {
      assert Fetched(s, k);
      var c :| Outstanding(s, c) && s.fetches[c] == k;
      if c in s'.retired { RetiredIsTaken(s, a, act, c); }
      KeptFetch(s, a, act, c);
    } else {
      assert a !in s.fetches by { assert PcOk(s, a); }
      assert Outstanding(s', a) && s'.fetches[a] == k;
    }
  }

  lemma KeptFetch(s: State, a: Act, act: Action, c: Act)
    requires ClaimsInv(s) && CanStep(s, a, act) && c in s.fetches
    ensures var s' := Step(s, a, act); c in s'.fetches && s'.fetches[c] == s.fetches[c]
  {
    assert a in s.acts ==> PcOk(s, a);
  }

  lemma KeysInvStep(s: State, a: Act, act: Action)
    requires Inv(s) && CanStep(s, a, act)
    ensures KeysInv(Step(s, a, act))
  {
    var s' := Step(s, a, act);
    forall k | k in s'.ledger.inFlight ensures Fetched(s', k) {
      if act.Call? {
        assert Fetched(s, k);
        var c :| Outstanding(s, c) && s.fetches[c] == k;
        assert Outstanding(s', c);
      } else {
        FetchedStep(s, a, act, k);
      }
    }
  }

  lemma OthersListsStay(s: State, a: Act, act: Action, b: Act, k: Key)
    requires CanStep(s, a, act) && b != a
    ensures Step(s, a, act).ledger.Local(b, k) == s.ledger.Local(b, k)
  {
    match act
    case TakeWaiters => TakenList(s.ledger, a, {s.fetches[s.acts[a].ctx]}, b, k);
    case DrainTimeout => TakenList(s.ledger, a, s.ledger.inFlight.Keys, b, k);
    case HandlerThrows =>
      var key := s.acts[a].key;
      TakenList(s.ledger, a, {key}, b, k);
      TakenList(s.ledger.Withdraw(key, a), a, {key}, b, k);
    case _ =>
  }

  predicate TouchesList(act: Action) {
    act.Notify? || act.TakeWaiters? || act.DrainTimeout? || act.HandlerThrows?
  }

  lemma HoldsAfter(s: State, a: Act, act: Action)
    requires CanStep(s, a, act) && TouchesList(act)
    ensures Holds(Step(s, a, act), a)
  {}

  lemma ListsUntouched(s: State, a: Act, pc: Pc, act: Action)
    requires Allowed(pc, act) && !TouchesList(act)
    ensures NextLedger(s, a, pc, act).held == s.ledger.held
  {}

  lemma EmptyWhenDone(s: State, a: Act, act: Action, k: Key)
    requires CanStep(s, a, act) && !Holds(Step(s, a, act), a)
    ensures Holds(s, a) ==> s.ledger.Local(a, k) == multiset{}
  {}

  lemma HoldersStep(s: State, a: Act, act: Action)
    requires HoldersInv(s) && CanStep(s, a, act)
    ensures HoldersInv(Step(s, a, act))
  {
    forall b, k ensures Step(s, a, act).ledger.Local(b, k) != multiset{} ==> Holds(Step(s, a, act), b) {
      assert s.ledger.Local(b, k) != multiset{} ==> Holds(s, b);
      if b != a {
        OthersListsStay(s, a, act, b, k);
      } else if TouchesList(act) {
        HoldsAfter(s, a, act);
      } else {
        if !act.Call? { ListsUntouched(s, a, s.acts[a], act); }
        if !Holds(Step(s, a, act), a) { EmptyWhenDone(s, a, act, k); }
      }
    }
  }

  lemma WritesCount(s: State, a: Act, pc: Pc, act: Action)
    requires Allowed(pc, act)
    ensures NextWrites(s, pc, act) == s.pendingWrites - Ind(WritesBack(pc)) + Ind(WritesBack(NextPc(s, a, pc, act)))
    ensures NextPc(s, a, pc, act).DestroyWaiting? ==> pc.DestroyWaiting? || act.Close?
  {}

  lemma WritesStep(s: State, a: Act, act: Action)
    requires WritesInv(s) && CanStep(s, a, act)
    ensures WritesInv(Step(s, a, act))
  {
    if !act.Call? { WritesCount(s, a, s.acts[a], act); }
    Resize(WriteBacks(s), WriteBacks(Step(s, a, act)), a);
  }

  lemma InvStep(s: State, a: Act, act: Action)
    requires Inv(s) && CanStep(s, a, act)
    ensures Inv(Step(s, a, act))
  {
    LedgerStep(s, a, act);
    OwedStep(s, a, act);
    ClaimsStep(s, a, act);
    FetchesStep(s, a, act);
    KeysInvStep(s, a, act);
    HoldersStep(s, a, act);
    WritesStep(s, a, act);
  }

  // ---- runs ------------------------------------------------------------------------------------------

  ghost predicate Follows(s: State, s': State) {
    exists a, act :: CanStep(s, a, act) && s' == Step(s, a, act)
  }

  // A predicate of its own, so that a proof unfolds only the steps it names.
  ghost predicate Linked(tr: seq<State>, i: int) {
    0 <= i < |tr| - 1 && Follows(tr[i], tr[i + 1])
  }

  ghost predicate IsRun(tr: seq<State>) {
    |tr| > 0 && Init(tr[0]) && forall i :: 0 <= i < |tr| - 1 ==> Linked(tr, i)
  }

  lemma {:induction false} InvAlways(tr: seq<State>, i: nat)
    requires IsRun(tr) && i < |tr|
    ensures Inv(tr[i])
  {
    if i == 0 {
      InitInv(tr[0]);
    } else {
      InvAlways(tr, i - 1);
      assert Linked(tr, i - 1);
      InvFollows(tr[i - 1], tr[i]);
    }
  }

  lemma InitInv(s: State)
    requires Init(s)
    ensures Inv(s)
  {
    assert WriteBacks(s) == {};
    assert forall r :: BalancedAt(EMPTY, r);
  }

  lemma InvFollows(s: State, s': State)
    requires Inv(s) && Follows(s, s')
    ensures Inv(s')
  {
    var a, act :| CanStep(s, a, act) && s' == Step(s, a, act);
    InvStep(s, a, act);
  }

  /** A call that returned stays as it returned. */
  lemma {:induction false} ReturnedStays(tr: seq<State>, i: nat, j: nat, r: Act)
    requires IsRun(tr) && i <= j < |tr| && r in tr[i].acts && tr[i].acts[r].ReadReturned?
    ensures r in tr[j].acts && tr[j].acts[r] == tr[i].acts[r]
    decreases j
  {
    if i < j {
      ReturnedStays(tr, i, j - 1, r);
      assert Linked(tr, j - 1);
    }
  }

  /** A read that returned an error is never called back, not at the return and not later. */
  lemma ErrorMeansNoCallback(tr: seq<State>, i: nat, j: nat, r: Act)
    requires IsRun(tr) && i <= j < |tr| && r in tr[i].acts && tr[i].acts[r] == ReadReturned(false)
    ensures tr[j].ledger.calls[r] == 0
    ensures forall k :: r !in tr[j].ledger.Waiters(k)
    ensures forall a, k :: r !in tr[j].ledger.Local(a, k)
  {
    ReturnedStays(tr, i, j, r);
    InvAlways(tr, j);
    assert OwedAt(tr[j], r) && BalancedAt(tr[j].ledger, r);
  }

  /** A read that returned OK has been called back exactly once, or is on exactly one list,
      exactly once: under a key that an unfinished fetch will take, or with a call that is
      about to notify it. */
  lemma OkMeansOneCallback(tr: seq<State>, i: nat, r: Act)
    requires IsRun(tr) && i < |tr| && r in tr[i].acts && tr[i].acts[r] == ReadReturned(true)
    ensures var l := tr[i].ledger;
            || (l.calls[r] == 1 && (forall k :: r !in l.Waiters(k)) && (forall a, k :: r !in l.Local(a, k)))
            || (l.calls[r] == 0 && exists k :: l.Waiters(k)[r] == 1 && Fetched(tr[i], k))
            || (l.calls[r] == 0 && exists a, k :: l.Local(a, k)[r] == 1 && Holds(tr[i], a))
  {
    InvAlways(tr, i);
    var l := tr[i].ledger;
    assert OwedAt(tr[i], r) && BalancedAt(l, r);
    match l.Where(r)
    case Waiting(k) => assert l.Waiters(k)[r] == 1 && k in l.inFlight && Fetched(tr[i], k);
    case HeldBy(a, k) => assert l.Local(a, k)[r] == 1 && Holds(tr[i], a);
    case _ =>
  }

  /** Nobody is ever called back twice. */
  lemma NeverTwice(tr: seq<State>, i: nat, r: Act)
    requires IsRun(tr) && i < |tr|
    ensures tr[i].ledger.calls[r] <= 1
  {
    InvAlways(tr, i);
    assert BalancedAt(tr[i].ledger, r);
  }

  /** Once every call into the bridge has ended and no fetch is outstanding, the reads that
      returned OK have been called back once each, and no other read has. */
  lemma QuietMeansAllAnswered(tr: seq<State>, i: nat, r: Act)
    requires IsRun(tr) && i < |tr|
    requires forall a :: a in tr[i].acts ==> tr[i].acts[a].ReadReturned? || tr[i].acts[a].Over?
    requires forall c :: !Outstanding(tr[i], c)
    ensures tr[i].ledger.calls[r] == Ind(r in tr[i].acts && tr[i].acts[r] == ReadReturned(true))
    ensures tr[i].ledger.inFlight == map[] && tr[i].pendingWrites == 0
  {
    InvAlways(tr, i);
    var s := tr[i];
    assert OwedAt(s, r) && BalancedAt(s.ledger, r);
    assert forall a :: !Holds(s, a);
    assert forall k :: k in s.ledger.inFlight ==> Fetched(s, k);
    assert s.ledger.inFlight.Keys == {};
    assert WriteBacks(s) == {};
    assert forall a, k :: s.ledger.Local(a, k) == multiset{};
    assert forall k :: s.ledger.Waiters(k) == multiset{};
    assert forall a, k :: s.ledger.Where(r) != HeldBy(a, k) && s.ledger.Where(r) != Waiting(k);
  }

  /** One fetch per key: the keys in flight are exactly those of the outstanding fetches
      (until a drain gives up on them), each fetched by one, within the limit. */
  lemma OneFetchPerKey(tr: seq<State>, i: nat, k: Key)
    requires IsRun(tr) && i < |tr|
    ensures k in tr[i].ledger.inFlight ==> Fetched(tr[i], k)
    ensures !tr[i].shuttingDown && Fetched(tr[i], k) ==> k in tr[i].ledger.inFlight
    ensures forall c, d :: Outstanding(tr[i], c) && Outstanding(tr[i], d) && tr[i].fetches[c] == tr[i].fetches[d] ==> c == d
    ensures tr[i].maxInFlight > 0 ==> |tr[i].ledger.inFlight| <= tr[i].maxInFlight
  {
    InvAlways(tr, i);
    if Fetched(tr[i], k) {
      var c :| Outstanding(tr[i], c) && tr[i].fetches[c] == k;
      assert Registered(tr[i], c);
    }
  }

  /** No write-back touches the cache once it is gone: a call about to write finds it open,
      and the cache goes only with no write-back registered and none to be registered again. */
  lemma WriteBackFindsCache(tr: seq<State>, i: nat, a: Act)
    requires IsRun(tr) && i < |tr|
    ensures CanStep(tr[i], a, WriteBack) ==> tr[i].cacheOpen
    ensures !tr[i].cacheOpen ==> tr[i].closed && WriteBacks(tr[i]) == {}
  {
    InvAlways(tr, i);
    if a in tr[i].acts && tr[i].acts[a].DoneWriting? { assert a in WriteBacks(tr[i]); }
  }

  /** A read that registers outside a shutdown and within the limit waits under its key, once, and
      that key has its fetch: the read's own exactly when the key was not in flight. */
  lemma RegisterJoins(tr: seq<State>, i: nat, a: Act)
    requires IsRun(tr) && i < |tr| && CanStep(tr[i], a, Register)
    requires !tr[i].shuttingDown && !Full(tr[i], tr[i].acts[a].key)
    ensures var s, s', key := tr[i], Step(tr[i], a, Register), tr[i].acts[a].key;
            && s'.ledger.Waiters(key)[a] == 1 && Fetched(s', key)
            && (Outstanding(s', a) <==> key !in s.ledger.inFlight)
            && (s'.acts[a].ReadFetching? <==> key !in s.ledger.inFlight)
  {
    InvAlways(tr, i);
    var key := tr[i].acts[a].key;
    RegisteredOnce(tr[i], a, key);
    assert key in Step(tr[i], a, Register).ledger.inFlight;
    FetchedStep(tr[i], a, Register, key);
  }

  lemma RegisteredOnce(s: State, a: Act, key: Key)
    requires Balanced(s.ledger) && OwedOnce(s) && ClaimsInv(s) && CanStep(s, a, Register)
    requires key == s.acts[a].key && !Rejects(s, key)
    ensures var s' := Step(s, a, Register);
            && s'.ledger.Waiters(key)[a] == 1
            && (Outstanding(s', a) <==> key !in s.ledger.inFlight)
            && (s'.acts[a].ReadFetching? <==> key !in s.ledger.inFlight)
  {
    assert OwedAt(s, a) && BalancedAt(s.ledger, a) && PcOk(s, a);
    assert s.ledger.Where(a) == Nowhere && a !in s.fetches;
    assert s.ledger.Waiters(key)[a] == 0;
  }

  // ---- drains ---------------------------------------------------------------------------------------

  /** Shutting down, with nothing in flight. */
  predicate Drained(s: State) { s.shuttingDown && s.ledger.inFlight == map[] }

  /** The step by which a drain stops waiting. */
  predicate EndsWait(act: Action) { act.DrainIdle? || act.DrainTimeout? }

  /** A drain, or the drain of a destroy, that waits no more. */
  predicate PastWait(pc: Pc) { pc.DrainNotifying? || pc.DestroyClosing? || pc.DestroyWaiting? }

  ghost predicate DrainInv(s: State) {
    && (forall a :: a in s.acts && PastWait(s.acts[a]) ==> Drained(s))
    && (!s.cacheOpen ==> Drained(s))
  }

  lemma NothingInFlight(s: State)
    requires s.ledger.inFlight.Keys == {}
    ensures s.ledger.inFlight == map[]
  {}

  /** A drain leaves nothing in flight, whether it ran idle or timed out. */
  lemma WaitEndsDrained(s: State, a: Act, act: Action)
    requires Inv(s) && CanStep(s, a, act) && EndsWait(act)
    ensures Drained(Step(s, a, act))
  {
    assert PcOk(s, a);
    KeysStep(s, a, act);
    NothingInFlight(Step(s, a, act));
  }

  /** And nothing is put in flight again. */
  lemma DrainedStays(s: State, a: Act, act: Action)
    requires Inv(s) && CanStep(s, a, act) && Drained(s)
    ensures Drained(Step(s, a, act))
  {
    if !act.Call? {
      if Retires(s, a, act) { ThrowerWaits(s, a); }
      KeysStep(s, a, act);
      NothingInFlight(Step(s, a, act));
    }
  }

  lemma PastWaitSince(s: State, a: Act, pc: Pc, act: Action)
    requires Allowed(pc, act) && PastWait(NextPc(s, a, pc, act))
    ensures PastWait(pc) || EndsWait(act)
  {}

  lemma DrainStep(s: State, a: Act, act: Action)
    requires Inv(s) && DrainInv(s) && CanStep(s, a, act)
    ensures DrainInv(Step(s, a, act))
  {
    var s' := Step(s, a, act);
    if EndsWait(act) { WaitEndsDrained(s, a, act); }
    if Drained(s) { DrainedStays(s, a, act); }
    forall b | b in s'.acts && PastWait(s'.acts[b]) ensures Drained(s') {
      if b == a && !act.Call? { PastWaitSince(s, a, s.acts[a], act); }
    }
  }

  lemma {:induction false} DrainInvAlways(tr: seq<State>, i: nat)
    requires IsRun(tr) && i < |tr|
    ensures DrainInv(tr[i])
  {
    if i > 0 {
      DrainInvAlways(tr, i - 1);
      InvAlways(tr, i - 1);
      assert Linked(tr, i - 1);
      DrainInvFollows(tr[i - 1], tr[i]);
    }
  }

  lemma DrainInvFollows(s: State, s': State)
    requires Inv(s) && DrainInv(s) && Follows(s, s')
    ensures DrainInv(s')
  {
    var a, act :| CanStep(s, a, act) && s' == Step(s, a, act);
    DrainStep(s, a, act);
  }

  lemma DrainedFollows(s: State, s': State)
    requires Inv(s) && Follows(s, s') && Drained(s)
    ensures Drained(s')
  {
    var a, act :| CanStep(s, a, act) && s' == Step(s, a, act);
    DrainedStays(s, a, act);
  }

  lemma {:induction false} DrainedOn(tr: seq<State>, i: nat, j: nat)
    requires IsRun(tr) && i <= j < |tr| && Drained(tr[i])
    ensures Drained(tr[j])
    decreases j
  {
    if i < j {
      DrainedOn(tr, i, j - 1);
      InvAlways(tr, j - 1);
      assert Linked(tr, j - 1);
      DrainedFollows(tr[j - 1], tr[j]);
    }
  }

  /** From the step at which any drain stops waiting, idle or timed out, nothing is in flight, in
      every later state. */
  lemma DrainEmptiesTheMap(tr: seq<State>, i: nat, j: nat, a: Act, act: Action)
    requires IsRun(tr) && i < j < |tr| && EndsWait(act) && CanStep(tr[i], a, act) && tr[i + 1] == Step(tr[i], a, act)
    ensures tr[j].ledger.inFlight == map[] && tr[j].shuttingDown
  {
    InvAlways(tr, i);
    WaitEndsDrained(tr[i], a, act);
    DrainedOn(tr, i + 1, j);
  }

  /** Once the cache is gone every read that returned OK has been called back once, or is in the
      list of a call that is still notifying, whatever became of its fetch; and the first, once
      no call is. */
  lemma DestroyAnswersAll(tr: seq<State>, i: nat, r: Act)
    requires IsRun(tr) && i < |tr| && !tr[i].cacheOpen && r in tr[i].acts && tr[i].acts[r] == ReadReturned(true)
    ensures var l := tr[i].ledger;
            l.calls[r] == 1 || (l.calls[r] == 0 && exists a, k :: l.Local(a, k)[r] == 1 && Holds(tr[i], a))
    ensures (forall a :: !Holds(tr[i], a)) ==> tr[i].ledger.calls[r] == 1
  {
    DrainInvAlways(tr, i);
    OkMeansOneCallback(tr, i, r);
    assert forall k :: tr[i].ledger.Waiters(k) == multiset{};
  }
}
