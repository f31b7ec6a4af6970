/** Hit counting under concurrency: records, key flushes, flushes of all alternates and full
    sweeps by any number of threads, with a flush callback installed.

    One step is one stripe critical section up to its access to the shared entry counter,
    one access to the counter, or one callback.  A stripe's mutex is held from the step that
    takes it to the step that releases it. */
module HitTracker {

  /** A key (standing for its hash too) and one of its alternates. */
  datatype TKey = TKey(key: nat, alternate: nat)

  type Tid = nat

  datatype Lock = Unlocked | LockedBy(owner: Tid, adding: bool)

  datatype Stripe = Stripe(pending: map<TKey, nat>, lock: Lock)

  datatype Plan =
    | Resting
    | Adding(stripe: nat)                // an entry was emplaced, the counter not yet raised
    | FlushingKey(stripe: nat)           // the entry was erased, the counter not yet lowered
    | FlushingAll(stripe: nat, key: nat) // walking the stripe
    | Delivering                         // calling back what flush_key or flush_all_alternates took
    | Sweeping(next: nat)                // flush_now: stripes below next are drained

  /** `taken` is the thread's snapshot, `owed` the entries it removed but has not subtracted. */
  datatype Thread = Thread(plan: Plan, taken: map<TKey, nat>, owed: nat)

  datatype State = State(
    stripes: seq<Stripe>,
    threads: seq<Thread>,
    entries: int,                        // the shared counter
    drops: nat,
    hardCap: nat,
    recorded: multiset<TKey>, dropped: multiset<TKey>, delivered: multiset<TKey>)   // history

  datatype Action =
    | Record(k: TKey, pastGrace: bool)
    | CountUp
    | FlushKey(k: TKey)
    | FlushAll(key: nat)
    | TakeOne(k: TKey)
    | EndWalk
    | FlushNow
    | TakeStripe
    | Subtract
    | Deliver(k: TKey)
    | Finish

  function Get(m: map<TKey, nat>, k: TKey): nat { if k in m then m[k] else 0 }

  function StripeOf(s: State, key: nat): nat
    requires |s.stripes| > 0
  {
    key % |s.stripes|
  }

  // ---- steps ----------------------------------------------------------------------------------------

  /** The plan allows the step. */
  predicate Allowed(s: State, th: Thread, act: Action) {
    match act
    case Record(_, _) => th.plan.Resting?
    case CountUp => th.plan.Adding?
    case FlushKey(_) => th.plan.Resting?
    case FlushAll(_) => th.plan.Resting?
    case TakeOne(k) => th.plan.FlushingAll? && th.owed == 0 && k.key == th.plan.key
    case EndWalk => th.plan.FlushingAll? && th.owed == 0
    case FlushNow => th.plan.Resting?
    case TakeStripe => th.plan.Sweeping? && th.owed == 0 && th.taken == map[] && th.plan.next < |s.stripes|
    case Subtract => th.owed > 0
    case Deliver(k) => (th.plan.Delivering? || th.plan.Sweeping?) && th.owed == 0 && k in th.taken
    case Finish => (th.plan.Delivering? || (th.plan.Sweeping? && th.plan.next == |s.stripes|)) && th.owed == 0 && th.taken == map[]
  }

  /** The stripe the step works on (any, when it works on none). */
  function Touched(s: State, th: Thread, act: Action): nat
    requires |s.stripes| > 0
  {
    match act
    case Record(k, _) => StripeOf(s, k.key)
    case FlushKey(k) => StripeOf(s, k.key)
    case FlushAll(key) => StripeOf(s, key)
    case TakeStripe => if th.plan.Sweeping? then th.plan.next else 0
    case _ => if th.plan.Adding? || th.plan.FlushingKey? || th.plan.FlushingAll? then th.plan.stripe else 0
  }

  predicate TakesLock(act: Action) { act.Record? || act.FlushKey? || act.FlushAll? || act.TakeStripe? }

  predicate CanStep(s: State, t: Tid, act: Action) {
    && t < |s.threads| && |s.stripes| > 0
    && var th, i := s.threads[t], Touched(s, s.threads[t], act);
       && Allowed(s, th, act) && i < |s.stripes|
       && (TakesLock(act) ==> s.stripes[i].lock.Unlocked?)
       && (act.TakeOne? ==> act.k in s.stripes[i].pending)
       && (act.EndWalk? ==> forall k :: k in s.stripes[i].pending ==> k.key != th.plan.key)
  }

  /** A hit that needs a new entry is dropped past the hard cap and the grace window. */
  predicate Drops(s: State, st: Stripe, act: Action) {
    act.Record? && act.k !in st.pending && s.entries > s.hardCap && act.pastGrace
  }

  function NextStripe(s: State, t: Tid, th: Thread, st: Stripe, act: Action): Stripe {
    match act
    case Record(k, _) =>
      if Drops(s, st, act) then st
      else if k in st.pending then st.(pending := st.pending[k := st.pending[k] + 1])
      else Stripe(st.pending[k := 1], LockedBy(t, true))
    case CountUp => st.(lock := Unlocked)
    case FlushKey(k) => if k in st.pending then Stripe(st.pending - {k}, LockedBy(t, false)) else st
    case FlushAll(_) => st.(lock := LockedBy(t, false))
    case TakeOne(k) => st.(pending := st.pending - {k})
    case EndWalk => st.(lock := Unlocked)
    case TakeStripe => st.(pending := map[])
    case Subtract => if th.plan.FlushingKey? then st.(lock := Unlocked) else st
    case _ => st
  }

  function NextThread(s: State, i: nat, th: Thread, st: Stripe, act: Action): Thread {
    match act
    case Record(k, _) => if Drops(s, st, act) || k in st.pending then th else th.(plan := Adding(i))
    case CountUp => th.(plan := Resting)
    case FlushKey(k) => if k in st.pending then Thread(FlushingKey(i), map[k := st.pending[k]], 1) else th
    case FlushAll(key) => th.(plan := FlushingAll(i, key))
    case TakeOne(k) => th.(taken := th.taken[k := Get(th.taken, k) + Get(st.pending, k)], owed := 1)
    case EndWalk => th.(plan := Delivering)
    case FlushNow => th.(plan := Sweeping(0))
    case TakeStripe => Thread(Sweeping(i + 1), st.pending, |st.pending|)
    case Subtract => th.(owed := 0, plan := if th.plan.FlushingKey? then Delivering else th.plan)
    case Deliver(k) => th.(taken := th.taken - {k})
    case Finish => th.(plan := Resting)
  }

  function Step(s: State, t: Tid, act: Action): (s': State)
    requires CanStep(s, t, act)
  {
    var th, i := s.threads[t], Touched(s, s.threads[t], act);
    var st := s.stripes[i];
    var drops, owed := Drops(s, st, act), th.owed as int;
    State(s.stripes[i := NextStripe(s, t, th, st, act)],
          s.threads[t := NextThread(s, i, th, st, act)],
          s.entries + (if act.CountUp? then 1 else if act.Subtract? then -owed else 0),
          if drops then s.drops + 1 else s.drops,
          s.hardCap,
          if act.Record? && !drops then s.recorded + multiset{act.k} else s.recorded,
          if drops then s.dropped + multiset{act.k} else s.dropped,
          if act.Deliver? then s.delivered[act.k := s.delivered[act.k] + Get(th.taken, act.k)] else s.delivered)
  }

  predicate Init(s: State) {
    && |s.stripes| > 0 && (forall i :: 0 <= i < |s.stripes| ==> s.stripes[i] == Stripe(map[], Unlocked))
    && (forall t :: 0 <= t < |s.threads| ==> s.threads[t] == Thread(Resting, map[], 0))
    && s.entries == 0 && s.drops == 0
    && s.recorded == multiset{} && s.dropped == multiset{} && s.delivered == multiset{}
  }

  // ---- sums -------------------------------------------------------------------------------------------

  function Sum<T>(xs: seq<T>, f: T -> int): int {
    if xs == [] then 0 else Sum(xs[..|xs| - 1], f) + f(xs[|xs| - 1])
  }

  lemma {:induction false} SumUpdate<T>(xs: seq<T>, i: nat, x: T, f: T -> int)
    requires i < |xs|
    ensures Sum(xs[i := x], f) == Sum(xs, f) - f(xs[i]) + f(x)
  {
    var n := |xs| - 1;
    if i == n {
      assert xs[i := x][..n] == xs[..n];
    } else {
      assert xs[i := x][..n] == xs[..n][i := x];
      SumUpdate(xs[..n], i, x, f);
    }
  }

  lemma {:induction false} SumNonNegative<T>(xs: seq<T>, f: T -> int)
    requires forall i :: 0 <= i < |xs| ==> f(xs[i]) >= 0
    ensures Sum(xs, f) >= 0
  {
    if xs != [] {
      assert forall i :: 0 <= i < |xs| - 1 ==> xs[..|xs| - 1][i] == xs[i];
      SumNonNegative(xs[..|xs| - 1], f);
    }
  }

  lemma {:induction false} SumMinus<T>(xs: seq<T>, f: T -> int, g: T -> int, h: T -> int)
    requires forall i :: 0 <= i < |xs| ==> h(xs[i]) == f(xs[i]) - g(xs[i])
    ensures Sum(xs, h) == Sum(xs, f) - Sum(xs, g)
  {
    if xs != [] {
      assert forall i :: 0 <= i < |xs| - 1 ==> xs[..|xs| - 1][i] == xs[i];
      SumMinus(xs[..|xs| - 1], f, g, h);
    }
  }

  lemma {:induction false} SumZero<T>(xs: seq<T>, f: T -> int)
    requires forall i :: 0 <= i < |xs| ==> f(xs[i]) == 0
    ensures Sum(xs, f) == 0
  {
    if xs != [] {
      assert forall i :: 0 <= i < |xs| - 1 ==> xs[..|xs| - 1][i] == xs[i];
      SumZero(xs[..|xs| - 1], f);
    }
  }

  /** Hits on k in a thread's snapshot. */
  function Taken(k: TKey): Thread -> int { (th: Thread) => Get(th.taken, k) as int }

  function Owed(): Thread -> int { (th: Thread) => th.owed as int }

  function Size(): Stripe -> int { (st: Stripe) => |st.pending| as int }

  /** 1 for a stripe whose lock is held by a record that has emplaced an entry and not counted it. */
  function Uncounted(): Stripe -> int { (st: Stripe) => if st.lock.LockedBy? && st.lock.adding then 1 else 0 }

  /** Entries of a stripe that the counter has been raised for. */
  function Counted(): Stripe -> int {
    (st: Stripe) => |st.pending| - if st.lock.LockedBy? && st.lock.adding then 1 else 0
  }

  // ---- invariant --------------------------------------------------------------------------------------

  function Pending(s: State, k: TKey): nat
    requires |s.stripes| > 0
  {
    Get(s.stripes[StripeOf(s, k.key)].pending, k)
  }

  /** Every recorded hit on k was delivered, is pending, or is in one undelivered snapshot. */
  predicate Conserved(s: State, k: TKey)
    requires |s.stripes| > 0
  {
    s.recorded[k] == s.delivered[k] + Pending(s, k) + Sum(s.threads, Taken(k))
  }

  predicate HoldsStripe(plan: Plan) { plan.Adding? || plan.FlushingKey? || plan.FlushingAll? }

  predicate ThreadOk(s: State, t: Tid)
    requires t < |s.threads|
  {
    var th := s.threads[t];
    && (HoldsStripe(th.plan) ==> th.plan.stripe < |s.stripes| && s.stripes[th.plan.stripe].lock == LockedBy(t, th.plan.Adding?))
    && (th.plan.Resting? || th.plan.Adding? ==> th.taken == map[] && th.owed == 0)
    && (th.plan.Sweeping? ==> th.plan.next <= |s.stripes|)
  }

  predicate StripeOk(s: State, i: nat)
    requires i < |s.stripes|
  {
    && (forall k :: k in s.stripes[i].pending ==> k.key % |s.stripes| == i)
    && var lock := s.stripes[i].lock;
       lock.LockedBy? ==>
         && (lock.adding ==> s.stripes[i].pending != map[])
         && lock.owner < |s.threads| && HoldsStripe(s.threads[lock.owner].plan) && s.threads[lock.owner].plan.stripe == i
  }

  ghost predicate Inv(s: State) {
    && |s.stripes| > 0
    && (forall k :: Conserved(s, k))
    && (forall t :: 0 <= t < |s.threads| ==> ThreadOk(s, t))
    && (forall i :: 0 <= i < |s.stripes| ==> StripeOk(s, i))
    && s.entries == Sum(s.stripes, Counted()) + Sum(s.threads, Owed())
    && s.drops == |s.dropped|
  }

  // ---- every step keeps it ------------------------------------------------------------------------------

  /** A step moves hits on k between the pending set, the thread's snapshot and the callback. */
  lemma MovedHits(s: State, t: Tid, act: Action, k: TKey)
    requires CanStep(s, t, act)
    requires ThreadOk(s, t) && StripeOk(s, Touched(s, s.threads[t], act))
    ensures Step(s, t, act).recorded[k] - s.recorded[k]
         == Step(s, t, act).delivered[k] - s.delivered[k] + Pending(Step(s, t, act), k) - Pending(s, k)
          + Get(Step(s, t, act).threads[t].taken, k) - Get(s.threads[t].taken, k)
  {}

  lemma ConservedStep(s: State, t: Tid, act: Action, k: TKey)
    requires CanStep(s, t, act) && Conserved(s, k)
    requires ThreadOk(s, t) && StripeOk(s, Touched(s, s.threads[t], act))
    ensures Conserved(Step(s, t, act), k)
  {
    var th, i := s.threads[t], Touched(s, s.threads[t], act);
    MovedHits(s, t, act, k);
    SumUpdate(s.threads, t, NextThread(s, i, th, s.stripes[i], act), Taken(k));
  }

  lemma MovedEntries(s: State, t: Tid, act: Action)
    requires CanStep(s, t, act) && ThreadOk(s, t)
    ensures var i := Touched(s, s.threads[t], act);
            && Step(s, t, act).entries - s.entries
            == Counted()(Step(s, t, act).stripes[i]) - Counted()(s.stripes[i]) + Step(s, t, act).threads[t].owed - s.threads[t].owed
  {
    var th, i := s.threads[t], Touched(s, s.threads[t], act);
    var p := s.stripes[i].pending;
    if act.Record? { AddedSize(p, act.k, 1); }
    if act.FlushKey? || act.TakeOne? { RemovedSize(p, act.k); }
  }

  lemma AddedSize(m: map<TKey, nat>, k: TKey, v: nat)
    ensures |m[k := v]| == |m| + if k in m then 0 else 1
  {
    assert m[k := v].Keys == m.Keys + {k};
  }

  lemma RemovedSize(m: map<TKey, nat>, k: TKey)
    ensures |m - {k}| == |m| - if k in m then 1 else 0
  {
    assert (m - {k}).Keys == m.Keys - {k};
  }

  lemma EntriesStep(s: State, t: Tid, act: Action)
    requires CanStep(s, t, act) && ThreadOk(s, t)
    requires s.entries == Sum(s.stripes, Counted()) + Sum(s.threads, Owed())
    ensures Step(s, t, act).entries == Sum(Step(s, t, act).stripes, Counted()) + Sum(Step(s, t, act).threads, Owed())
  {
    var th, i := s.threads[t], Touched(s, s.threads[t], act);
    MovedEntries(s, t, act);
    SumUpdate(s.stripes, i, NextStripe(s, t, th, s.stripes[i], act), Counted());
    SumUpdate(s.threads, t, NextThread(s, i, th, s.stripes[i], act), Owed());
  }

  lemma OwnThreadOk(s: State, t: Tid, act: Action)
    requires CanStep(s, t, act) && ThreadOk(s, t)
    ensures ThreadOk(Step(s, t, act), t)
  {}

  lemma OtherThreadOk(s: State, t: Tid, act: Action, u: Tid)
    requires CanStep(s, t, act) && ThreadOk(s, t) && u < |s.threads| && u != t && ThreadOk(s, u)
    ensures ThreadOk(Step(s, t, act), u)
  {}

  lemma TouchedStripeOk(s: State, t: Tid, act: Action)
    requires CanStep(s, t, act) && ThreadOk(s, t) && StripeOk(s, Touched(s, s.threads[t], act))
    ensures StripeOk(Step(s, t, act), Touched(s, s.threads[t], act))
  {
    var i := Touched(s, s.threads[t], act);
    if act.Record? { assert act.k in s.stripes[i].pending[act.k := 1]; }
  }

  lemma OtherStripeOk(s: State, t: Tid, act: Action, j: nat)
    requires CanStep(s, t, act) && j < |s.stripes| && j != Touched(s, s.threads[t], act) && StripeOk(s, j)
    ensures StripeOk(Step(s, t, act), j)
  {}

  lemma InvStep(s: State, t: Tid, act: Action)
    requires Inv(s) && CanStep(s, t, act)
    ensures Inv(Step(s, t, act))
  {
    var s', i := Step(s, t, act), Touched(s, s.threads[t], act);
    assert ThreadOk(s, t) && StripeOk(s, i);
    forall k ensures Conserved(s', k) {
      assert Conserved(s, k);
      ConservedStep(s, t, act, k);
    }
    forall u | 0 <= u < |s'.threads| ensures ThreadOk(s', u) {
      assert ThreadOk(s, u);
      if u == t { OwnThreadOk(s, t, act); } else { OtherThreadOk(s, t, act, u); }
    }
    forall j | 0 <= j < |s'.stripes| ensures StripeOk(s', j) {
      assert StripeOk(s, j);
      if j == i { TouchedStripeOk(s, t, act); } else { OtherStripeOk(s, t, act, j); }
    }
    EntriesStep(s, t, act);
  }

  // ---- runs -----------------------------------------------------------------------------------------------

  ghost predicate Follows(s: State, s': State) {
    exists t, act :: CanStep(s, t, act) && s' == Step(s, t, act)
  }

  ghost predicate IsRun(tr: seq<State>) {
    |tr| > 0 && Init(tr[0]) && forall i :: 0 <= i < |tr| - 1 ==> Follows(tr[i], tr[i + 1])
  }

  lemma {:induction false} InvAlways(tr: seq<State>, i: nat)
    requires IsRun(tr) && i < |tr|
    ensures Inv(tr[i])
  {
    if i == 0 {
      forall k ensures Conserved(tr[0], k) { SumZero(tr[0].threads, Taken(k)); }
      SumZero(tr[0].threads, Owed());
      SumZero(tr[0].stripes, Counted());
    } else {
      InvAlways(tr, i - 1);
      assert Follows(tr[i - 1], tr[i]);
      var t, act :| CanStep(tr[i - 1], t, act) && tr[i] == Step(tr[i - 1], t, act);
      InvStep(tr[i - 1], t, act);
    }
  }

  /** For every key and alternate: hits recorded == hits passed to the callback + the pending
      delta + the deltas in snapshots not yet delivered. */
  lemma HitsConserved(tr: seq<State>, i: nat, k: TKey)
    requires IsRun(tr) && i < |tr|
    ensures |tr[i].stripes| > 0
    ensures tr[i].recorded[k] == tr[i].delivered[k] + Pending(tr[i], k) + Sum(tr[i].threads, Taken(k))
  {
    InvAlways(tr, i);
    assert Conserved(tr[i], k);
  }

  /** When every thread rests, the hits recorded but not delivered are the pending ones. */
  lemma RestingMeansPending(tr: seq<State>, i: nat, k: TKey)
    requires IsRun(tr) && i < |tr|
    requires forall t :: 0 <= t < |tr[i].threads| ==> tr[i].threads[t].plan.Resting?
    ensures |tr[i].stripes| > 0 && tr[i].recorded[k] == tr[i].delivered[k] + Pending(tr[i], k)
  {
    HitsConserved(tr, i, k);
    InvAlways(tr, i);
    forall t | 0 <= t < |tr[i].threads| ensures Taken(k)(tr[i].threads[t]) == 0 {
      assert ThreadOk(tr[i], t);
    }
    SumZero(tr[i].threads, Taken(k));
  }

  /** The counter is the stripes' total size, less the entries emplaced and not yet counted,
      plus the entries removed and not yet subtracted, and never negative.  So it is the
      total exactly when these two are equal in number. */
  lemma CounterBalance(tr: seq<State>, i: nat)
    requires IsRun(tr) && i < |tr|
    ensures tr[i].entries == Sum(tr[i].stripes, Size()) - Sum(tr[i].stripes, Uncounted()) + Sum(tr[i].threads, Owed())
    ensures tr[i].entries >= 0
    ensures tr[i].entries == Sum(tr[i].stripes, Size()) <==> Sum(tr[i].threads, Owed()) == Sum(tr[i].stripes, Uncounted())
  {
    InvAlways(tr, i);
    var s := tr[i];
    forall j | 0 <= j < |s.stripes| ensures Counted()(s.stripes[j]) >= 0 {
      assert StripeOk(s, j);
      assert s.stripes[j].pending != map[] ==> |s.stripes[j].pending| > 0;
    }
    SumNonNegative(s.stripes, Counted());
    SumNonNegative(s.threads, Owed());
    CountedIsSizeLess(s.stripes);
  }

  lemma CountedIsSizeLess(stripes: seq<Stripe>)
    ensures Sum(stripes, Counted()) == Sum(stripes, Size()) - Sum(stripes, Uncounted())
  {
    SumMinus(stripes, Size(), Uncounted(), Counted());
  }

  /** With all threads at rest the counter is the number of pending entries. */
  lemma RestingCounterIsTotal(tr: seq<State>, i: nat)
    requires IsRun(tr) && i < |tr|
    requires forall t :: 0 <= t < |tr[i].threads| ==> tr[i].threads[t].plan.Resting?
    ensures tr[i].entries == Sum(tr[i].stripes, Size())
  {
    CounterBalance(tr, i);
    InvAlways(tr, i);
    var s := tr[i];
    forall t | 0 <= t < |s.threads| ensures Owed()(s.threads[t]) == 0 { assert ThreadOk(s, t); }
    forall j | 0 <= j < |s.stripes| ensures Uncounted()(s.stripes[j]) == 0 { assert StripeOk(s, j); }
    SumZero(s.threads, Owed());
    SumZero(s.stripes, Uncounted());
  }

  lemma Extend(tr: seq<State>, t: Tid, act: Action) returns (tr': seq<State>)
    requires IsRun(tr) && CanStep(tr[|tr| - 1], t, act)
    ensures IsRun(tr') && tr'[|tr'| - 1] == Step(tr[|tr| - 1], t, act)
  {
    var s := tr[|tr| - 1];
    tr' := tr + [Step(s, t, act)];
    assert Follows(s, Step(s, t, act));
    forall i | 0 <= i < |tr'| - 1 ensures Follows(tr'[i], tr'[i + 1]) {
      if i < |tr| - 1 { assert Follows(tr[i], tr[i + 1]); }
    }
  }

  lemma OneEntryRun(k: TKey) returns (tr: seq<State>)
    ensures IsRun(tr)
    ensures var s := tr[|tr| - 1];
            s.stripes == [Stripe(map[k := 1], Unlocked)] && s.threads == [Thread(Resting, map[], 0)] && s.entries == 1
  {
    tr := [State([Stripe(map[], Unlocked)], [Thread(Resting, map[], 0)], 0, 0, 0, multiset{}, multiset{}, multiset{})];
    tr := Extend(tr, 0, Record(k, false));
    tr := Extend(tr, 0, CountUp);
  }

  /** In between it is not: a sweep that has emptied a stripe and not yet subtracted leaves the
      counter at one with no entry pending. */
  lemma CounterRunsAhead(k: TKey) returns (tr: seq<State>)
    ensures IsRun(tr)
    ensures tr[|tr| - 1].entries == 1 && Sum(tr[|tr| - 1].stripes, Size()) == 0
  {
    tr := OneEntryRun(k);
    tr := Extend(tr, 0, FlushNow);
    tr := Extend(tr, 0, TakeStripe);
    SumZero(tr[|tr| - 1].stripes, Size());
  }

  /** A hit is dropped only while its key is not pending and the counter is past the hard cap. */
  lemma DropsAreCounted(tr: seq<State>, i: nat, k: TKey)
    requires IsRun(tr) && i < |tr|
    ensures tr[i].drops == |tr[i].dropped|
    ensures i + 1 < |tr| && tr[i + 1].dropped[k] > tr[i].dropped[k] ==>
      |tr[i].stripes| > 0 && Pending(tr[i], k) == 0 && tr[i].entries > tr[i].hardCap && tr[i + 1].drops == tr[i].drops + 1
  {
    InvAlways(tr, i);
    if i + 1 < |tr| { assert Follows(tr[i], tr[i + 1]); }
  }

  /** A key that stays pending loses no hit. */
  lemma {:induction false} PendingKeyLosesNothing(tr: seq<State>, i: nat, j: nat, k: TKey)
    requires IsRun(tr) && i <= j < |tr|
    requires forall m :: i <= m < j ==> |tr[m].stripes| > 0 && Pending(tr[m], k) > 0
    ensures tr[j].dropped[k] == tr[i].dropped[k]
    decreases j
  {
    if i < j {
      PendingKeyLosesNothing(tr, i, j - 1, k);
      assert Pending(tr[j - 1], k) > 0;
      assert Follows(tr[j - 1], tr[j]);
    }
  }

  // ---- flushes deliver --------------------------------------------------------------------------------

  lemma SnapshotStep(s: State, u: Tid, act: Action, t: Tid, k: TKey)
    requires Inv(s) && CanStep(s, u, act) && t < |s.threads|
    ensures var s' := Step(s, u, act);
            && t < |s'.threads|
            && s'.delivered[k] + Get(s'.threads[t].taken, k) >= s.delivered[k] + Get(s.threads[t].taken, k)
  {
    assert ThreadOk(s, u);
  }

  /** Hits in a thread's snapshot are passed to the callback before it rests. */
  lemma {:induction false} SnapshotsAreDelivered(tr: seq<State>, i: nat, j: nat, t: Tid, k: TKey)
    requires IsRun(tr) && i <= j < |tr| && t < |tr[i].threads|
    ensures t < |tr[j].threads|
    ensures tr[j].delivered[k] + Get(tr[j].threads[t].taken, k) >= tr[i].delivered[k] + Get(tr[i].threads[t].taken, k)
    decreases j
  {
    if i < j {
      SnapshotsAreDelivered(tr, i, j - 1, t, k);
      InvAlways(tr, j - 1);
      assert Follows(tr[j - 1], tr[j]);
      var u, act :| CanStep(tr[j - 1], u, act) && tr[j] == Step(tr[j - 1], u, act);
      SnapshotStep(tr[j - 1], u, act, t, k);
    }
  }

  /** A flush of k takes the whole pending delta. */
  lemma FlushTakes(s: State, t: Tid, k: TKey)
    requires Inv(s) && CanStep(s, t, FlushKey(k))
    ensures var s' := Step(s, t, FlushKey(k));
            Pending(s', k) == 0 && Get(s'.threads[t].taken, k) == Pending(s, k)
  {
    assert ThreadOk(s, t);
  }

  /** A sweep takes everything pending in the stripe it comes to. */
  lemma SweepTakes(s: State, t: Tid, k: TKey)
    requires Inv(s) && CanStep(s, t, TakeStripe) && StripeOf(s, k.key) == s.threads[t].plan.next
    ensures var s' := Step(s, t, TakeStripe);
            Pending(s', k) == 0 && Get(s'.threads[t].taken, k) == Pending(s, k) && s'.threads[t].plan == Sweeping(s.threads[t].plan.next + 1)
  {
    assert ThreadOk(s, t);
  }

  /** And by the time the flushing thread rests again, all that was pending was passed to the
      callback. */
  lemma FlushDelivers(tr: seq<State>, i: nat, j: nat, t: Tid, k: TKey)
    requires IsRun(tr) && i < j < |tr| && CanStep(tr[i], t, FlushKey(k)) && tr[i + 1] == Step(tr[i], t, FlushKey(k))
    requires t < |tr[j].threads| && tr[j].threads[t].plan.Resting?
    ensures tr[j].delivered[k] >= tr[i].delivered[k] + Pending(tr[i], k)
  {
    InvAlways(tr, i);
    FlushTakes(tr[i], t, k);
    SnapshotsAreDelivered(tr, i + 1, j, t, k);
    InvAlways(tr, j);
    assert ThreadOk(tr[j], t);
  }
}
