/** Where the registrations of async reads are: waiting under a key in flight, in the
    local list of a call that is notifying, or called.

    `place` is a history variable; the lists alone are the bridge's state. */
module WaiterLedger {
  import opened Counting

  type Act = nat             // a call into the bridge; a read's also names its registration
  type Key = nat

  datatype Place = Nowhere | Waiting(key: Key) | HeldBy(who: Act, key: Key) | Called

  datatype Ledger = Ledger(
    inFlight: map<Key, multiset<Act>>,
    held: map<(Act, Key), multiset<Act>>,
    calls: multiset<Act>,                        // read callbacks made
    place: map<Act, Place>)
  {
    function Waiters(k: Key): multiset<Act> {
      if k in inFlight then inFlight[k] else multiset{}
    }

    function Local(a: Act, k: Key): multiset<Act> {
      if (a, k) in held then held[(a, k)] else multiset{}
    }

    function Where(r: Act): Place {
      if r in place then place[r] else Nowhere
    }

    /** read_cb is called directly. */
    function Answer(r: Act): Ledger {
      this.(calls := calls + multiset{r}, place := place[r := Called])
    }

    /** The read joins the waiters of its key. */
    function Enlist(k: Key, r: Act): Ledger {
      this.(inFlight := inFlight[k := Waiters(k) + multiset{r}], place := place[r := Waiting(k)])
    }

    /** The read leaves the waiters of its key, unanswered. */
    function Withdraw(k: Key, r: Act): Ledger {
      this.(inFlight := inFlight[k := Waiters(k) - multiset{r}], place := place[r := Nowhere])
    }

    /** Call a takes the entries of `keys` out of the in-flight map. */
    function Take(a: Act, keys: set<Key>): Ledger {
      Ledger(inFlight - keys,
             map p | p in held.Keys + (set k | k in keys :: (a, k)) ::
               if p.0 == a && p.1 in keys then Local(a, p.1) + Waiters(p.1) else Local(p.0, p.1),
             calls,
             map r | r in place :: if place[r].Waiting? && place[r].key in keys then HeldBy(a, place[r].key) else place[r])
    }

    /** Call a calls the callback of one read in its list. */
    function Deliver(a: Act, k: Key, r: Act): Ledger {
      this.(held := held[(a, k) := Local(a, k) - multiset{r}], calls := calls + multiset{r}, place := place[r := Called])
    }
  }

  const EMPTY: Ledger := Ledger(map[], map[], multiset{}, map[])

  /** Registration r is in the one list its place names, once, and in no other. */
  ghost predicate BalancedAt(l: Ledger, r: Act) {
    && (forall k :: l.Waiters(k)[r] == Ind(l.Where(r) == Waiting(k)))
    && (forall a, k :: l.Local(a, k)[r] == Ind(l.Where(r) == HeldBy(a, k)))
    && l.calls[r] == Ind(l.Where(r) == Called)
  }

  ghost predicate Balanced(l: Ledger) {
    forall r :: BalancedAt(l, r)
  }

  lemma AnswerBalanced(l: Ledger, r: Act)
    requires Balanced(l) && l.Where(r) == Nowhere
    ensures Balanced(l.Answer(r))
  {
    forall x ensures BalancedAt(l.Answer(r), x) {
      assert BalancedAt(l, x);
    }
  }

  lemma EnlistBalanced(l: Ledger, k: Key, r: Act)
    requires Balanced(l) && l.Where(r) == Nowhere
    ensures Balanced(l.Enlist(k, r))
  {
    forall x ensures BalancedAt(l.Enlist(k, r), x) {
      assert BalancedAt(l, x);
    }
  }

  lemma WithdrawBalanced(l: Ledger, k: Key, r: Act)
    requires Balanced(l) && l.Where(r) == Waiting(k)
    ensures Balanced(l.Withdraw(k, r))
  {
    assert BalancedAt(l, r);
    forall x ensures BalancedAt(l.Withdraw(k, r), x) {
      assert BalancedAt(l, x);
    }
  }

  lemma TakeBalanced(l: Ledger, a: Act, keys: set<Key>)
    requires Balanced(l)
    ensures Balanced(l.Take(a, keys))
  {
    forall x ensures BalancedAt(l.Take(a, keys), x) {
      assert BalancedAt(l, x);
      TakenAt(l, a, keys, x);
    }
  }

  lemma TakenAt(l: Ledger, a: Act, keys: set<Key>, r: Act)
    requires BalancedAt(l, r)
    ensures BalancedAt(l.Take(a, keys), r)
  {
    var m := l.Take(a, keys);
    TakenFrom(l, a, keys, r);
    forall b, k ensures m.Local(b, k)[r] == Ind(m.Where(r) == HeldBy(b, k)) {
      TakenList(l, a, keys, b, k);
      if b == a && k in keys { assert (l.Local(b, k) + l.Waiters(k))[r] == l.Local(b, k)[r] + l.Waiters(k)[r]; }
    }
  }

  lemma TakenFrom(l: Ledger, a: Act, keys: set<Key>, r: Act)
    ensures var m := l.Take(a, keys);
            && (forall k :: m.Waiters(k) == if k in keys then multiset{} else l.Waiters(k))
            && m.Where(r) == (if l.Where(r).Waiting? && l.Where(r).key in keys then HeldBy(a, l.Where(r).key) else l.Where(r))
  {}

  lemma TakenList(l: Ledger, a: Act, keys: set<Key>, b: Act, k: Key)
    ensures l.Take(a, keys).Local(b, k) == if b == a && k in keys then l.Local(b, k) + l.Waiters(k) else l.Local(b, k)
  {}

  lemma DeliverBalanced(l: Ledger, a: Act, k: Key, r: Act)
    requires Balanced(l) && r in l.Local(a, k)
    ensures Balanced(l.Deliver(a, k, r)) && l.Where(r) == HeldBy(a, k)
  {
    assert BalancedAt(l, r);
    forall x ensures BalancedAt(l.Deliver(a, k, r), x) {
      assert BalancedAt(l, x);
    }
  }
}
