/** A run of the cache gate from start to stop: the exclusive sections go through all shards, an
    operation in between is granted, and the stop closes the volumes. */
module CacheGateLife {
  import opened CacheGate

  const LONE: Tid := Tid(0, 0)

  /** One thread, at pc, and no syncer, at the end of a run. */
  ghost predicate EndsAt(tr: seq<State>, pc: Pc) {
    IsRun(tr) && tr[|tr| - 1].threads == map[LONE := pc] && tr[|tr| - 1].syncer == {}
  }

  lemma Extend(tr: seq<State>, act: Action) returns (tr': seq<State>)
    requires IsRun(tr) && CanStep(tr[|tr| - 1], LONE, act)
    ensures IsRun(tr') && tr' == tr + [Step(tr[|tr| - 1], LONE, act)]
  {
    var s := tr[|tr| - 1];
    tr' := tr + [Step(s, LONE, act)];
    assert Follows(s, Step(s, LONE, act));
    forall i | 0 <= i < |tr'| - 1 ensures Linked(tr', i) {
      if i < |tr| - 1 { assert Linked(tr, i); }
    }
  }

  /** The flags, without the threads. */
  function Flags(tr: seq<State>): (bool, bool, bool)
    requires |tr| > 0
  {
    (tr[|tr| - 1].running, tr[|tr| - 1].stopping, tr[|tr| - 1].open)
  }

  lemma {:induction false} LockAll(tr: seq<State>, n: nat, why: Why) returns (tr': seq<State>)
    requires n <= SHARDS && EndsAt(tr, Locking(n, why))
    ensures EndsAt(tr', Locking(SHARDS, why)) && tr <= tr' && Flags(tr') == Flags(tr)
    decreases SHARDS - n
  {
    if n == SHARDS {
      tr' := tr;
    } else {
      tr' := Extend(tr, Lock);
      tr' := LockAll(tr', n + 1, why);
    }
  }

  lemma {:induction false} UnlockAll(tr: seq<State>, n: nat, claimed: bool) returns (tr': seq<State>)
    requires 0 < n <= SHARDS && EndsAt(tr, Unlocking(n, claimed))
    ensures EndsAt(tr', if claimed then Locking(0, Closing) else Idle) && tr <= tr' && Flags(tr') == Flags(tr)
    decreases n
  {
    tr' := Extend(tr, Unlock);
    if n > 1 { tr' := UnlockAll(tr', n - 1, claimed); }
  }

  lemma Section(tr: seq<State>, why: Why, claimed: bool, flags: (bool, bool, bool)) returns (tr': seq<State>)
    requires EndsAt(tr, Locking(0, why)) && !why.Other?
    requires why.Starting? ==> Flags(tr) == (false, false, false) && flags == (true, false, true) && !claimed
    requires why.Claiming? ==> Flags(tr) == (true, false, true) && flags == (true, true, true) && claimed
    requires why.Closing? ==> Flags(tr) == (true, true, true) && flags == (false, false, false) && !claimed
    ensures EndsAt(tr', if claimed then Locking(0, Closing) else Idle) && tr <= tr' && Flags(tr') == flags
  {
    tr' := LockAll(tr, 0, why);
    tr' := Extend(tr', Act(true, NoSyncer));
    tr' := UnlockAll(tr', SHARDS, claimed);
  }

  lemma Started() returns (tr: seq<State>)
    ensures EndsAt(tr, Idle) && Flags(tr) == (true, false, true)
  {
    tr := [State(map[LONE := Idle], false, false, false, {}, false, 0, 0, 0)];
    tr := Extend(tr, Begin(Locking(0, Starting)));
    tr := Section(tr, Starting, false, (true, false, true));
  }

  lemma Granted() returns (tr: seq<State>)
    ensures EndsAt(tr, OpGranted) && Flags(tr) == (true, false, true)
  {
    tr := Started();
    tr := Extend(tr, Begin(OpWaiting));
    tr := Extend(tr, Lock);
    tr := Extend(tr, Check);
  }

  /** A cache is started, an operation is granted with the volumes open, and a stop closes them. */
  lemma StartUseStop() returns (tr: seq<State>, used: nat)
    ensures EndsAt(tr, Idle) && Flags(tr) == (false, false, false)
    ensures used < |tr| && tr[used].threads == map[LONE := OpGranted] && tr[used].open
  {
    tr := Granted();
    used := |tr| - 1;
    ghost var s := tr[used];
    tr := Extend(tr, Unlock);
    tr := Extend(tr, Begin(Locking(0, Claiming)));
    tr := Section(tr, Claiming, true, (true, true, true));
    tr := Section(tr, Closing, false, (false, false, false));
    assert tr[used] == s;
  }
}
