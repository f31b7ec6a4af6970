/** The bounded wait of a writer behind a cross-process lock.

    Each call carries the clock reading it would get, so the log of calls is a log of
    sightings with their times; the wait itself looks at the clock only once in 64 polls.
    Times are in microseconds on any clock that does not run backwards. */
module LockWait {

  const SPIN_FOR: nat := 20
  const WAKE_SPIN_FOR: nat := 5
  const CONFIRM_FOR: nat := 2000
  const POLLS_PER_CLOCK_READ: nat := 64
  const UINT32: nat := 0x1_0000_0000

  type Holder = nat
  type Time = nat

  datatype Event =
    | Held(holder: Holder, at: Time, woken: Time)   // an attempt found the lock held; a sleep, if it
                                                    // takes one, ends at `woken`
    | Free(at: Time)                     // the lock was seen free

  datatype Answer = Spun | Slept | Expired | GiveUp

  predicate Ordered(log: seq<Event>) {
    && (forall i, j :: 0 <= i < j < |log| ==> log[i].at <= log[j].at)
    && (forall i :: 0 <= i < |log| && log[i].Held? ==> log[i].at <= log[i].woken)
  }

  // ---- what the log says --------------------------------------------------------------------------

  datatype Sighting = Nobody | Watching(holder: Holder, since: Time)

  /** The holder being watched, and since when.  A capped wait that has given up watches nobody. */
  function Watched(log: seq<Event>, cap: Time): Sighting
    decreases |log|, 1
  {
    if log == [] then Nobody
    else
      var before, e := log[..|log| - 1], log[|log| - 1];
      var w := Watched(before, cap);
      if e.Free? then Nobody
      else if w.Watching? && w.holder == e.holder then w
      else if cap != 0 && Departed(log, cap) >= cap then Nobody
      else Watching(e.holder, e.at)
  }

  /** The time spent on holders that have gone. */
  function Departed(log: seq<Event>, cap: Time): int
    decreases |log|, 0
  {
    if log == [] then 0
    else
      var before, e := log[..|log| - 1], log[|log| - 1];
      var w := Watched(before, cap);
      if w.Watching? && !(e.Held? && e.holder == w.holder) then Departed(before, cap) + e.at - w.since
      else Departed(before, cap)
  }

  // ---- what it makes of the times -------------------------------------------------------------------

  /** The last attempt found the holder that was being watched. */
  predicate Continues(log: seq<Event>, cap: Time) {
    && log != [] && log[|log| - 1].Held?
    && var w := Watched(log[..|log| - 1], cap); w.Watching? && w.holder == log[|log| - 1].holder
  }

  /** How often the holder being watched was seen since its first sighting. */
  function Sightings(log: seq<Event>, cap: Time): nat {
    if Continues(log, cap) then Sightings(log[..|log| - 1], cap) + 1 else 0
  }

  /** The last attempt looks at the clock: every 64th sighting of one holder does. */
  predicate ClockRead(log: seq<Event>, cap: Time) {
    Continues(log, cap) && Sightings(log, cap) % POLLS_PER_CLOCK_READ == 0
  }

  /** The last attempt looks at the clock past the spin window. */
  predicate Looks(log: seq<Event>, budget: Time, cap: Time)
    decreases |log|, 0
  {
    ClockRead(log, cap) && |log| > 1 && log[|log| - 1].at >= Window(log[..|log| - 1], budget, cap)
  }

  /** Inside the budget it then sleeps. */
  predicate Sleeps(log: seq<Event>, budget: Time, cap: Time)
    decreases |log|, 1
  {
    Looks(log, budget, cap) && log[|log| - 1].at < Watched(log, cap).since + budget
  }

  /** The end of the spin window: of the first sighting, or of the last sleep behind this holder. */
  function Window(log: seq<Event>, budget: Time, cap: Time): Time
    requires log != []
    decreases |log|, 2
  {
    var e := log[|log| - 1];
    if !Continues(log, cap) then e.at + SPIN_FOR
    else if Sleeps(log, budget, cap) then e.woken + WAKE_SPIN_FOR
    else Window(log[..|log| - 1], budget, cap)
  }

  /** Past the budget it confirms: by polling without a break. */
  predicate Confirms(log: seq<Event>, budget: Time, cap: Time) {
    Looks(log, budget, cap) && log[|log| - 1].at >= Watched(log, cap).since + budget
  }

  /** Event c and all after it are sightings of the holder being watched. */
  ghost predicate OneSighting(log: seq<Event>, c: nat, cap: Time) {
    forall j :: c < j <= |log| ==> Continues(log[..j], cap)
  }

  /** The confirmation began at event c, or before it, and has lasted its whole window. */
  ghost predicate Confirmed(log: seq<Event>, budget: Time, cap: Time, c: nat) {
    && c < |log| - 1 && OneSighting(log, c, cap) && Confirms(log[..c + 1], budget, cap)
    && log[|log| - 1].at >= log[c].at + CONFIRM_FOR
  }

  ghost predicate Expires(log: seq<Event>, budget: Time, cap: Time) {
    ClockRead(log, cap) && exists c :: Confirmed(log, budget, cap, c)
  }

  /** From event i on, every attempt found the lock held by h. */
  predicate HeldThroughout(log: seq<Event>, i: nat, h: Holder) {
    i < |log| && forall j :: i <= j < |log| ==> log[j].Held? && log[j].holder == h
  }

  /** The holder watched was seen at every attempt since its first sighting, with no restart. */
  lemma {:induction false} WatchedThroughout(log: seq<Event>, cap: Time) returns (i: nat)
    requires Watched(log, cap).Watching?
    ensures var w := Watched(log, cap); HeldThroughout(log, i, w.holder) && log[i].at == w.since
  {
    var before := log[..|log| - 1];
    var w := Watched(before, cap);
    if w.Watching? && w.holder == log[|log| - 1].holder {
      i := WatchedThroughout(before, cap);
      forall j | i <= j < |log| ensures log[j].Held? && log[j].holder == w.holder {
        assert j < |before| ==> before[j] == log[j];
      }
      assert before[i] == log[i];
    } else {
      i := |log| - 1;
    }
  }

  /** One holder that never lets go adds nothing to the time of departed holders. */
  lemma {:induction false} StuckHolderCountsNothing(log: seq<Event>, cap: Time, h: Holder)
    requires log != [] ==> HeldThroughout(log, 0, h)
    ensures Departed(log, cap) == 0
    ensures log != [] ==> Watched(log, cap) == Watching(h, log[0].at)
  {
    if log != [] {
      var before := log[..|log| - 1];
      assert before != [] ==> before[0] == log[0];
      StuckHolderCountsNothing(before, cap, h);
    }
  }

  // ---- when the confirmation began ------------------------------------------------------------------

  datatype Start = NotYet | Began(at: Time)

  function ConfirmStart(log: seq<Event>, budget: Time, cap: Time): Start {
    if !Continues(log, cap) then NotYet
    else
      var before := ConfirmStart(log[..|log| - 1], budget, cap);
      if before.Began? then before else if Confirms(log, budget, cap) then Began(log[|log| - 1].at) else NotYet
  }

  lemma {:induction false} StartedAt(log: seq<Event>, budget: Time, cap: Time) returns (c: nat)
    requires ConfirmStart(log, budget, cap).Began?
    ensures c < |log| && OneSighting(log, c, cap) && Confirms(log[..c + 1], budget, cap)
    ensures log[c].at == ConfirmStart(log, budget, cap).at
  {
    var n := |log| - 1;
    var before := log[..n];
    if ConfirmStart(before, budget, cap).Began? {
      c := StartedAt(before, budget, cap);
      forall j | c < j <= |log| ensures Continues(log[..j], cap) {
        assert j <= n ==> log[..j] == before[..j];
        assert j == |log| ==> log[..j] == log;
      }
      assert log[..c + 1] == before[..c + 1];
    } else {
      c := n;
      assert log[..|log|] == log;
    }
  }

  lemma {:induction false} StartKept(log: seq<Event>, budget: Time, cap: Time, c: nat, n: nat)
    requires Ordered(log) && c < n <= |log| && OneSighting(log, c, cap) && Confirms(log[..c + 1], budget, cap)
    ensures ConfirmStart(log[..n], budget, cap).Began? && ConfirmStart(log[..n], budget, cap).at <= log[c].at
    decreases n
  {
    assert Continues(log[..n], cap);
    assert log[..n][..n - 1] == log[..n - 1];
    if n == c + 1 {
      if ConfirmStart(log[..c], budget, cap).Began? {
        var d := StartedAt(log[..c], budget, cap);
        assert log[..c][d] == log[d];
      }
    } else {
      StartKept(log, budget, cap, c, n - 1);
    }
  }

  /** The confirmation has lasted its window exactly when it has since its start. */
  lemma ExpiresSinceStart(log: seq<Event>, budget: Time, cap: Time)
    requires Ordered(log) && ClockRead(log, cap)
    ensures var start := ConfirmStart(log[..|log| - 1], budget, cap);
            Expires(log, budget, cap) <==> start.Began? && log[|log| - 1].at >= start.at + CONFIRM_FOR
  {
    var n := |log| - 1;
    var before := log[..n];
    var start := ConfirmStart(before, budget, cap);
    if start.Began? && log[n].at >= start.at + CONFIRM_FOR {
      var c := StartedAt(before, budget, cap);
      assert log[..c + 1] == before[..c + 1];
      forall j | c < j <= |log| ensures Continues(log[..j], cap) {
        assert j <= n ==> log[..j] == before[..j];
        assert j == |log| ==> log[..j] == log;
      }
      assert Confirmed(log, budget, cap, c);
    }
    if Expires(log, budget, cap) {
      var c :| Confirmed(log, budget, cap, c);
      StartKept(log, budget, cap, c, n);
    }
  }

  lemma PollCount(n: nat)
    ensures (n % UINT32 + 1) % UINT32 == (n + 1) % UINT32
    ensures (n + 1) % UINT32 % POLLS_PER_CLOCK_READ == (n + 1) % POLLS_PER_CLOCK_READ
  {
    Residue(n + 1);
    var r := n % UINT32;
    assert r + 1 == UINT32 ==> (r + 1) % UINT32 == 0;
  }

  lemma Residue(n: nat)
    ensures n % UINT32 % POLLS_PER_CLOCK_READ == n % POLLS_PER_CLOCK_READ
  {
    var q, r := n / UINT32, n % UINT32;
    assert n == POLLS_PER_CLOCK_READ * (0x400_0000 * q) + r;
  }

  lemma BeganPastDeadline(log: seq<Event>, budget: Time, cap: Time)
    requires ConfirmStart(log, budget, cap).Began?
    ensures Watched(log, cap).Watching? && ConfirmStart(log, budget, cap).at >= Watched(log, cap).since + budget
  {
  }

  lemma {:induction false} WindowIsLater(log: seq<Event>, budget: Time, cap: Time)
    requires Ordered(log) && Watched(log, cap).Watching?
    ensures log != [] && Window(log, budget, cap) >= Watched(log, cap).since + SPIN_FOR
  {
    var before := log[..|log| - 1];
    if Continues(log, cap) {
      WindowIsLater(before, budget, cap);
      assert Watched(log, cap) == Watched(before, cap);
      if Sleeps(log, budget, cap) {
        assert Looks(log, budget, cap);
        assert log[|log| - 1].woken >= log[|log| - 1].at >= Window(before, budget, cap);
        assert Window(log, budget, cap) == log[|log| - 1].woken + WAKE_SPIN_FOR;
      } else {
        assert Window(log, budget, cap) == Window(before, budget, cap);
      }
    } else {
      assert Watched(log, cap).since == log[|log| - 1].at;
    }
  }

  /** The window ends no later than t when the first sighting and every sleep so far leave it so. */
  lemma {:induction false} WindowBy(log: seq<Event>, budget: Time, cap: Time, t: Time)
    requires log != [] && forall j :: 0 <= j < |log| ==> log[j].at + SPIN_FOR <= t && (log[j].Held? ==> log[j].woken + WAKE_SPIN_FOR <= t)
    ensures Window(log, budget, cap) <= t
  {
    if Continues(log, cap) && !Sleeps(log, budget, cap) {
      assert |log| > 1;
      WindowBy(log[..|log| - 1], budget, cap, t);
    }
  }

  /** One holder seen at every attempt is seen as often as there are attempts after the first. */
  lemma {:induction false} StuckSightings(log: seq<Event>, cap: Time, h: Holder, n: nat)
    requires HeldThroughout(log, 0, h) && 0 < n <= |log|
    ensures Sightings(log[..n], cap) == n - 1 && (Continues(log[..n], cap) <==> n > 1)
    ensures Watched(log[..n], cap) == Watching(h, log[0].at)
  {
    var l := log[..n];
    assert forall j :: 0 <= j < n ==> l[j] == log[j];
    assert HeldThroughout(l, 0, h);
    StuckHolderCountsNothing(l, cap, h);
    assert l[..n - 1] == log[..n - 1];
    if n > 1 { StuckSightings(log, cap, h, n - 1); }
  }

  /** A holder that never lets go is reported: with a clock read a past the deadline and past every
      spin window before it, the first clock read at least a confirmation window after it expires. */
  lemma StuckHolderExpires(log: seq<Event>, budget: Time, cap: Time, h: Holder, a: nat)
    requires HeldThroughout(log, 0, h) && 0 < a < |log| - 1
    requires a % POLLS_PER_CLOCK_READ == 0 && (|log| - 1) % POLLS_PER_CLOCK_READ == 0
    requires log[a].at >= log[0].at + budget && log[|log| - 1].at >= log[a].at + CONFIRM_FOR
    requires forall j :: 0 <= j < a ==> log[j].at + SPIN_FOR <= log[a].at && log[j].woken + WAKE_SPIN_FOR <= log[a].at
    ensures Expires(log, budget, cap)
  {
    assert log[..|log|] == log;
    forall j | 0 < j <= |log| ensures j > 1 ==> Continues(log[..j], cap) { StuckSightings(log, cap, h, j); }
    StuckSightings(log, cap, h, |log|);
    StuckSightings(log, cap, h, a + 1);
    assert log[..a + 1][..a] == log[..a];
    WindowBy(log[..a], budget, cap, log[a].at);
    assert Confirmed(log, budget, cap, a);
  }

  // What one more attempt adds: a sighting without a clock read, one with, or a new holder.

  lemma Unclocked(log: seq<Event>, e: Event, budget: Time, cap: Time)
    requires Continues(log + [e], cap) && !ClockRead(log + [e], cap)
    ensures log != [] && Sightings(log + [e], cap) == Sightings(log, cap) + 1
    ensures Watched(log + [e], cap) == Watched(log, cap) && Departed(log + [e], cap) == Departed(log, cap)
    ensures Window(log + [e], budget, cap) == Window(log, budget, cap)
    ensures ConfirmStart(log + [e], budget, cap) == ConfirmStart(log, budget, cap)
    ensures !Sleeps(log + [e], budget, cap) && !Expires(log + [e], budget, cap)
  {
    assert (log + [e])[..|log|] == log;
    assert !Looks(log + [e], budget, cap);
  }

  lemma Clocked(log: seq<Event>, e: Event, budget: Time, cap: Time)
    requires Ordered(log + [e]) && ClockRead(log + [e], cap)
    ensures log != [] && Sightings(log + [e], cap) == Sightings(log, cap) + 1
    ensures Watched(log + [e], cap) == Watched(log, cap) && Departed(log + [e], cap) == Departed(log, cap)
    ensures var past, since, start := e.at >= Window(log, budget, cap), Watched(log, cap).since, ConfirmStart(log, budget, cap);
            && (Sleeps(log + [e], budget, cap) <==> past && e.at < since + budget)
            && Window(log + [e], budget, cap) == (if past && e.at < since + budget then e.woken + WAKE_SPIN_FOR else Window(log, budget, cap))
            && ConfirmStart(log + [e], budget, cap) ==
               (if start.Began? then start else if past && e.at >= since + budget then Began(e.at) else NotYet)
            && (Expires(log + [e], budget, cap) <==> start.Began? && e.at >= start.at + CONFIRM_FOR)
            && (start.Began? ==> start.at >= since + budget && start.at <= e.at)
  {
    assert (log + [e])[..|log|] == log;
    ExpiresSinceStart(log + [e], budget, cap);
    if ConfirmStart(log, budget, cap).Began? {
      BeganPastDeadline(log, budget, cap);
      var c := StartedAt(log, budget, cap);
      assert (log + [e])[c] == log[c];
    }
  }

  lemma Unwatched(log: seq<Event>, e: Event, budget: Time, cap: Time)
    requires e.Held? && !Continues(log + [e], cap)
    ensures Sightings(log + [e], cap) == 0 && ConfirmStart(log + [e], budget, cap) == NotYet
    ensures Window(log + [e], budget, cap) == e.at + SPIN_FOR
    ensures !Sleeps(log + [e], budget, cap) && !Expires(log + [e], budget, cap)
    ensures Departed(log + [e], cap) == Departed(log, cap) + if Watched(log, cap).Watching? then e.at - Watched(log, cap).since else 0
    ensures Watched(log + [e], cap) == if cap != 0 && Departed(log + [e], cap) >= cap then Nobody else Watching(e.holder, e.at)
  {
    assert (log + [e])[..|log|] == log;
  }

  // ---- the wait -----------------------------------------------------------------------------------

  class LockHolderWait {
    const budget: Time
    const cap: Time                      // 0: uncapped
    var changed: int                     // time on holders that went
    var started: bool
    var confirming: bool
    var holder: Holder
    var polls: nat                       // modulo 2^32
    var sleeps: nat
    var firstSeen: Time
    var deadline: Time
    var spinUntil: Time

    ghost predicate Valid(log: seq<Event>)
      reads this
    {
      && Ordered(log)
      && changed == Departed(log, cap)
      && Watched(log, cap) == (if started then Watching(holder, firstSeen) else Nobody)
      && (started ==>
            && log != [] && deadline == firstSeen + budget && polls == Sightings(log, cap) % UINT32
            && (confirming <==> ConfirmStart(log, budget, cap).Began?)
            && spinUntil == if confirming then ConfirmStart(log, budget, cap).at + CONFIRM_FOR else Window(log, budget, cap))
    }

    constructor (budget: Time, cap: Time)
      ensures Valid([])
    {
      this.budget := budget;
      this.cap := cap;
      changed := 0;
      started := false;
      confirming := false;
      holder := 0;
      polls := 0;
      sleeps := 0;
      firstSeen := 0;
      deadline := 0;
      spinUntil := 0;
    }

    /** The lock was found held by h at time `now`; a sleep, if there is one, ends at `woken`. */
    method Wait(h: Holder, now: Time, woken: Time, ghost log: seq<Event>) returns (r: Answer)
      requires Valid(log) && Ordered(log + [Held(h, now, woken)])
      modifies this
      ensures Valid(log + [Held(h, now, woken)])
      ensures r.Slept? <==> Sleeps(log + [Held(h, now, woken)], budget, cap)
      ensures r.Expired? <==> Expires(log + [Held(h, now, woken)], budget, cap)
      ensures r.Expired? ==>
        exists i: nat :: HeldThroughout(log + [Held(h, now, woken)], i, h) && now - (log + [Held(h, now, woken)])[i].at >= budget + CONFIRM_FOR
      ensures r.Slept? ==> Watched(log, cap).Watching? && SPIN_FOR <= now - Watched(log, cap).since < budget
      ensures r.GiveUp? <==>
        cap != 0 && Departed(log + [Held(h, now, woken)], cap) >= cap && !Continues(log + [Held(h, now, woken)], cap)
      ensures r.GiveUp? ==> !HeldThroughout(log + [Held(h, now, woken)], 0, h)
    {
      ghost var e := Held(h, now, woken);
      assert (log + [e])[..|log|] == log;
      if started && h == holder {
        polls := (polls + 1) % UINT32;
        PollCount(Sightings(log, cap));
        if polls % POLLS_PER_CLOCK_READ != 0 {
          Unclocked(log, e, budget, cap);
          return Spun;
        }
        Clocked(log, e, budget, cap);
        WindowIsLater(log, budget, cap);
        ghost var i := WatchedThroughout(log + [e], cap);
        r := TimedWait(now, woken);
      } else {
        Unwatched(log, e, budget, cap);
        r := NewHolder(h, now);
        if HeldThroughout(log + [e], 0, h) { StuckHolderCountsNothing(log + [e], cap, h); }
      }
    }

    method NewHolder(h: Holder, now: Time) returns (r: Answer)
      modifies this
      ensures changed == old(changed) + if old(started) then now - old(firstSeen) else 0
      ensures r.GiveUp? <==> cap != 0 && changed >= cap
      ensures r.GiveUp? || r.Spun?
      ensures started <==> r.Spun?
      ensures started ==>
        holder == h && polls == 0 && firstSeen == now && deadline == now + budget && spinUntil == now + SPIN_FOR && !confirming
    {
      if started { changed := changed + now - firstSeen; }
      if cap != 0 && changed >= cap {
        started := false;
        return GiveUp;
      }
      started := true;
      confirming := false;
      holder := h;
      polls := 0;
      firstSeen := now;
      deadline := now + budget;
      spinUntil := now + SPIN_FOR;
      return Spun;
    }

    method TimedWait(now: Time, woken: Time) returns (r: Answer)
      requires started && (confirming ==> spinUntil >= deadline) && now <= woken
      modifies this`confirming, this`spinUntil, this`sleeps
      ensures now < old(spinUntil) ==> r.Spun? && unchanged(this)
      ensures now >= old(spinUntil) && now < deadline ==> r.Slept? && spinUntil == woken + WAKE_SPIN_FOR && !confirming
      ensures now >= old(spinUntil) && now >= deadline && !old(confirming) ==>
        r.Spun? && confirming && spinUntil == now + CONFIRM_FOR
      ensures now >= old(spinUntil) && now >= deadline && old(confirming) ==>
        r.Expired? && unchanged(this)
    {
      if now < spinUntil { return Spun; }
      if now >= deadline {
        if !confirming {
          confirming := true;
          spinUntil := now + CONFIRM_FOR;
          return Spun;
        }
        return Expired;
      }
      sleeps := (sleeps + 1) % UINT32;
      spinUntil := woken + WAKE_SPIN_FOR;
      return Slept;
    }

    method Restart(now: Time, ghost log: seq<Event>)
      requires Valid(log) && Ordered(log + [Free(now)])
      modifies this
      ensures Valid(log + [Free(now)])
    {
      assert (log + [Free(now)])[..|log|] == log;
      if started { changed := changed + now - firstSeen; }
      started := false;
    }
  }
}
