/**
 The age of the key in sequential runs: an expired key is replaced, by one whose lifetime
 starts then, so keys are lost to rotation no more often than lifetimes go by.
*/
module CounterAges {
  import opened HitCounter
  import opened CounterHistory
  import opened CounterResets
  import opened Greedy
  import opened Text

  /**
   The monotonic clock does not go back while a process runs; a new process may start it anywhere.
  */
  predicate Steady(events: seq<Event>, mono: int)
    decreases |events|
  {
    events == []
    || match events[0]
       case Request(_, c) => mono <= c.check <= c.stamp <= c.check' <= c.stamp' && Steady(events[1..], c.stamp')
       case Cleanup(_) => Steady(events[1..], mono)
       case Restart(instant) => Steady(events[1..], instant)
  }

  /** The monotonic clock after an event. */
  function Later(e: Event, mono: int): int {
    match e
    case Request(_, c) => c.stamp'
    case Cleanup(_) => mono
    case Restart(instant) => instant
  }

  /** For how long processes have run, by their own clocks. */
  function Uptime(events: seq<Event>, mono: int): int
    decreases |events|
  {
    if events == [] then 0
    else (if events[0].Request? then Later(events[0], mono) - mono else 0) + Uptime(events[1..], Later(events[0], mono))
  }

  function Restarts(events: seq<Event>): nat {
    if events == [] then 0 else (if events[0].Restart? then 1 else 0) + Restarts(events[1..])
  }

  /** The instants at which a key can have been made. */
  function Instants(events: seq<Event>): set<int> {
    if events == [] then {}
    else
      (match events[0]
       case Request(_, c) => {c.stamp, c.stamp'}
       case Cleanup(_) => {}
       case Restart(instant) => {instant})
      + Instants(events[1..])
  }

  /** One event: whole lifetimes lost to rotation, and the age of the key after it, come out of its age before. */
  lemma EventAges(s: Store, e: Event, mono: int, sweeping: bool)
    requires s.key.created <= mono && Steady([e], mono)
    ensures var s' := Step(s, e, sweeping).0;
      var rotations := s'.key.epoch - s.key.epoch - (if e.Restart? then 1 else 0);
      && s'.key.created <= Later(e, mono)
      && (s'.key.created == s.key.created || s'.key.created in Instants([e]))
      && VISITOR_KEY_LIFETIME * rotations + (Later(e, mono) - s'.key.created)
         <= (mono - s.key.created) + Uptime([e], mono)
  {
    assert [e][1..] == [];
    hide IsSearchBot, Sweep, EnsureRows, LooksUnique, IdHash;
  }

  lemma SteadyPeels(events: seq<Event>, mono: int)
    requires events != [] && Steady(events, mono)
    ensures Steady([events[0]], mono) && Steady(events[1..], Later(events[0], mono))
    ensures Uptime(events, mono) == Uptime([events[0]], mono) + Uptime(events[1..], Later(events[0], mono))
    ensures Instants(events) == Instants([events[0]]) + Instants(events[1..])
  {
    assert [events[0]][1..] == [];
  }

  lemma Spans(unit: int, first: int, rest: int, before: int, between: int, up: int, more: int)
    requires unit * first + between <= before + up && unit * rest <= between + more
    ensures unit * (first + rest) <= before + (up + more)
  {
  }

  lemma RunPeels(s: Store, events: seq<Event>, sweeping: bool)
    requires events != []
    ensures Run(s, events, sweeping).0 == Run(Step(s, events[0], sweeping).0, events[1..], sweeping).0
    ensures Restarts(events) == (if events[0].Restart? then 1 else 0) + Restarts(events[1..])
  {
    hide Step;
  }

  /** In every run the lifetimes lost to rotation fit into the time the processes have run. */
  lemma {:induction false} RunAges(s: Store, events: seq<Event>, mono: int, sweeping: bool)
    requires s.key.created <= mono && Steady(events, mono)
    ensures var end := Run(s, events, sweeping).0;
      && (end.key.created == s.key.created || end.key.created in Instants(events))
      && VISITOR_KEY_LIFETIME * (end.key.epoch - s.key.epoch - Restarts(events))
         <= (mono - s.key.created) + Uptime(events, mono)
    decreases |events|
  {
    if events != [] {
      var e := events[0];
      SteadyPeels(events, mono);
      EventAges(s, e, mono, sweeping);
      RunPeels(s, events, sweeping);
      hide Step, Run, Steady, Uptime, Instants, Later, Restarts, VISITOR_KEY_LIFETIME;
      var s1, mono1 := Step(s, e, sweeping).0, Later(e, mono);
      RunAges(s1, events[1..], mono1, sweeping);
      var end := Run(s1, events[1..], sweeping).0;
      var one := if e.Restart? then 1 else 0;
      var first, rest := s1.key.epoch - s.key.epoch - one, end.key.epoch - s1.key.epoch - Restarts(events[1..]);
      Spans(VISITOR_KEY_LIFETIME, first, rest, mono - s.key.created, mono1 - s1.key.created,
            Uptime([e], mono), Uptime(events[1..], mono1));
      assert end.key.epoch - s.key.epoch - Restarts(events) == first + rest;
    }
  }

  /** The last time a request checked the key. */
  function LastCheck(c: Clocks, answer: Answer): int {
    if answer == Unique then c.check' else c.check
  }

  /**
   After any run, the key that a request leaves in force was made at the start or at one of the readings of the
   run, and had not expired when the request last checked it.
  */
  lemma KeyInForceIsYoung(key: Key, before: seq<Event>, v: Visit, c: Clocks, mono: int)
    requires key.created <= mono && Steady(before + [Request(v, c)], mono) && !IsSearchBot(v.agent)
    ensures var (s, answer) := Counted(Run(Empty(key), before, true).0, v, c, true);
      && (s.key.created == key.created || s.key.created in Instants(before + [Request(v, c)]))
      && LastCheck(c, answer) < s.key.created + VISITOR_KEY_LIFETIME
  {
    var s := Run(Empty(key), before, true).0;
    SteadyParts(before, Request(v, c), mono);
    RunAges(Empty(key), before, mono, true);
    InstantsConcat(before, [Request(v, c)]);
    hide Run, IsSearchBot, Sweep, EnsureRows, LooksUnique, IdHash, Steady;
    assert Instants([Request(v, c)]) == {c.stamp, c.stamp'} by {
      assert [Request(v, c)][1..] == [];
    }
  }

  lemma {:induction false} SteadyParts(before: seq<Event>, e: Event, mono: int)
    requires Steady(before + [e], mono)
    ensures Steady(before, mono)
    ensures e.Request? ==> e.clocks.check <= e.clocks.stamp <= e.clocks.check' <= e.clocks.stamp'
    decreases |before|
  {
    if before == [] {
      assert before + [e] == [e];
    } else {
      assert (before + [e])[0] == before[0] && (before + [e])[1..] == before[1..] + [e];
      SteadyParts(before[1..], e, Later(before[0], mono));
    }
  }

  lemma {:induction false} InstantsConcat(u: seq<Event>, v: seq<Event>)
    ensures Instants(u + v) == Instants(u) + Instants(v)
    decreases |u|
  {
    if u == [] {
      assert u + v == v;
    } else {
      assert (u + v)[0] == u[0] && (u + v)[1..] == u[1..] + v;
      InstantsConcat(u[1..], v);
    }
  }

  lemma Grows(unit: int, a: int, b: int)
    requires unit > 0
    ensures a <= b ==> unit * a <= unit * b
  {
  }

  lemma Quotient(lost: int, restarts: nat, span: int, unit: int)
    requires unit > 0 && span >= 0 && unit * (lost - restarts) <= span
    ensures lost <= restarts + span / unit
  {
    var q := span / unit;
    Grows(unit, q + 1, lost - restarts);
    assert unit * (q + 1) == unit * q + unit;
  }

  lemma {:induction false} UptimeIsPositive(events: seq<Event>, mono: int)
    requires Steady(events, mono)
    ensures Uptime(events, mono) >= 0
    decreases |events|
  {
    if events != [] {
      UptimeIsPositive(events[1..], Later(events[0], mono));
    }
  }

  /**
   For every run, a visitor is counted at most as often as by a counter that never loses its key, and once more
   for each restart and for each whole lifetime of a key that the processes have run.
  */
  lemma LifetimesCostOneCountEach(key: Key, events: seq<Event>, now: int, mono: int, page: string, addr: string)
    requires Orderly(events, now) && PagesNulFree(events) && key.created <= mono && Steady(events, mono)
    ensures var counted := UniqueVisits(events, Run(Empty(key), events, true).1, page, addr);
      var ideal := Mindful(None, Visits(events, page, addr), HIT_OLD_AFTER_SECONDS);
      var span := (mono - key.created) + Uptime(events, mono);
      ideal <= counted <= ideal + Restarts(events) + span / VISITOR_KEY_LIFETIME
  {
    var end := Run(Empty(key), events, true).0;
    LostKeysCostOneCountEach(key, events, now, page, addr);
    RunAges(Empty(key), events, mono, true);
    UptimeIsPositive(events, mono);
    hide Run, UniqueVisits, Visits, Mindful, Uptime, Restarts, Steady, Orderly;
    Quotient(end.key.epoch - key.epoch, Restarts(events), (mono - key.created) + Uptime(events, mono),
             VISITOR_KEY_LIFETIME);
  }

  // ----- Rows -----

  /** A request sweeps: every row it leaves carries a time less than 30 days before its sweep, or later. */
  lemma RowsAreRecent(s: Store, v: Visit, c: Clocks, id: Id)
    requires !IsSearchBot(v.agent) && c.sweep <= c.log && id in Counted(s, v, c, true).0.seen
    ensures Counted(s, v, c, true).0.seen[id] >= c.sweep - HIT_OLD_AFTER_SECONDS
  {
    hide IsSearchBot, EnsureRows, LooksUnique;
  }
}
