/**
 When a visitor who was counted is counted again: the exact condition for the claim that a
 rotation never orphans a row that is still being consulted, and a visit for which it fails.
*/
module CounterReturns {
  import opened Text
  import opened HitCounter
  import opened CounterHistory
  import opened CounterResets

  /** Nothing in the run is a counted request of this visitor. */
  predicate Away(events: seq<Event>, page: string, addr: string) {
    forall e :: e in events ==> !Concerns(e, page, addr)
  }

  /** One event of anyone else: the visitor's row stays unless the key is lost. */
  lemma OthersMoveLast(p: Past, now: int, e: Event, page: string, addr: string)
    requires Chronicle(p, now) && Orderly([e], now) && !Concerns(e, page, addr)
    ensures var p' := Remember(p, e).0;
      && p'.key.epoch >= p.key.epoch
      && LastOf(p'.log, p'.key.epoch, page, addr)
         == if p'.key.epoch == p.key.epoch then LastOf(p.log, p.key.epoch, page, addr) else None
  {
    match e
    case Restart(_) => LastInFuture(p.log, p.key.epoch + 1, page, addr);
    case Cleanup(_) =>
    case Request(v, c) =>
      if !IsSearchBot(v.agent) {
        RequestMovesLast(p, now, v, c, page, addr);
        hide LastOf;
      }
  }

  lemma {:induction false} LastWhileAway(p: Past, now: int, events: seq<Event>, page: string, addr: string)
    requires Chronicle(p, now) && Orderly(events, now) && Away(events, page, addr)
    ensures var p' := Recall(p, events).0;
      && Chronicle(p', LastReading(events, now)) && p'.key.epoch >= p.key.epoch
      && LastOf(p'.log, p'.key.epoch, page, addr)
         == if p'.key.epoch == p.key.epoch then LastOf(p.log, p.key.epoch, page, addr) else None
    decreases |events|
  {
    if events != [] {
      var e := events[0];
      OrderlyPeels(events, now);
      ChronicleStep(p, now, e);
      OthersMoveLast(p, now, e, page, addr);
      hide LastOf, Remember, Chronicle;
      LastWhileAway(Remember(p, e).0, Reading(e, now), events[1..], page, addr);
    }
  }

  /** In the history: a visitor counted at `c`, and back within 30 days at `d`. */
  lemma ReturnInHistory(p: Past, now: int, v: Visit, c: Clocks, mid: seq<Event>, w: Visit, d: Clocks)
    requires Chronicle(p, now) && Remember(p, Request(v, c)).1 == [Unique]
    requires w.page == v.page && w.addr == v.addr && !IsSearchBot(w.agent)
    requires Orderly([Request(v, c)], now) && Orderly(mid, c.log) && Away(mid, v.page, v.addr)
    requires Orderly([Request(w, d)], LastReading(mid, c.log)) && d.judge < c.log + HIT_OLD_AFTER_SECONDS
    ensures var p1 := Remember(p, Request(v, c)).0;
      var p2 := Recall(p1, mid).0;
      Remember(p2, Request(w, d)).1 == [Unique] <==> Refresh(p2.key, d.check, d.stamp).epoch > p1.key.epoch
  {
    var p1 := Remember(p, Request(v, c)).0;
    var p2 := Recall(p1, mid).0;
    RequestMovesLast(p, now, v, c, v.page, v.addr);
    ChronicleStep(p, now, Request(v, c));
    hide LastOf, Remember, Chronicle, Recall;
    LastWhileAway(p1, c.log, mid, v.page, v.addr);
    RequestMovesLast(p2, LastReading(mid, c.log), w, d, v.page, v.addr);
  }

  lemma {:induction false} RunIsChronicle(p: Past, now: int, events: seq<Event>)
    requires Chronicle(p, now) && Orderly(events, now)
    ensures Chronicle(Recall(p, events).0, LastReading(events, now))
    decreases |events|
  {
    if events != [] {
      OrderlyPeels(events, now);
      ChronicleStep(p, now, events[0]);
      hide Chronicle, Remember;
      RunIsChronicle(Remember(p, events[0]).0, Reading(events[0], now), events[1..]);
    }
  }

  /** The parts of a run with two visits in it. */
  lemma PartsAreOrderly(before: seq<Event>, first: Event, mid: seq<Event>, second: Event, now: int)
    requires Orderly(before + [first] + mid + [second], now)
    ensures Orderly(before, now) && Orderly([first], LastReading(before, now))
    ensures Orderly(mid, Reading(first, LastReading(before, now)))
    ensures Orderly([second], LastReading(mid, Reading(first, LastReading(before, now))))
  {
    OrderlyConcat(before + [first] + mid, [second], now);
    OrderlyConcat(before + [first], mid, now);
    OrderlyConcat(before, [first], now);
    hide Orderly, LastReading, Reading;
    ReadingOfConcat(before + [first], mid, now);
    ReadingOfConcat(before, [first], now);
    ReadingOfOne(first, LastReading(before, now));
  }

  lemma {:induction false} ReadingOfConcat(u: seq<Event>, v: seq<Event>, now: int)
    ensures LastReading(u + v, now) == LastReading(v, LastReading(u, now))
    decreases |u|
  {
    if u == [] {
      assert u + v == v;
    } else {
      assert (u + v)[0] == u[0] && (u + v)[1..] == u[1..] + v;
      ReadingOfConcat(u[1..], v, Reading(u[0], now));
    }
  }

  lemma ReadingOfOne(e: Event, now: int)
    ensures LastReading([e], now) == Reading(e, now)
  {
    assert [e][1..] == [];
  }

  /**
   In every run, whatever else happens in between, a visitor who returns within 30 days of being counted is
   counted again exactly when the key they were logged under has been lost, to a rotation or a restart.
  */
  lemma ReturnIsUniqueIffKeyLost(key: Key, before: seq<Event>, v: Visit, c: Clocks, mid: seq<Event>,
                                 w: Visit, d: Clocks, now: int)
    requires Orderly(before + [Request(v, c)] + mid + [Request(w, d)], now)
    requires PagesNulFree(before) && PagesNulFree(mid) && NulFree(v.page)
    requires Counted(Run(Empty(key), before, true).0, v, c, true).1 == Unique
    requires w.page == v.page && w.addr == v.addr && !IsSearchBot(w.agent)
    requires Away(mid, v.page, v.addr) && d.judge < c.log + HIT_OLD_AFTER_SECONDS
    ensures var s1 := Counted(Run(Empty(key), before, true).0, v, c, true).0;
      var s2 := Run(s1, mid, true).0;
      Counted(s2, w, d, true).1 == Unique <==> Refresh(s2.key, d.check, d.stamp).epoch > s1.key.epoch
  {
    var p := Past([], key);
    var p0 := Recall(p, before).0;
    var p1 := Remember(p0, Request(v, c)).0;
    var p2 := Recall(p1, mid).0;
    var s0 := Run(Empty(key), before, true).0;
    var s1 := Step(s0, Request(v, c), true).0;
    var s2 := Run(s1, mid, true).0;
    var at0 := LastReading(before, now);
    PartsAreOrderly(before, Request(v, c), mid, Request(w, d), now);
    assert Chronicle(p, now) && Sim(Empty(key), p, now);
    hide Run, Recall, Remember, Counted, Chronicle, Sim, Orderly, LastReading;
    RunRefines(Empty(key), p, now, before, true);
    RunIsChronicle(p, now, before);
    StepRefines(s0, p0, at0, Request(v, c), true);
    RunRefines(s1, p1, c.log, mid, true);
    StepRefines(s2, p2, LastReading(mid, c.log), Request(w, d), true);
    SimKeys(s1, p1, c.log);
    SimKeys(s2, p2, LastReading(mid, c.log));
    ReturnInHistory(p0, at0, v, c, mid, w, d);
  }

  lemma SimKeys(s: Store, p: Past, now: int)
    requires Sim(s, p, now)
    ensures s.key == p.key
  {
  }

  const DAY: int := 24 * 60 * 60

  /** All clock readings of a request at one instant. */
  function At(t: int): Clocks {
    Clocks(t, t, t, t, t, t, t)
  }

  /** Counted on day 59 of a key and back on day 61: the row is two days old, and its key is gone. */
  lemma OrphanedRow(v: Visit)
    requires !IsSearchBot(v.agent) && NulFree(v.page)
    ensures var s := Counted(Empty(Key(0, 0)), v, At(59 * DAY), true).0;
      && Counted(Empty(Key(0, 0)), v, At(59 * DAY), true).1 == Unique
      && IdHash(Key(0, 0), v.page, v.addr) in s.seen
      && Counted(s, v, At(61 * DAY), true).1 == Unique
  {
  }
}
