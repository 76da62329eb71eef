/**
 Whole runs of the hit counter against a history of what was counted: the table with its
 sweep remembers exactly what matters, and losing the key costs each visitor little.
*/
module CounterHistory {
  import opened HitTable
  import opened HitCounter

  datatype Event =
    | Request(visit: Visit, clocks: Clocks)
    | Cleanup(at: int)        // an extra sweep, at any point
    | Restart(instant: int)   // a new process on the same database: the key is lost

  /** The wall clock never goes back. */
  predicate Orderly(events: seq<Event>, now: int)
    decreases |events|
  {
    events == []
    || match events[0]
       case Request(_, c) => now <= c.sweep <= c.judge <= c.log && Orderly(events[1..], c.log)
       case Cleanup(at) => now <= at && Orderly(events[1..], at)
       case Restart(_) => Orderly(events[1..], now)
  }

  predicate PagesNulFree(events: seq<Event>) {
    forall e :: e in events && e.Request? ==> NulFree(e.visit.page)
  }

  // ----- The machine -----

  function Step(s: Store, e: Event, sweeping: bool): (Store, seq<Answer>) {
    match e
    case Request(v, c) => var (s', answer) := Counted(s, v, c, sweeping); (s', [answer])
    case Cleanup(at) => (s.(seen := Sweep(s.seen, at - HIT_OLD_AFTER_SECONDS)), [])
    case Restart(instant) => (s.(key := Key(s.key.epoch + 1, instant)), [])
  }

  /** The table after a run, and the answer to each request. */
  function Run(s: Store, events: seq<Event>, sweeping: bool): (Store, seq<Answer>)
    decreases |events|
  {
    if events == [] then (s, [])
    else
      var (s', first) := Step(s, events[0], sweeping);
      var (end, rest) := Run(s', events[1..], sweeping);
      (end, first + rest)
  }

  /** A new process on empty tables. */
  function Empty(key: Key): Store {
    Store([], map[], key)
  }

  // ----- The history -----

  /** A visit that was counted as unique. */
  datatype Entry = Entry(epoch: nat, page: string, addr: string, at: int)

  datatype Past = Past(log: seq<Entry>, key: Key)

  /** Within the last 30 days, under the key of that epoch, this visitor was counted on this page. */
  predicate CountedLately(log: seq<Entry>, epoch: nat, page: string, addr: string, now: int) {
    exists i ::
      0 <= i < |log| && log[i] == Entry(epoch, page, addr, log[i].at) && now - log[i].at < HIT_OLD_AFTER_SECONDS
  }

  function Remember(p: Past, e: Event): (Past, seq<Answer>) {
    match e
    case Request(v, c) =>
      if IsSearchBot(v.agent) then (p, [Skipped])
      else
        var key := Refresh(p.key, c.check, c.stamp);
        if CountedLately(p.log, key.epoch, v.page, v.addr, c.judge) then (p.(key := key), [Repeat])
        else
          var key' := Refresh(key, c.check', c.stamp');
          (Past(p.log + [Entry(key'.epoch, v.page, v.addr, c.log)], key'), [Unique])
    case Cleanup(_) => (p, [])
    case Restart(instant) => (p.(key := Key(p.key.epoch + 1, instant)), [])
  }

  function Recall(p: Past, events: seq<Event>): (Past, seq<Answer>)
    decreases |events|
  {
    if events == [] then (p, [])
    else
      var (p', first) := Remember(p, events[0]);
      var (end, rest) := Recall(p', events[1..]);
      (end, first + rest)
  }

  // ----- The table refines the history -----

  function IdOf(e: Entry): Id {
    Id(e.epoch, Message(e.page, e.addr))
  }

  /**
   Every row of the table is some entry's; every entry that can still matter has a row at
   least as recent; and no entry lies in the future.
  */
  predicate Agrees(seen: map<Id, int>, log: seq<Entry>, now: int) {
    && (forall id :: id in seen ==> exists i :: 0 <= i < |log| && IdOf(log[i]) == id && log[i].at == seen[id])
    && (forall i :: 0 <= i < |log| ==>
          && log[i].at <= now
          && NulFree(log[i].page)
          && (now - log[i].at < HIT_OLD_AFTER_SECONDS ==> IdOf(log[i]) in seen && seen[IdOf(log[i])] >= log[i].at))
  }

  predicate Sim(s: Store, p: Past, now: int) {
    s.key == p.key && Agrees(s.seen, p.log, now)
  }

  /** A sweep whose cutoff is old enough removes nothing that matters. */
  lemma SweepIsHarmless(seen: map<Id, int>, log: seq<Entry>, now: int, at: int)
    requires Agrees(seen, log, now) && now <= at
    ensures Agrees(seen, log, at)
    ensures Agrees(Sweep(seen, at - HIT_OLD_AFTER_SECONDS), log, at)
  {
  }

  /** What the table says of a visitor is what the history says. */
  lemma SameAnswer(seen: map<Id, int>, log: seq<Entry>, now: int, key: Key, page: string, addr: string, judge: int)
    requires Agrees(seen, log, now) && now <= judge && NulFree(page)
    ensures LooksUnique(seen, IdHash(key, page, addr), judge) <==> !CountedLately(log, key.epoch, page, addr, judge)
  {
    var id := IdHash(key, page, addr);
    if !LooksUnique(seen, id, judge) {
      var i :| 0 <= i < |log| && IdOf(log[i]) == id && log[i].at == seen[id];
      IdentifiesVisitor(page, addr, log[i].page, log[i].addr);
      assert log[i] == Entry(key.epoch, page, addr, log[i].at);
    }
    if CountedLately(log, key.epoch, page, addr, judge) {
      var i :| 0 <= i < |log| && log[i] == Entry(key.epoch, page, addr, log[i].at)
        && judge - log[i].at < HIT_OLD_AFTER_SECONDS;
      assert IdOf(log[i]) == id;
    }
  }

  /** Logging a visit in both. */
  lemma LoggingAgrees(seen: map<Id, int>, log: seq<Entry>, now: int, e: Entry)
    requires Agrees(seen, log, now) && now <= e.at && NulFree(e.page)
    ensures Agrees(seen[IdOf(e) := e.at], log + [e], e.at)
  {
    var seen', log' := seen[IdOf(e) := e.at], log + [e];
    forall id | id in seen'
      ensures exists i :: 0 <= i < |log'| && IdOf(log'[i]) == id && log'[i].at == seen'[id]
    {
      if id == IdOf(e) {
        assert IdOf(log'[|log|]) == id;
      } else {
        var i :| 0 <= i < |log| && IdOf(log[i]) == id && log[i].at == seen[id];
        assert IdOf(log'[i]) == id;
      }
    }
    forall i | 0 <= i < |log'|
      ensures log'[i].at <= e.at && NulFree(log'[i].page)
      ensures e.at - log'[i].at < HIT_OLD_AFTER_SECONDS ==> IdOf(log'[i]) in seen' && seen'[IdOf(log'[i])] >= log'[i].at
    {
      if i < |log| {
        assert log'[i] == log[i];
      }
    }
  }

  /** The last wall clock reading of an event. */
  function Reading(e: Event, now: int): int {
    match e
    case Request(_, c) => c.log
    case Cleanup(at) => at
    case Restart(_) => now
  }

  /** The part of a request that depends on the table only through the judgement. */
  lemma RequestUnfolds(s: Store, p: Past, v: Visit, c: Clocks, sweeping: bool,
                       seen: map<Id, int>, key: Key, unique: bool)
    requires !IsSearchBot(v.agent) && s.key == p.key
    requires seen == if sweeping then Sweep(s.seen, c.sweep - HIT_OLD_AFTER_SECONDS) else s.seen
    requires key == Refresh(p.key, c.check, c.stamp)
    requires unique == LooksUnique(seen, IdHash(key, v.page, v.addr), c.judge)
    requires unique == !CountedLately(p.log, key.epoch, v.page, v.addr, c.judge)
    ensures var (s', answer) := Counted(s, v, c, sweeping);
      var (p', answers) := Remember(p, Request(v, c));
      var e := Entry(Refresh(key, c.check', c.stamp').epoch, v.page, v.addr, c.log);
      && answers == [answer] && s'.key == p'.key
      && s'.seen == (if unique then seen[IdOf(e) := e.at] else seen)
      && p'.log == if unique then p.log + [e] else p.log
  {
  }

  /** The judgement and its effect on table and log, whatever was swept before. */
  lemma JudgeAndLog(seen: map<Id, int>, log: seq<Entry>, now: int, key: Key, key': Key, v: Visit, c: Clocks)
    requires Agrees(seen, log, now) && NulFree(v.page) && now <= c.judge <= c.log
    ensures var e := Entry(key'.epoch, v.page, v.addr, c.log);
      if LooksUnique(seen, IdHash(key, v.page, v.addr), c.judge)
      then !CountedLately(log, key.epoch, v.page, v.addr, c.judge) && Agrees(seen[IdOf(e) := e.at], log + [e], c.log)
      else CountedLately(log, key.epoch, v.page, v.addr, c.judge) && Agrees(seen, log, c.log)
  {
    SameAnswer(seen, log, now, key, v.page, v.addr, c.judge);
    LoggingAgrees(seen, log, now, Entry(key'.epoch, v.page, v.addr, c.log));
    SweepIsHarmless(seen, log, now, c.log);
  }

  lemma RequestRefines(s: Store, p: Past, now: int, v: Visit, c: Clocks, sweeping: bool)
    requires Sim(s, p, now) && NulFree(v.page) && now <= c.sweep <= c.judge <= c.log
    requires !IsSearchBot(v.agent)
    ensures Remember(p, Request(v, c)).1 == [Counted(s, v, c, sweeping).1]
    ensures Sim(Counted(s, v, c, sweeping).0, Remember(p, Request(v, c)).0, c.log)
  {
    var seen := if sweeping then Sweep(s.seen, c.sweep - HIT_OLD_AFTER_SECONDS) else s.seen;
    var key := Refresh(p.key, c.check, c.stamp);
    SweepIsHarmless(s.seen, p.log, now, c.sweep);
    JudgeAndLog(seen, p.log, c.sweep, key, Refresh(key, c.check', c.stamp'), v, c);
    RequestUnfolds(s, p, v, c, sweeping, seen, key, LooksUnique(seen, IdHash(key, v.page, v.addr), c.judge));
  }

  /** One event, whether or not requests sweep: the same answer, and the table still agrees. */
  lemma StepRefines(s: Store, p: Past, now: int, e: Event, sweeping: bool)
    requires Sim(s, p, now) && Orderly([e], now)
    requires e.Request? ==> NulFree(e.visit.page)
    ensures Step(s, e, sweeping).1 == Remember(p, e).1
    ensures Sim(Step(s, e, sweeping).0, Remember(p, e).0, Reading(e, now))
  {
    match e
    case Request(v, c) =>
      if IsSearchBot(v.agent) {
        SweepIsHarmless(s.seen, p.log, now, c.log);
      } else {
        RequestRefines(s, p, now, v, c, sweeping);
      }
    case Cleanup(at) =>
      SweepIsHarmless(s.seen, p.log, now, at);
    case Restart(instant) =>
  }

  lemma OrderlyPeels(events: seq<Event>, now: int)
    requires events != [] && Orderly(events, now)
    ensures Orderly([events[0]], now) && Orderly(events[1..], Reading(events[0], now))
  {
    match events[0]
    case Request(_, c) =>
      assert Orderly([events[0]][1..], c.log);
    case Cleanup(at) =>
      assert Orderly([events[0]][1..], at);
    case Restart(_) =>
      assert Orderly([events[0]][1..], now);
  }

  /** The last wall clock reading of a run. */
  function LastReading(events: seq<Event>, now: int): int
    decreases |events|
  {
    if events == [] then now else LastReading(events[1..], Reading(events[0], now))
  }

  lemma {:induction false} OrderlyConcat(u: seq<Event>, v: seq<Event>, now: int)
    requires Orderly(u + v, now)
    ensures Orderly(u, now) && Orderly(v, LastReading(u, now))
    decreases |u|
  {
    if u == [] {
      assert u + v == v;
    } else {
      assert (u + v)[0] == u[0] && (u + v)[1..] == u[1..] + v;
      OrderlyPeels(u + v, now);
      OrderlyConcat(u[1..], v, Reading(u[0], now));
    }
  }

  lemma {:induction false} RunRefines(s: Store, p: Past, now: int, events: seq<Event>, sweeping: bool)
    requires Sim(s, p, now) && Orderly(events, now) && PagesNulFree(events)
    ensures Run(s, events, sweeping).1 == Recall(p, events).1
    ensures Run(s, events, sweeping).0.key == Recall(p, events).0.key
    ensures Sim(Run(s, events, sweeping).0, Recall(p, events).0, LastReading(events, now))
    decreases |events|
  {
    if events != [] {
      var e := events[0];
      OrderlyPeels(events, now);
      StepRefines(s, p, now, e, sweeping);
      RunRefines(Step(s, e, sweeping).0, Remember(p, e).0, Reading(e, now), events[1..], sweeping);
    }
  }

  // ----- The counters tally the answers -----

  function Tally(events: seq<Event>, answers: seq<Answer>, page: string, unique: bool): nat
    decreases |events|
  {
    if events == [] || answers == [] then 0
    else if events[0].Request? then
      (if events[0].visit.page == page then Worth(answers[0], unique) else 0)
      + Tally(events[1..], answers[1..], page, unique)
    else Tally(events[1..], answers, page, unique)
  }

  lemma {:induction false} CountersTally(s: Store, events: seq<Event>, sweeping: bool, page: string, unique: bool)
    requires Keyed(s.hits)
    ensures var (end, answers) := Run(s, events, sweeping);
      CountOf(end.hits, page, unique) == CountOf(s.hits, page, unique) + Tally(events, answers, page, unique)
    decreases |events|
  {
    if events != [] {
      var (s', first) := Step(s, events[0], sweeping);
      if events[0].Request? {
        CountedMovesCounters(s, events[0].visit, events[0].clocks, sweeping);
      }
      CountersTally(s', events[1..], sweeping, page, unique);
      var answers := Run(s, events, sweeping).1;
      assert events[0].Request? ==> answers[1..] == Run(s', events[1..], sweeping).1;
      assert !events[0].Request? ==> answers == Run(s', events[1..], sweeping).1;
    }
  }

  /**
   For every run the answers are the history's, and each page's two counters hold exactly
   the visits that were not bots' and those the history calls unique.
  */
  lemma TableRefinesHistory(key: Key, events: seq<Event>, now: int, page: string, unique: bool)
    requires Orderly(events, now) && PagesNulFree(events)
    ensures var (end, answers) := Run(Empty(key), events, true);
      && answers == Recall(Past([], key), events).1
      && CountOf(end.hits, page, unique) == Tally(events, answers, page, unique)
  {
    RunRefines(Empty(key), Past([], key), now, events, true);
    CountersTally(Empty(key), events, true, page, unique);
  }

  // ----- The sweep is invisible -----

  function WithoutCleanups(events: seq<Event>): seq<Event>
    decreases |events|
  {
    if events == [] then []
    else (if events[0].Cleanup? then [] else [events[0]]) + WithoutCleanups(events[1..])
  }

  lemma {:induction false} CleanupsMeanNothing(p: Past, events: seq<Event>, now: int, now': int)
    requires Orderly(events, now) && now' <= now && PagesNulFree(events)
    ensures Recall(p, WithoutCleanups(events)) == Recall(p, events)
    ensures Orderly(WithoutCleanups(events), now') && PagesNulFree(WithoutCleanups(events))
    decreases |events|
  {
    if events != [] {
      var e, rest := events[0], WithoutCleanups(events[1..]);
      OrderlyPeels(events, now);
      var after := if e.Cleanup? then now' else Reading(e, now');
      CleanupsMeanNothing(Remember(p, e).0, events[1..], Reading(e, now), after);
      if e.Cleanup? {
        assert WithoutCleanups(events) == rest;
        assert [] + Recall(p, events[1..]).1 == Recall(p, events[1..]).1;
      } else {
        assert WithoutCleanups(events) == [e] + rest && ([e] + rest)[1..] == rest;
      }
    }
  }

  lemma {:induction false} CleanupsTallyNothing(events: seq<Event>, answers: seq<Answer>, page: string, unique: bool)
    ensures Tally(WithoutCleanups(events), answers, page, unique) == Tally(events, answers, page, unique)
    decreases |events|
  {
    if events != [] && answers != [] {
      var rest := WithoutCleanups(events[1..]);
      assert WithoutCleanups(events) == (if events[0].Cleanup? then rest else [events[0]] + rest);
      CleanupsTallyNothing(events[1..], if events[0].Request? then answers[1..] else answers, page, unique);
    }
  }

  /** Sweeping on every request and at any other moment changes no answer and no counter. */
  lemma SweepIsInvisible(s: Store, p: Past, events: seq<Event>, now: int, page: string, unique: bool)
    requires Keyed(s.hits) && Sim(s, p, now)
    requires Orderly(events, now) && PagesNulFree(events)
    ensures Run(s, events, true).1 == Run(s, WithoutCleanups(events), false).1
    ensures CountOf(Run(s, events, true).0.hits, page, unique)
         == CountOf(Run(s, WithoutCleanups(events), false).0.hits, page, unique)
  {
    CleanupsMeanNothing(p, events, now, now);
    RunRefines(s, p, now, events, true);
    RunRefines(s, p, now, WithoutCleanups(events), false);
    CountersTally(s, events, true, page, unique);
    CountersTally(s, WithoutCleanups(events), false, page, unique);
    CleanupsTallyNothing(events, Run(s, events, true).1, page, unique);
  }
}
