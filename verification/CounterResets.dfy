/**
 What it costs to keep the visitor key in memory only: restarts and rotations forget
 which visitors were counted.
*/
module CounterResets {
  import opened Text
  import opened HitCounter
  import opened CounterHistory
  import opened Greedy

  // ----- One visitor's share of a run -----

  predicate Concerns(e: Event, page: string, addr: string) {
    e.Request? && !IsSearchBot(e.visit.agent) && e.visit.page == page && e.visit.addr == addr
  }

  /** How often one visitor was counted as unique on one page. */
  function UniqueVisits(events: seq<Event>, answers: seq<Answer>, page: string, addr: string): nat
    decreases |events|
  {
    if events == [] then 0
    else if !events[0].Request? then UniqueVisits(events[1..], answers, page, addr)
    else if answers == [] then 0
    else
      (if Concerns(events[0], page, addr) && answers[0] == Unique then 1 else 0)
      + UniqueVisits(events[1..], answers[1..], page, addr)
  }

  /** The instants of one visitor's visits to one page, which no key has any part in. */
  function Visits(events: seq<Event>, page: string, addr: string): seq<Mark>
    decreases |events|
  {
    if events == [] then []
    else
      (if Concerns(events[0], page, addr) then [Seen(events[0].clocks.judge, events[0].clocks.log)] else [])
      + Visits(events[1..], page, addr)
  }

  function ResetIf(b: bool): seq<Mark> {
    if b then [Reset] else []
  }

  /** What one event means to one visitor: the losses of the key, then the visit if it is theirs. */
  function MarksOf(p: Past, e: Event, page: string, addr: string): seq<Mark> {
    match e
    case Restart(_) => [Reset]
    case Cleanup(_) => []
    case Request(v, c) =>
      if IsSearchBot(v.agent) then []
      else
        var key := Refresh(p.key, c.check, c.stamp);
        ResetIf(KeyExpired(p.key, c.check))
        + ResetIf(Remember(p, e).1 == [Unique] && KeyExpired(key, c.check'))
        + (if Concerns(e, page, addr) then [Seen(c.judge, c.log)] else [])
  }

  function Marks(p: Past, events: seq<Event>, page: string, addr: string): seq<Mark>
    decreases |events|
  {
    if events == [] then []
    else MarksOf(p, events[0], page, addr) + Marks(Remember(p, events[0]).0, events[1..], page, addr)
  }

  // ----- The last counted visit -----

  /** When this visitor was last counted under this key. */
  function LastOf(log: seq<Entry>, epoch: nat, page: string, addr: string): Option<int> {
    if log == [] then None
    else
      var e := log[|log| - 1];
      if e == Entry(epoch, page, addr, e.at) then Some(e.at)
      else LastOf(log[..|log| - 1], epoch, page, addr)
  }

  /** Entries are logged in the order of the clock, under keys up to the present one. */
  predicate Chronicle(p: Past, now: int) {
    && (forall i, j :: 0 <= i <= j < |p.log| ==> p.log[i].at <= p.log[j].at)
    && (forall i :: 0 <= i < |p.log| ==> p.log[i].at <= now && p.log[i].epoch <= p.key.epoch)
  }

  lemma {:induction false} LastDecides(log: seq<Entry>, epoch: nat, page: string, addr: string, now: int)
    requires forall i, j :: 0 <= i <= j < |log| ==> log[i].at <= log[j].at
    ensures CountedLately(log, epoch, page, addr, now)
       <==> !Fresh(LastOf(log, epoch, page, addr), now, HIT_OLD_AFTER_SECONDS)
  {
    if log != [] {
      var front, e := log[..|log| - 1], log[|log| - 1];
      LastDecides(front, epoch, page, addr, now);
      if CountedLately(front, epoch, page, addr, now) {
        var i :| 0 <= i < |front| && front[i] == Entry(epoch, page, addr, front[i].at)
          && now - front[i].at < HIT_OLD_AFTER_SECONDS;
        assert log[i] == front[i] && log[i].at <= e.at;
      }
      if CountedLately(log, epoch, page, addr, now) && e != Entry(epoch, page, addr, e.at) {
        var i :| 0 <= i < |log| && log[i] == Entry(epoch, page, addr, log[i].at)
          && now - log[i].at < HIT_OLD_AFTER_SECONDS;
        assert front[i] == log[i];
      }
    }
  }

  lemma {:induction false} LastInFuture(log: seq<Entry>, epoch: nat, page: string, addr: string)
    requires forall i :: 0 <= i < |log| ==> log[i].epoch < epoch
    ensures LastOf(log, epoch, page, addr) == None
  {
    if log != [] {
      LastInFuture(log[..|log| - 1], epoch, page, addr);
    }
  }

  lemma {:induction false} LastIsPast(log: seq<Entry>, epoch: nat, page: string, addr: string, now: int)
    requires forall i :: 0 <= i < |log| ==> log[i].at <= now
    ensures Before(LastOf(log, epoch, page, addr), Some(now))
  {
    if log != [] {
      LastIsPast(log[..|log| - 1], epoch, page, addr, now);
    }
  }

  lemma LastAfterLogging(log: seq<Entry>, e: Entry, page: string, addr: string)
    ensures LastOf(log + [e], e.epoch, page, addr)
         == if e.page == page && e.addr == addr then Some(e.at) else LastOf(log, e.epoch, page, addr)
  {
    assert (log + [e])[..|log|] == log;
  }

  lemma ChronicleStep(p: Past, now: int, e: Event)
    requires Chronicle(p, now) && Orderly([e], now)
    ensures Chronicle(Remember(p, e).0, Reading(e, now))
  {
  }

  // ----- The machine's answers are the forgetful count -----

  function After(last: Option<int>, reset: bool): Option<int> {
    if reset then None else last
  }

  lemma ForgetfulPeels(last: Option<int>, first: bool, second: bool, rest: seq<Mark>, window: int)
    ensures Forgetful(last, ResetIf(first) + ResetIf(second) + rest, window)
         == Forgetful(After(After(last, first), second), rest, window)
  {
    var tail := ResetIf(second) + rest;
    assert ResetIf(first) + ResetIf(second) + rest == ResetIf(first) + tail;
    if first {
      assert ([Reset] + tail)[1..] == tail;
    } else {
      assert [] + tail == tail;
    }
    if second {
      assert ([Reset] + rest)[1..] == rest;
    } else {
      assert [] + rest == rest;
    }
  }

  lemma ForgetfulVisit(last: Option<int>, judge: int, log: int, rest: seq<Mark>, window: int)
    ensures Forgetful(last, [Seen(judge, log)] + rest, window)
         == if Fresh(last, judge, window) then 1 + Forgetful(Some(log), rest, window) else Forgetful(last, rest, window)
  {
    assert ([Seen(judge, log)] + rest)[1..] == rest;
  }

  /** How one request of anyone moves one visitor's last counted visit. */
  lemma RequestMovesLast(p: Past, now: int, v: Visit, c: Clocks, page: string, addr: string)
    requires Chronicle(p, now) && Orderly([Request(v, c)], now) && !IsSearchBot(v.agent)
    ensures var e := Request(v, c);
      var (p', answers) := Remember(p, e);
      var first := KeyExpired(p.key, c.check);
      var second := answers == [Unique] && KeyExpired(Refresh(p.key, c.check, c.stamp), c.check');
      var last := LastOf(p.log, p.key.epoch, page, addr);
      var last' := LastOf(p'.log, p'.key.epoch, page, addr);
      && (answers == [Unique] || answers == [Repeat])
      && (Concerns(e, page, addr) ==>
            (answers == [Unique] <==> Fresh(After(last, first), c.judge, HIT_OLD_AFTER_SECONDS)))
      && last' == if Concerns(e, page, addr) && answers == [Unique] then Some(c.log)
                  else After(After(last, first), second)
  {
    var key := Refresh(p.key, c.check, c.stamp);
    if KeyExpired(p.key, c.check) {
      LastInFuture(p.log, key.epoch, page, addr);
    }
    LastDecides(p.log, key.epoch, page, addr, c.judge);
    if Remember(p, Request(v, c)).1 == [Unique] {
      var key' := Refresh(key, c.check', c.stamp');
      if KeyExpired(key, c.check') {
        LastInFuture(p.log, key'.epoch, page, addr);
      }
      LastAfterLogging(p.log, Entry(key'.epoch, v.page, v.addr, c.log), page, addr);
    }
  }

  lemma {:induction false} AnswersAreForgetful(p: Past, now: int, events: seq<Event>, page: string, addr: string)
    requires Chronicle(p, now) && Orderly(events, now)
    ensures UniqueVisits(events, Recall(p, events).1, page, addr)
         == Forgetful(LastOf(p.log, p.key.epoch, page, addr), Marks(p, events, page, addr), HIT_OLD_AFTER_SECONDS)
    decreases |events|
  {
    if events != [] {
      var e, p' := events[0], Remember(p, events[0]).0;
      var rest := Marks(p', events[1..], page, addr);
      var last := LastOf(p.log, p.key.epoch, page, addr);
      OrderlyPeels(events, now);
      ChronicleStep(p, now, e);
      AnswersAreForgetful(p', Reading(e, now), events[1..], page, addr);
      AnswersPeel(p, events);
      match e
      case Restart(_) =>
        LastInFuture(p.log, p'.key.epoch, page, addr);
        assert ([Reset] + rest)[1..] == rest;
      case Cleanup(_) =>
        assert [] + rest == rest;
      case Request(v, c) =>
        if IsSearchBot(v.agent) {
          assert [] + rest == rest;
        } else {
          VisitIsForgetful(p, now, v, c, rest, page, addr);
        }
    }
  }

  lemma AnswersPeel(p: Past, events: seq<Event>)
    requires events != []
    ensures var first := Remember(p, events[0]).1;
      var rest := Recall(Remember(p, events[0]).0, events[1..]).1;
      && Recall(p, events).1 == first + rest
      && (events[0].Request? ==> |first| == 1 && Recall(p, events).1[0] == first[0] && Recall(p, events).1[1..] == rest)
      && (!events[0].Request? ==> Recall(p, events).1 == rest)
  {
  }

  lemma VisitIsForgetful(p: Past, now: int, v: Visit, c: Clocks, rest: seq<Mark>, page: string, addr: string)
    requires Chronicle(p, now) && Orderly([Request(v, c)], now) && !IsSearchBot(v.agent)
    ensures var e := Request(v, c);
      var (p', answers) := Remember(p, e);
      && answers != []
      && Forgetful(LastOf(p.log, p.key.epoch, page, addr), MarksOf(p, e, page, addr) + rest, HIT_OLD_AFTER_SECONDS)
      == (if Concerns(e, page, addr) && answers[0] == Unique then 1 else 0)
         + Forgetful(LastOf(p'.log, p'.key.epoch, page, addr), rest, HIT_OLD_AFTER_SECONDS)
  {
    var e := Request(v, c);
    var answers := Remember(p, e).1;
    var first := KeyExpired(p.key, c.check);
    var second := answers == [Unique] && KeyExpired(Refresh(p.key, c.check, c.stamp), c.check');
    var last := LastOf(p.log, p.key.epoch, page, addr);
    RequestMovesLast(p, now, v, c, page, addr);
    var resets := ResetIf(first) + ResetIf(second);
    assert MarksOf(p, e, page, addr) == resets + if Concerns(e, page, addr) then [Seen(c.judge, c.log)] else [];
    hide Remember, MarksOf, Forgetful, LastOf, ResetIf;
    if Concerns(e, page, addr) {
      Associates(resets, [Seen(c.judge, c.log)], rest);
      ForgetfulPeels(last, first, second, [Seen(c.judge, c.log)] + rest, HIT_OLD_AFTER_SECONDS);
      ForgetfulVisit(After(After(last, first), second), c.judge, c.log, rest, HIT_OLD_AFTER_SECONDS);
    } else {
      assert resets + [] == resets;
      ForgetfulPeels(last, first, second, rest, HIT_OLD_AFTER_SECONDS);
    }
  }

  // ----- The marks, read without the key -----

  lemma {:induction false} MindfulConcat(last: Option<int>, resets: seq<Mark>, marks: seq<Mark>, window: int)
    requires forall m :: m in resets ==> m.Reset?
    ensures Mindful(last, resets + marks, window) == Mindful(last, marks, window)
  {
    if resets == [] {
      assert resets + marks == marks;
    } else {
      MindfulConcat(last, resets[1..], marks, window);
      assert resets[0] in resets && (resets + marks)[1..] == resets[1..] + marks;
    }
  }

  /** A visitor's marks for one event end with the visit, if it is theirs. */
  lemma MarksEndWithVisit(p: Past, e: Event, page: string, addr: string, rest: seq<Mark>) returns (resets: seq<Mark>)
    ensures forall m :: m in resets ==> m.Reset?
    ensures MarksOf(p, e, page, addr) + rest
         == resets + if Concerns(e, page, addr) then [Seen(e.clocks.judge, e.clocks.log)] + rest else rest
  {
    var all := MarksOf(p, e, page, addr);
    if Concerns(e, page, addr) {
      resets := all[..|all| - 1];
      assert all == resets + [Seen(e.clocks.judge, e.clocks.log)];
      hide MarksOf;
      Associates(resets, [Seen(e.clocks.judge, e.clocks.log)], rest);
    } else {
      resets := all;
    }
  }

  lemma MindfulVisit(last: Option<int>, seen: Mark, rest: seq<Mark>, window: int)
    requires seen.Seen?
    ensures Mindful(last, [seen] + rest, window)
         == if Fresh(last, seen.judge, window) then 1 + Mindful(Some(seen.log), rest, window)
            else Mindful(last, rest, window)
  {
    assert ([seen] + rest)[1..] == rest;
  }

  lemma {:induction false} MarksAreVisits(p: Past, events: seq<Event>, page: string, addr: string,
                                          last: Option<int>, window: int)
    ensures Mindful(last, Marks(p, events, page, addr), window) == Mindful(last, Visits(events, page, addr), window)
    decreases |events|
  {
    if events != [] {
      var e, p' := events[0], Remember(p, events[0]).0;
      var rest, visits := Marks(p', events[1..], page, addr), Visits(events[1..], page, addr);
      var resets := MarksEndWithVisit(p, e, page, addr, rest);
      assert Marks(p, events, page, addr) == MarksOf(p, e, page, addr) + rest;
      assert Visits(events, page, addr)
          == if Concerns(e, page, addr) then [Seen(e.clocks.judge, e.clocks.log)] + visits else visits;
      hide Remember, MarksOf, Marks, Visits, Mindful;
      if Concerns(e, page, addr) {
        var seen := Seen(e.clocks.judge, e.clocks.log);
        MindfulConcat(last, resets, [seen] + rest, window);
        MindfulVisit(last, seen, rest, window);
        MindfulVisit(last, seen, visits, window);
        var last' := if Fresh(last, seen.judge, window) then Some(seen.log) else last;
        MarksAreVisits(p', events[1..], page, addr, last', window);
      } else {
        MindfulConcat(last, resets, rest, window);
        MarksAreVisits(p', events[1..], page, addr, last, window);
      }
    }
  }

  lemma {:induction false} ResetsConcat(u: seq<Mark>, v: seq<Mark>)
    ensures Resets(u + v) == Resets(u) + Resets(v)
  {
    if u == [] {
      assert u + v == v;
    } else {
      ResetsConcat(u[1..], v);
      assert (u + v)[1..] == u[1..] + v;
    }
  }

  /** Every reset is a new epoch. */
  lemma {:induction false} ResetsAreEpochs(p: Past, events: seq<Event>, page: string, addr: string)
    ensures Recall(p, events).0.key.epoch == p.key.epoch + Resets(Marks(p, events, page, addr))
    decreases |events|
  {
    if events != [] {
      var e, p' := events[0], Remember(p, events[0]).0;
      ResetsAreEpochs(p', events[1..], page, addr);
      ResetsConcat(MarksOf(p, e, page, addr), Marks(p', events[1..], page, addr));
      ResetsOfOne(p, e, page, addr);
    }
  }

  lemma ResetsOfOne(p: Past, e: Event, page: string, addr: string)
    ensures Remember(p, e).0.key.epoch == p.key.epoch + Resets(MarksOf(p, e, page, addr))
  {
    if e.Request? && !IsSearchBot(e.visit.agent) {
      var c := e.clocks;
      var first := ResetIf(KeyExpired(p.key, c.check));
      var second := ResetIf(Remember(p, e).1 == [Unique] && KeyExpired(Refresh(p.key, c.check, c.stamp), c.check'));
      var visit := if Concerns(e, page, addr) then [Seen(c.judge, c.log)] else [];
      ResetsConcat(first + second, visit);
      ResetsConcat(first, second);
      assert Resets([Reset]) == 1;
      assert Resets([Seen(c.judge, c.log)]) == 0;
    }
  }

  lemma {:induction false} OrderedConcat(resets: seq<Mark>, marks: seq<Mark>, now: int)
    requires forall m :: m in resets ==> m.Reset?
    ensures Ordered(resets + marks, now) <==> Ordered(marks, now)
  {
    if resets == [] {
      assert resets + marks == marks;
    } else {
      OrderedConcat(resets[1..], marks, now);
      assert resets[0] in resets && (resets + marks)[1..] == resets[1..] + marks;
    }
  }

  lemma {:induction false} OrderedLater(marks: seq<Mark>, now: int, later: int)
    requires Ordered(marks, later) && now <= later
    ensures Ordered(marks, now)
  {
    if marks != [] && marks[0].Reset? {
      OrderedLater(marks[1..], now, later);
    }
  }

  lemma {:induction false} MarksAreOrdered(p: Past, events: seq<Event>, now: int, page: string, addr: string)
    requires Orderly(events, now)
    ensures Ordered(Marks(p, events, page, addr), now)
    decreases |events|
  {
    if events != [] {
      var e, p' := events[0], Remember(p, events[0]).0;
      var rest := Marks(p', events[1..], page, addr);
      OrderlyPeels(events, now);
      MarksAreOrdered(p', events[1..], Reading(e, now), page, addr);
      var resets := MarksEndWithVisit(p, e, page, addr, rest);
      hide MarksOf;
      if Concerns(e, page, addr) {
        var seen := Seen(e.clocks.judge, e.clocks.log);
        assert ([seen] + rest)[1..] == rest;
        OrderedConcat(resets, [seen] + rest, now);
      } else {
        OrderedConcat(resets, rest, now);
        OrderedLater(rest, now, Reading(e, now));
      }
    }
  }

  // ----- The theorem -----

  /**
   For every run, a visitor is counted at least as often as by a counter that never loses
   its key, and at most once more for each key that was lost, to a rotation or a restart.
  */
  lemma LostKeysCostOneCountEach(key: Key, events: seq<Event>, now: int, page: string, addr: string)
    requires Orderly(events, now) && PagesNulFree(events)
    ensures var (end, answers) := Run(Empty(key), events, true);
      var counted := UniqueVisits(events, answers, page, addr);
      var ideal := Mindful(None, Visits(events, page, addr), HIT_OLD_AFTER_SECONDS);
      ideal <= counted <= ideal + (end.key.epoch - key.epoch)
  {
    var p := Past([], key);
    var marks := Marks(p, events, page, addr);
    RunRefines(Empty(key), p, now, events, true);
    AnswersAreForgetful(p, now, events, page, addr);
    MarksAreOrdered(p, events, now, page, addr);
    ResetsCostAtMostOneEach(None, marks, HIT_OLD_AFTER_SECONDS, now);
    MarksAreVisits(p, events, page, addr, None, HIT_OLD_AFTER_SECONDS);
    ResetsAreEpochs(p, events, page, addr);
  }

  /**
   A rotation does orphan rows that are still being consulted: a visitor who returns
   within 30 days of being counted is counted again exactly when the key they were
   logged under has expired.
  */
  lemma ReturnIsUniqueIffKeyExpired(s: Store, v: Visit, c: Clocks, d: Clocks)
    requires !IsSearchBot(v.agent) && Counted(s, v, c, true).1 == Unique
    requires forall id :: id in s.seen ==> id.epoch <= s.key.epoch
    requires c.log <= d.sweep <= d.judge < c.log + HIT_OLD_AFTER_SECONDS
    ensures var after := Counted(s, v, c, true).0;
      Counted(after, v, d, true).1 == Unique <==> KeyExpired(after.key, d.check)
  {
    var after := Counted(s, v, c, true).0;
    var id := IdHash(after.key, v.page, v.addr);
    assert after.seen[id] == c.log;
    assert id in Sweep(after.seen, d.sweep - HIT_OLD_AFTER_SECONDS);
    assert IdHash(Refresh(after.key, d.check, d.stamp), v.page, v.addr) in after.seen ==>
        !KeyExpired(after.key, d.check);
  }
}
