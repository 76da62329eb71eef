/**
 A run in which a slow request shortens another's 30 days: it writes its row late, with the
 time it read before, over the row of a request that read a later time.
*/
module CounterLate {
  import opened Text
  import opened HitTable
  import opened HitCounter
  import opened CounterRace

  /** The key is fresh and free, and the page has its rows. */
  predicate Calm(s: State, page: string) {
    s.writer == None && !KeyExpired(s.key, s.mono) && Has(s.hits, page, false) && Has(s.hits, page, true)
  }

  /** Only the request and the tables change. */
  predicate Alone(s: State, s': State, r: nat, q: Req) {
    && r in s.reqs && s'.reqs == s.reqs[r := q] && q.page == s.reqs[r].page && q.addr == s.reqs[r].addr
    && q.viewing == s.reqs[r].viewing
    && s'.key == s.key && s'.writer == s.writer && s'.wall == s.wall && s'.mono == s.mono && s'.logged == s.logged
  }

  lemma Sweeps(base: State, run: seq<Action>, s: State, r: nat, page: string)
    returns (longer: seq<Action>, s': State)
    requires Reaches(base, run, s, true) && Calm(s, page) && r in s.reqs && s.reqs[r].pc == ReadSweepClock
    ensures Reaches(base, longer, s', true) && Alone(s, s', r, s.reqs[r].(pc := Select(false), sweptFrom := |s.logged|))
    ensures s'.hits == s.hits && s'.seen == Sweep(s.seen, s.wall - HIT_OLD_AFTER_SECONDS)
  {
    hide Reaches, Has, Sweep;
    var one := Step(s, Advance(r), true);
    Extend(base, run, s, Advance(r), true);
    Extend(base, run + [Advance(r)], one, Advance(r), true);
    longer := run + [Advance(r)] + [Advance(r)];
    s' := Step(one, Advance(r), true);
  }

  lemma FindsRows(base: State, run: seq<Action>, s: State, r: nat, page: string)
    returns (longer: seq<Action>, s': State)
    requires Reaches(base, run, s, true) && Calm(s, page)
    requires r in s.reqs && s.reqs[r].pc == Select(false) && s.reqs[r].page == page && !s.reqs[r].viewing
    ensures Reaches(base, longer, s', true) && Alone(s, s', r, s.reqs[r].(pc := CheckKey(Judging), entered := s.mono))
    ensures s'.hits == s.hits && s'.seen == s.seen
  {
    hide Reaches, Has;
    var one := Step(s, Advance(r), true);
    Extend(base, run, s, Advance(r), true);
    Extend(base, run + [Advance(r)], one, Advance(r), true);
    longer := run + [Advance(r)] + [Advance(r)];
    s' := Step(one, Advance(r), true);
  }

  lemma UsesKey(base: State, run: seq<Action>, s: State, r: nat, page: string, why: Purpose)
    returns (longer: seq<Action>, s': State)
    requires Reaches(base, run, s, true) && Calm(s, page) && r in s.reqs && s.reqs[r].pc == CheckKey(why)
    ensures Reaches(base, longer, s', true) && s'.hits == s.hits && s'.seen == s.seen
    ensures var id := IdHash(s.key, s.reqs[r].page, s.reqs[r].addr);
      Alone(s, s', r, s.reqs[r].(pc := if why.Judging? then Lookup(id) else ReadLogClock(id)))
  {
    hide Reaches, Has, Message;
    var one := Step(s, Advance(r), true);
    Extend(base, run, s, Advance(r), true);
    Extend(base, run + [Advance(r)], one, Advance(r), true);
    longer := run + [Advance(r)] + [Advance(r)];
    s' := Step(one, Advance(r), true);
  }

  lemma IsJudgedUnique(base: State, run: seq<Action>, s: State, r: nat, id: Id)
    returns (longer: seq<Action>, s': State)
    requires Reaches(base, run, s, true) && r in s.reqs && s.reqs[r].pc == Lookup(id)
    requires LooksUnique(s.seen, id, s.wall)
    ensures Reaches(base, longer, s', true) && s'.hits == s.hits && s'.seen == s.seen
    ensures Alone(s, s', r, s.reqs[r].(pc := CountUnique, horizon := |s.logged|,
                                       verdict := Some(Verdict(id, |s.logged|, s.wall, true))))
  {
    hide Reaches, Has;
    var one := Step(s, Advance(r), true);
    Extend(base, run, s, Advance(r), true);
    Extend(base, run + [Advance(r)], one, Advance(r), true);
    longer := run + [Advance(r)] + [Advance(r)];
    s' := Step(one, Advance(r), true);
  }

  lemma IsCounted(base: State, run: seq<Action>, s: State, r: nat) returns (longer: seq<Action>, s': State)
    requires Reaches(base, run, s, true) && r in s.reqs && s.reqs[r].pc == CountUnique
    ensures Reaches(base, longer, s', true) && s'.hits == Bump(s.hits, s.reqs[r].page, true) && s'.seen == s.seen
    ensures Alone(s, s', r, s.reqs[r].(pc := CheckKey(Logging), didUnique := true, entered := s.mono))
  {
    hide Reaches, Has, Bump;
    Extend(base, run, s, Advance(r), true);
    longer := run + [Advance(r)];
    s' := Step(s, Advance(r), true);
  }

  /** A request on its own, from its start to the clock reading before it writes its row. */
  predicate WasCounted(s: State, s': State, r: nat, page: string, id: Id) {
    && r in s'.reqs && Alone(s, s', r, s'.reqs[r]) && Calm(s', page)
    && s'.seen == Sweep(s.seen, s.wall - HIT_OLD_AFTER_SECONDS)
    && s'.reqs[r].pc == ReadLogClock(id) && s'.reqs[r].didUnique
    && s'.reqs[r].verdict == Some(Verdict(id, |s.logged|, s.wall, true))
  }

  lemma GetsCounted(base: State, run: seq<Action>, s: State, r: nat, page: string, id: Id)
    returns (longer: seq<Action>, s': State)
    requires Reaches(base, run, s, true) && Calm(s, page)
    requires r in s.reqs && s.reqs[r].pc == ReadSweepClock && s.reqs[r].page == page && !s.reqs[r].viewing
    requires id == IdHash(s.key, page, s.reqs[r].addr)
    requires LooksUnique(Sweep(s.seen, s.wall - HIT_OLD_AFTER_SECONDS), id, s.wall)
    ensures Reaches(base, longer, s', true) && WasCounted(s, s', r, page, id)
  {
    hide Reaches, Step, Has, Bump, Sweep, IdHash, KeyExpired, LooksUnique;
    longer, s' := Sweeps(base, run, s, r, page);
    longer, s' := FindsRows(base, longer, s', r, page);
    longer, s' := UsesKey(base, longer, s', r, page, Judging);
    longer, s' := IsJudgedUnique(base, longer, s', r, id);
    BumpKeeps(s'.hits, page, true);
    longer, s' := IsCounted(base, longer, s', r);
    longer, s' := UsesKey(base, longer, s', r, page, Logging);
  }

  lemma ReadsClock(base: State, run: seq<Action>, s: State, r: nat, id: Id)
    returns (longer: seq<Action>, s': State)
    requires Reaches(base, run, s, true) && r in s.reqs && s.reqs[r].pc == ReadLogClock(id)
    ensures Reaches(base, longer, s', true) && s'.hits == s.hits && s'.seen == s.seen
    ensures Alone(s, s', r, s.reqs[r].(pc := Log(id, s.wall)))
  {
    hide Reaches, Has;
    Extend(base, run, s, Advance(r), true);
    longer := run + [Advance(r)];
    s' := Step(s, Advance(r), true);
  }

  lemma WritesRow(base: State, run: seq<Action>, s: State, r: nat, id: Id, at: int)
    returns (longer: seq<Action>, s': State)
    requires Reaches(base, run, s, true) && r in s.reqs && s.reqs[r].pc == Log(id, at)
    ensures Reaches(base, longer, s', true)
    ensures s' == s.(seen := s.seen[id := at], logged := s.logged + [LogEntry(id, at, s.wall, r)], reqs := s'.reqs)
    ensures r in s'.reqs && s'.reqs == s.reqs[r := s'.reqs[r]]
  {
    hide Reaches, Has;
    Extend(base, run, s, Advance(r), true);
    longer := run + [Advance(r)];
    s' := Step(s, Advance(r), true);
  }

  lemma Waits(base: State, run: seq<Action>, s: State, until: int) returns (longer: seq<Action>, s': State)
    requires Reaches(base, run, s, true) && s.wall <= until
    ensures Reaches(base, longer, s', true) && s' == s.(wall := until)
  {
    hide Reaches;
    Extend(base, run, s, Tick(until, s.mono), true);
    longer := run + [Tick(until, s.mono)];
    s' := Step(s, Tick(until, s.mono), true);
  }

  lemma Begins(base: State, run: seq<Action>, s: State, r: nat, page: string, addr: string)
    returns (longer: seq<Action>, s': State)
    requires Reaches(base, run, s, true) && r !in s.reqs && NulFree(page)
    ensures Reaches(base, longer, s', true)
    ensures r in s'.reqs && s' == s.(reqs := s.reqs[r := s'.reqs[r]])
    ensures var q := s'.reqs[r]; q.page == page && q.addr == addr && !q.viewing && q.pc == ReadSweepClock
  {
    hide Reaches;
    Extend(base, run, s, Begin(r, page, addr, false), true);
    longer := run + [Begin(r, page, addr, false)];
    s' := Step(s, Begin(r, page, addr, false), true);
  }

  /** Two requests of one visitor are both counted, and the first has read its time. */
  lemma BothCounted(base: State, page: string, addr: string) returns (run: seq<Action>, s: State)
    requires Initial(base) && Calm(base, page) && NulFree(page)
    ensures Reaches(base, run, s, true) && Calm(s, page) && s.key == base.key
    ensures s.wall == base.wall && s.logged == []
    ensures 0 in s.reqs && 1 in s.reqs && 2 !in s.reqs
    ensures var id := IdHash(base.key, page, addr);
      s.reqs[0].pc == Log(id, base.wall) && s.reqs[1].pc == ReadLogClock(id)
  {
    var id := IdHash(base.key, page, addr);
    assert Reaches(base, [], base, true);
    run, s := Begins(base, [], base, 0, page, addr);
    run, s := Begins(base, run, s, 1, page, addr);
    assert id !in base.seen;
    hide Reaches, Step, Has;
    run, s := GetsCounted(base, run, s, 0, page, id);
    run, s := GetsCounted(base, run, s, 1, page, id);
    run, s := ReadsClock(base, run, s, 0, id);
  }

  /**
   The first of two requests reads the clock and stalls; the second reads it `late` seconds on and writes its
   row; then the first writes its own. A third request 30 days after the first reading is counted, although
   the second's time is less than 30 days old.
  */
  lemma LateWriterShortensWindow(base: State, page: string, addr: string, late: nat)
    returns (run: seq<Action>)
    requires Initial(base) && Calm(base, page) && NulFree(page) && 0 < late < HIT_OLD_AFTER_SECONDS
    ensures Possible(base, run, true)
    ensures var s := After(base, run, true);
      && |s.logged| == 2 && s.logged[0].id == s.logged[1].id
      && s.logged[0].at == s.logged[0].when == base.wall + late
      && s.logged[1].at == base.wall && s.logged[1].when == base.wall + late
      && 2 in s.reqs && s.reqs[2].didUnique && s.reqs[2].verdict.Some?
      && var v := s.reqs[2].verdict.value;
         v.horizon == 2 && v.id == s.logged[0].id && v.at == s.logged[0].at + HIT_OLD_AFTER_SECONDS - late
  {
    var id := IdHash(base.key, page, addr);
    var s;
    run, s := BothCounted(base, page, addr);
    hide Step, Has, Reaches;
    run, s := Waits(base, run, s, base.wall + late);
    run, s := ReadsClock(base, run, s, 1, id);
    run, s := WritesRow(base, run, s, 1, id, base.wall + late);
    run, s := WritesRow(base, run, s, 0, id, base.wall);
    run, s := Waits(base, run, s, base.wall + HIT_OLD_AFTER_SECONDS);
    run, s := Begins(base, run, s, 2, page, addr);
    run, s := GetsCounted(base, run, s, 2, page, id);
    ReachedAfter(base, run, s, true);
  }
}
