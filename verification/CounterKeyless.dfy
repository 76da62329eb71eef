/**
 What the primary key of `cshits` is for: without it two first hits leave two rows for one
 count, and from then on the count that is displayed and the site total disagree.
*/
module CounterKeyless {
  import opened Text
  import opened HitTable
  import opened HitCounter
  import opened CounterRace

  /** With two rows for one count, every increment adds one to what is displayed and two to the total. */
  lemma IncrementCountsTwice(hits: seq<Row>, page: string, unique: bool)
    requires MatchCount(hits, page, unique) == 2
    ensures CountOf(Bump(hits, page, unique), page, unique) == CountOf(hits, page, unique) + 1
    ensures Total(Bump(hits, page, unique), unique) == Total(hits, unique) + 2
  {
    BumpCounts(hits, page, unique, page, unique);
    BumpTotals(hits, page, unique, unique);
  }

  // ----- A run in which it happens -----

  /** Two calls of `add_hit` for one page under a fresh key. */
  predicate Scene(s: State, page: string) {
    && s.writer == None && !KeyExpired(s.key, s.mono)
    && (forall id :: id in s.seen ==> id.epoch < s.key.epoch)
    && 0 in s.reqs && 1 in s.reqs
    && s.reqs[0].page == page && s.reqs[1].page == page && !s.reqs[0].viewing && !s.reqs[1].viewing
  }

  /** The request moves, and its rows and place are as given. */
  predicate Moved(s: State, s': State, r: nat, pc: Pc, hits: seq<Row>) {
    && r in s.reqs && r in s'.reqs && s'.reqs[r].pc == pc && s'.hits == hits
    && s'.reqs[r].viewing == s.reqs[r].viewing
    && forall k :: k in s.reqs && k != r ==> k in s'.reqs && s'.reqs[k] == s.reqs[k]
  }

  lemma Setting(base: State, page: string) returns (run: seq<Action>, s: State)
    requires Initial(base) && base.hits == [] && !KeyExpired(base.key, base.mono) && NulFree(page)
    ensures Reaches(base, run, s, false) && Scene(s, page) && s.hits == []
    ensures s.reqs[0].pc == s.reqs[1].pc == ReadSweepClock
  {
    var first, second := Begin(0, page, "a", false), Begin(1, page, "b", false);
    Extend(base, [], base, first, false);
    Extend(base, [] + [first], Step(base, first, false), second, false);
    run := [] + [first] + [second];
    s := Step(Step(base, first, false), second, false);
  }

  lemma ClockAndSweep(base: State, page: string, run: seq<Action>, s: State, r: nat)
    returns (longer: seq<Action>, s': State)
    requires Reaches(base, run, s, false) && Scene(s, page) && r < 2 && s.reqs[r].pc == ReadSweepClock
    ensures Reaches(base, longer, s', false) && Scene(s', page) && Moved(s, s', r, Select(false), s.hits)
  {
    hide Reaches;
    var one := Step(s, Advance(r), false);
    Extend(base, run, s, Advance(r), false);
    Extend(base, run + [Advance(r)], one, Advance(r), false);
    longer := run + [Advance(r)] + [Advance(r)];
    s' := Step(one, Advance(r), false);
  }

  lemma NoRow(base: State, page: string, run: seq<Action>, s: State, r: nat, unique: bool)
    returns (longer: seq<Action>, s': State)
    requires Reaches(base, run, s, false) && Scene(s, page) && r < 2
    requires s.reqs[r].pc == Select(unique) && !Has(s.hits, page, unique)
    ensures Reaches(base, longer, s', false) && Scene(s', page) && Moved(s, s', r, Create(unique), s.hits)
  {
    hide Reaches, Has;
    Extend(base, run, s, Advance(r), false);
    longer := run + [Advance(r)];
    s' := Step(s, Advance(r), false);
  }

  /** Without the key the second INSERT of a row succeeds like the first. */
  lemma NewRow(base: State, page: string, run: seq<Action>, s: State, r: nat, unique: bool)
    returns (longer: seq<Action>, s': State)
    requires Reaches(base, run, s, false) && Scene(s, page) && r < 2 && s.reqs[r].pc == Create(unique)
    ensures Reaches(base, longer, s', false) && Scene(s', page)
    ensures Moved(s, s', r, if unique then CheckKey(Judging) else Select(true), Insert(s.hits, page, unique))
  {
    hide Reaches, Has, Insert;
    Extend(base, run, s, Advance(r), false);
    longer := run + [Advance(r)];
    s' := Step(s, Advance(r), false);
  }

  /** Both requests find the row missing, and both insert it. */
  lemma TwoRows(base: State, page: string) returns (run: seq<Action>, s: State)
    requires Initial(base) && base.hits == [] && !KeyExpired(base.key, base.mono) && NulFree(page)
    ensures Reaches(base, run, s, false) && Scene(s, page) && s.reqs[0].pc == Select(true)
    ensures s.hits == [Row(page, false, 0), Row(page, false, 0)]
  {
    run, s := Setting(base, page);
    hide Reaches, Step;
    run, s := ClockAndSweep(base, page, run, s, 0);
    run, s := ClockAndSweep(base, page, run, s, 1);
    assert !Has(s.hits, page, false);
    run, s := NoRow(base, page, run, s, 0, false);
    run, s := NoRow(base, page, run, s, 1, false);
    run, s := NewRow(base, page, run, s, 0, false);
    run, s := NewRow(base, page, run, s, 1, false);
  }

  /** Up to the SELECT on the dedupe table, or to the clock reading before its INSERT. */
  lemma UseOfKey(base: State, page: string, run: seq<Action>, s: State, r: nat, why: Purpose)
    returns (longer: seq<Action>, s': State, id: Id)
    requires Reaches(base, run, s, false) && Scene(s, page) && r < 2 && s.reqs[r].pc == CheckKey(why)
    ensures Reaches(base, longer, s', false) && Scene(s', page) && id !in s'.seen
    ensures Moved(s, s', r, if why.Judging? then Lookup(id) else ReadLogClock(id), s.hits)
  {
    hide Reaches, Message;
    var one := Step(s, Advance(r), false);
    Extend(base, run, s, Advance(r), false);
    Extend(base, run + [Advance(r)], one, Advance(r), false);
    longer := run + [Advance(r)] + [Advance(r)];
    s' := Step(one, Advance(r), false);
    id := IdHash(s.key, s.reqs[r].page, s.reqs[r].addr);
  }

  lemma FoundUnique(base: State, page: string, run: seq<Action>, s: State, r: nat, id: Id)
    returns (longer: seq<Action>, s': State)
    requires Reaches(base, run, s, false) && Scene(s, page) && r < 2 && s.reqs[r].pc == Lookup(id) && id !in s.seen
    ensures Reaches(base, longer, s', false) && Scene(s', page) && Moved(s, s', r, CountUnique, s.hits)
  {
    hide Reaches;
    var one := Step(s, Advance(r), false);
    Extend(base, run, s, Advance(r), false);
    Extend(base, run + [Advance(r)], one, Advance(r), false);
    longer := run + [Advance(r)] + [Advance(r)];
    s' := Step(one, Advance(r), false);
  }

  lemma CountedUnique(base: State, page: string, run: seq<Action>, s: State, r: nat)
    returns (longer: seq<Action>, s': State)
    requires Reaches(base, run, s, false) && Scene(s, page) && r < 2 && s.reqs[r].pc == CountUnique
    ensures Reaches(base, longer, s', false) && Scene(s', page)
    ensures Moved(s, s', r, CheckKey(Logging), Bump(s.hits, page, true))
  {
    hide Reaches, Bump;
    Extend(base, run, s, Advance(r), false);
    longer := run + [Advance(r)];
    s' := Step(s, Advance(r), false);
  }

  lemma RowIsWritten(base: State, page: string, run: seq<Action>, s: State, r: nat, id: Id)
    returns (longer: seq<Action>, s': State)
    requires Reaches(base, run, s, false) && Scene(s, page) && r < 2 && s.reqs[r].pc == ReadLogClock(id)
    ensures Reaches(base, longer, s', false) && Moved(s, s', r, CountPlain, s.hits) && s'.reqs[r].page == page
  {
    hide Reaches;
    var one := Step(s, Advance(r), false);
    Extend(base, run, s, Advance(r), false);
    Extend(base, run + [Advance(r)], one, Advance(r), false);
    longer := run + [Advance(r)] + [Advance(r)];
    s' := Step(one, Advance(r), false);
  }

  lemma PlainCounted(base: State, page: string, run: seq<Action>, s: State, r: nat)
    returns (longer: seq<Action>, s': State)
    requires Reaches(base, run, s, false) && r in s.reqs && s.reqs[r].pc == CountPlain && s.reqs[r].page == page
    ensures Reaches(base, longer, s', false) && Moved(s, s', r, Done, Bump(s.hits, page, false))
  {
    hide Reaches, Bump;
    Extend(base, run, s, Advance(r), false);
    longer := run + [Advance(r)];
    s' := Step(s, Advance(r), false);
  }

  lemma RowsOfOneHit(page: string)
    ensures var two := [Row(page, false, 0), Row(page, false, 0)];
      var hits := Bump(Bump(Insert(two, page, true), page, true), page, false);
      && !Has(two, page, true)
      && hits == [Row(page, false, 1), Row(page, false, 1), Row(page, true, 1)]
  {
    var two := [Row(page, false, 0), Row(page, false, 0)];
    var three := Insert(two, page, true);
    assert three == [Row(page, false, 0), Row(page, false, 0), Row(page, true, 0)];
    assert forall i: nat :: i < 3 ==> Bump(three, page, true)[i] == three[i].(count := if i == 2 then 1 else 0) by {
      BumpAt(three, page, true, 0);
      BumpAt(three, page, true, 1);
      BumpAt(three, page, true, 2);
    }
    var counted := [Row(page, false, 0), Row(page, false, 0), Row(page, true, 1)];
    assert Bump(three, page, true) == counted;
    BumpAt(counted, page, false, 0);
    BumpAt(counted, page, false, 1);
    BumpAt(counted, page, false, 2);
  }

  /** The first of the two requests, up to the clock reading before it writes its dedupe row. */
  lemma FirstIsCounted(base: State, page: string) returns (run: seq<Action>, s: State, id: Id)
    requires Initial(base) && base.hits == [] && !KeyExpired(base.key, base.mono) && NulFree(page)
    ensures Reaches(base, run, s, false) && Scene(s, page) && s.reqs[0].pc == ReadLogClock(id)
    ensures s.hits == Bump(Insert([Row(page, false, 0), Row(page, false, 0)], page, true), page, true)
  {
    run, s := TwoRows(base, page);
    RowsOfOneHit(page);
    hide Reaches, Step, Bump, Insert, Has, KeyExpired, Initial;
    run, s := NoRow(base, page, run, s, 0, true);
    run, s := NewRow(base, page, run, s, 0, true);
    run, s, id := UseOfKey(base, page, run, s, 0, Judging);
    run, s := FoundUnique(base, page, run, s, 0, id);
    run, s := CountedUnique(base, page, run, s, 0);
    run, s, id := UseOfKey(base, page, run, s, 0, Logging);
  }

  /**
   The primary key is load-bearing. Without it two first hits leave two rows for the page's count: after the
   first of the two is recorded the page displays one hit, the site total says two, and every further hit
   widens the gap.
  */
  lemma WithoutTheKeyCountsDiverge(base: State, page: string) returns (run: seq<Action>)
    requires Initial(base) && base.hits == [] && !KeyExpired(base.key, base.mono) && NulFree(page)
    ensures Possible(base, run, false)
    ensures var s := After(base, run, false);
      && 0 in s.reqs && s.reqs[0].pc == Done && !s.reqs[0].viewing && MatchCount(s.hits, page, false) == 2
      && CountOf(s.hits, page, false) == 1 && Total(s.hits, false) == 2
  {
    var s, id;
    run, s, id := FirstIsCounted(base, page);
    RowsOfOneHit(page);
    hide Reaches, Step, Bump, Insert, Has, KeyExpired, Initial, CountOf, Total, MatchCount;
    run, s := RowIsWritten(base, page, run, s, 0, id);
    run, s := PlainCounted(base, page, run, s, 0);
    TwoRowsForOneCount(s.hits, page);
    ReachedAfter(base, run, s, false);
  }

  lemma TwoRowsForOneCount(hits: seq<Row>, page: string)
    requires hits == [Row(page, false, 1), Row(page, false, 1), Row(page, true, 1)]
    ensures CountOf(hits, page, false) == 1 && Total(hits, false) == 2 && MatchCount(hits, page, false) == 2
  {
    var rest, last := hits[1..], hits[1..][1..];
    assert rest == [Row(page, false, 1), Row(page, true, 1)] && last == [Row(page, true, 1)];
    assert MatchCount(last, page, false) == 0 && Total(last, false) == 0 by {
      assert last[1..] == [];
    }
    assert MatchCount(rest, page, false) == 1 && Total(rest, false) == 1;
    assert MatchCount(hits, page, false) == 1 + MatchCount(rest, page, false);
  }
}
