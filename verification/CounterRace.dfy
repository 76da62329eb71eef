/**
 The hit counter of `src/libs/phpcount.rs` under concurrency: any number of requests,
 each a program counter over atomic SQL statements, clock readings and critical sections
 of the key's read/write lock, interleaved in any order and failing at any statement.
*/
module CounterRace {
  import opened Text
  import opened HitTable
  import opened HitCounter

  /** Which of `add_hit`'s two calls of `id_hash` is under way. */
  datatype Purpose = Judging | Logging

  /** What a request is about to do. */
  datatype Pc =
    | ReadSweepClock
    | Delete(cutoff: int)
    | Select(unique: bool)
    | Create(unique: bool)
    | CheckKey(why: Purpose)      // under the read lock
    | RecheckKey(why: Purpose)    // takes the write lock
    | RotateKey(why: Purpose)     // holds the write lock
    | UseKey(why: Purpose)        // under the read lock
    | Lookup(id: Id)
    | Judge(id: Id, row: Option<int>)
    | CountUnique
    | ReadLogClock(id: Id)
    | Log(id: Id, at: int)
    | CountPlain
    | Fetch(unique: bool)         // get_hit_counts reads a row it needs
    | Done
    | Failed

  /** What `is_unique_hit` answered, when, and how much of the log its SELECT came after. */
  datatype Verdict = Verdict(id: Id, horizon: nat, at: int, unique: bool)

  /** The two counts of a page, and what `get_hit_counts` has read of them. */
  datatype Counts = Counts(plain: nat, unique: nat)

  datatype Shown = Shown(plain: Option<nat>, unique: Option<nat>)

  /**
   A call of `add_hit`, or of `get_hit_counts` when it only reads, and what it has done so far. `began` is the
   wall clock when it began and `entered` the monotonic clock when it last entered `id_hash`; `sweptFrom` and
   `horizon` are the lengths of the log when it swept and when it looked up its dedupe row. `floor` holds the
   counts of its page when it began, and `shown` those it has read.
  */
  datatype Req = Req(page: string, addr: string, viewing: bool, pc: Pc,
                     didUnique: bool, didPlain: bool, madeRow: bool,
                     began: int, entered: int, sweptFrom: nat, horizon: nat, verdict: Option<Verdict>,
                     floor: Counts, shown: Shown)

  /** A dedupe row written: the time it carries, which was read before, and the time of the writing. */
  datatype LogEntry = LogEntry(id: Id, at: int, when: int, author: nat)

  /** The tables, the key and its lock, the clocks and the requests; then what has happened so far. */
  datatype State = State(
    hits: seq<Row>, seen: map<Id, int>, key: Key, writer: Option<nat>,
    wall: int, mono: int, reqs: map<nat, Req>,
    rotations: seq<int>, logged: seq<LogEntry>, swept: int)

  datatype Action =
    | Tick(wall: int, mono: int)
    | Begin(r: nat, page: string, addr: string, viewing: bool)
    | Advance(r: nat)
    | Fail(r: nat)

  predicate IsStatement(pc: Pc) {
    pc.Delete? || pc.Select? || pc.Create? || pc.Lookup? || pc.CountUnique? || pc.Log? || pc.CountPlain? || pc.Fetch?
  }

  predicate NeedsLock(pc: Pc) {
    pc.CheckKey? || pc.RecheckKey? || pc.UseKey?
  }

  predicate IsRowStep(pc: Pc) {
    pc.Select? || pc.Create? || pc.Fetch?
  }

  predicate IsKeyStep(pc: Pc) {
    pc.CheckKey? || pc.RecheckKey? || pc.RotateKey? || pc.UseKey?
  }

  predicate IsCountStep(pc: Pc) {
    || pc.ReadSweepClock? || pc.Delete? || pc.Lookup? || pc.Judge?
    || pc.CountUnique? || pc.ReadLogClock? || pc.Log? || pc.CountPlain?
  }

  predicate Enabled(s: State, a: Action) {
    match a
    case Tick(wall, mono) => s.wall <= wall && s.mono <= mono
    case Begin(r, page, _, _) => r !in s.reqs && NulFree(page)
    case Advance(r) => r in s.reqs && !s.reqs[r].pc.Done? && !s.reqs[r].pc.Failed?
                       && (NeedsLock(s.reqs[r].pc) ==> s.writer == None)
    case Fail(r) => r in s.reqs && IsStatement(s.reqs[r].pc)
  }

  function Go(s: State, r: nat, pc: Pc): State
    requires r in s.reqs
  {
    s.(reqs := s.reqs[r := s.reqs[r].(pc := pc)])
  }

  /** Where a request goes once it has seen to one of the page's two rows. */
  function AfterRow(q: Req, unique: bool): Pc {
    if !unique then Select(true) else if q.viewing then Fetch(false) else CheckKey(Judging)
  }

  /** Where a statement against `cshits` leads. */
  function RowNext(hits: seq<Row>, q: Req, primaryKey: bool): Pc
    requires IsRowStep(q.pc)
  {
    match q.pc
    case Select(u) => if Has(hits, q.page, u) then AfterRow(q, u) else Create(u)
    case Create(u) => if primaryKey && Has(hits, q.page, u) then Failed else AfterRow(q, u)
    case Fetch(u) => if !Has(hits, q.page, u) then Failed else if u then Done else Fetch(true)
  }

  /** SELECT hitcount ... WHERE pageid = ? AND isunique = ?, which fails where there is no row. */
  function Reading(hits: seq<Row>, q: Req): Shown {
    if !q.pc.Fetch? || !Has(hits, q.page, q.pc.unique) then q.shown
    else if q.pc.unique then q.shown.(unique := Some(CountOf(hits, q.page, true)))
    else q.shown.(plain := Some(CountOf(hits, q.page, false)))
  }

  /** Statements against `cshits`; without the primary key a second INSERT succeeds. */
  function RowStep(s: State, r: nat, primaryKey: bool): State
    requires r in s.reqs && IsRowStep(s.reqs[r].pc)
  {
    var q := s.reqs[r];
    var inserts := q.pc.Create? && !(primaryKey && Has(s.hits, q.page, q.pc.unique));
    var next := RowNext(s.hits, q, primaryKey);
    s.(hits := if inserts then Insert(s.hits, q.page, q.pc.unique) else s.hits,
       reqs := s.reqs[r := q.(pc := next, entered := if next.CheckKey? then s.mono else q.entered,
                              shown := Reading(s.hits, q))])
  }

  /** The critical sections of `id_hash`. */
  function KeyStep(s: State, r: nat): State
    requires r in s.reqs && IsKeyStep(s.reqs[r].pc)
  {
    var q := s.reqs[r];
    match q.pc
    case CheckKey(why) => Go(s, r, if KeyExpired(s.key, s.mono) then RecheckKey(why) else UseKey(why))
    case RecheckKey(why) =>
      if KeyExpired(s.key, s.mono) then Go(s.(writer := Some(r)), r, RotateKey(why)) else Go(s, r, UseKey(why))
    case RotateKey(why) =>
      Go(s.(key := Key(s.key.epoch + 1, s.mono), writer := None, rotations := s.rotations + [s.mono]), r, UseKey(why))
    case UseKey(why) =>
      var id := IdHash(s.key, q.page, q.addr);
      Go(s, r, if why.Judging? then Lookup(id) else ReadLogClock(id))
  }

  /** The sweep, the dedupe row and the two increments. */
  function CountStep(s: State, r: nat): State
    requires r in s.reqs && IsCountStep(s.reqs[r].pc)
  {
    var q := s.reqs[r];
    match q.pc
    case ReadSweepClock => Go(s, r, Delete(s.wall - HIT_OLD_AFTER_SECONDS))
    case Delete(cutoff) =>
      var kept := Sweep(s.seen, cutoff);
      s.(seen := kept, swept := s.swept + |s.seen| - |kept|,
         reqs := s.reqs[r := q.(pc := Select(false), sweptFrom := |s.logged|)])
    case Lookup(id) =>
      var row := if id in s.seen then Some(s.seen[id]) else None;
      s.(reqs := s.reqs[r := q.(pc := Judge(id, row), horizon := |s.logged|)])
    case Judge(id, row) =>
      var unique := row.None? || row.value <= s.wall - HIT_OLD_AFTER_SECONDS;
      s.(reqs := s.reqs[r := q.(pc := if unique then CountUnique else CountPlain,
                                verdict := Some(Verdict(id, q.horizon, s.wall, unique)))])
    case CountUnique =>
      s.(hits := Bump(s.hits, q.page, true),
         reqs := s.reqs[r := q.(pc := CheckKey(Logging), didUnique := true, entered := s.mono)])
    case ReadLogClock(id) => Go(s, r, Log(id, s.wall))
    case Log(id, at) =>
      s.(seen := s.seen[id := at], logged := s.logged + [LogEntry(id, at, s.wall, r)],
         reqs := s.reqs[r := q.(pc := CountPlain, madeRow := id !in s.seen)])
    case CountPlain =>
      s.(hits := Bump(s.hits, q.page, false), reqs := s.reqs[r := q.(pc := Done, didPlain := true)])
  }

  function Step(s: State, a: Action, primaryKey: bool): State
    requires Enabled(s, a)
  {
    match a
    case Tick(wall, mono) => s.(wall := wall, mono := mono)
    case Begin(r, page, addr, viewing) =>
      var pc := if viewing then Select(false) else ReadSweepClock;
      var floor := Counts(CountOf(s.hits, page, false), CountOf(s.hits, page, true));
      s.(reqs := s.reqs[r := Req(page, addr, viewing, pc, false, false, false, s.wall, s.mono, 0, 0, None,
                                 floor, Shown(None, None))])
    case Fail(r) => Go(s, r, Failed)
    case Advance(r) =>
      var pc := s.reqs[r].pc;
      if IsRowStep(pc) then RowStep(s, r, primaryKey)
      else if IsKeyStep(pc) then KeyStep(s, r)
      else CountStep(s, r)
  }

  predicate Possible(s: State, run: seq<Action>, primaryKey: bool)
    decreases |run|
  {
    run == [] || (Enabled(s, run[0]) && Possible(Step(s, run[0], primaryKey), run[1..], primaryKey))
  }

  function After(s: State, run: seq<Action>, primaryKey: bool): State
    requires Possible(s, run, primaryKey)
    decreases |run|
  {
    if run == [] then s else After(Step(s, run[0], primaryKey), run[1..], primaryKey)
  }

  /** A process that has just started on an existing database, whose rows other keys made. */
  predicate Initial(s: State) {
    && s.reqs == map[] && s.writer == None && s.rotations == [] && s.logged == [] && s.swept == 0
    && Keyed(s.hits) && s.key.created <= s.mono
    && (forall id :: id in s.seen ==> id.epoch < s.key.epoch)
  }

  // ----- Building runs -----

  ghost predicate Reaches(base: State, run: seq<Action>, s: State, primaryKey: bool) {
    Possible(base, run, primaryKey) && After(base, run, primaryKey) == s
  }

  lemma {:induction false} Extend(base: State, run: seq<Action>, s: State, a: Action, primaryKey: bool)
    requires Reaches(base, run, s, primaryKey) && Enabled(s, a)
    ensures Reaches(base, run + [a], Step(s, a, primaryKey), primaryKey)
    decreases |run|
  {
    hide Step;
    var s' := Step(s, a, primaryKey);
    if run == [] {
      assert run + [a] == [a] && [a][0] == a && [a][1..] == [];
      assert Possible(s', [], primaryKey) && After(s', [], primaryKey) == s';
    } else {
      Extend(Step(base, run[0], primaryKey), run[1..], s, a, primaryKey);
      assert (run + [a])[1..] == run[1..] + [a];
    }
  }

  lemma ReachedAfter(base: State, run: seq<Action>, s: State, primaryKey: bool)
    requires Reaches(base, run, s, primaryKey)
    ensures Possible(base, run, primaryKey) && After(base, run, primaryKey) == s
  {
  }

  // ----- The rows of cshits -----

  /** Whether a request at this point has already seen to the row. */
  predicate SawRow(pc: Pc, unique: bool) {
    !pc.ReadSweepClock? && !pc.Delete? && !pc.Failed?
    && !(pc.Select? && (pc.unique ==> unique)) && !(pc.Create? && (pc.unique ==> unique))
  }

  ghost predicate RowsInv(s: State) {
    && Keyed(s.hits)
    && (forall r, u :: r in s.reqs && SawRow(s.reqs[r].pc, u) ==> Has(s.hits, s.reqs[r].page, u))
  }

  /** Rows stay, and a request that moves past a row's creation finds it. */
  lemma RowStepKeepsRows(s: State, r: nat)
    requires RowsInv(s) && r in s.reqs && IsRowStep(s.reqs[r].pc)
    ensures RowsInv(RowStep(s, r, true))
  {
    if s.reqs[r].pc.Create? {
      InsertKeeps(s.hits, s.reqs[r].page, s.reqs[r].pc.unique);
    }
  }

  lemma KeyStepKeepsRows(s: State, r: nat)
    requires RowsInv(s) && r in s.reqs && IsKeyStep(s.reqs[r].pc)
    ensures RowsInv(KeyStep(s, r))
  {
  }

  lemma CountStepKeepsRows(s: State, r: nat)
    requires RowsInv(s) && r in s.reqs && IsCountStep(s.reqs[r].pc)
    ensures RowsInv(CountStep(s, r))
  {
    hide CountStep, Keyed, Has, Bump;
    CountStepOnRows(s, r);
    BumpKeeps(s.hits, s.reqs[r].page, true);
    BumpKeeps(s.hits, s.reqs[r].page, false);
  }

  lemma CountStepOnRows(s: State, r: nat)
    requires r in s.reqs && IsCountStep(s.reqs[r].pc)
    ensures var s' := CountStep(s, r);
      && r in s'.reqs && s'.reqs == s.reqs[r := s'.reqs[r]] && s'.reqs[r].page == s.reqs[r].page
      && (forall u :: SawRow(s'.reqs[r].pc, u) ==> SawRow(s.reqs[r].pc, u))
      && (s'.hits == s.hits
          || s'.hits == Bump(s.hits, s.reqs[r].page, true)
          || s'.hits == Bump(s.hits, s.reqs[r].page, false))
  {
    hide Has, Bump, Sweep;
    var pc := s.reqs[r].pc;
    if pc.CountUnique? || pc.Log? || pc.CountPlain? {
      assert forall u :: SawRow(pc, u);
    } else {
      assert CountStep(s, r).hits == s.hits;
    }
  }

  lemma RowsInvStep(s: State, a: Action)
    requires RowsInv(s) && Enabled(s, a)
    ensures RowsInv(Step(s, a, true))
  {
    hide RowStep, KeyStep, CountStep;
    if a.Advance? {
      if IsRowStep(s.reqs[a.r].pc) {
        RowStepKeepsRows(s, a.r);
      } else if IsKeyStep(s.reqs[a.r].pc) {
        KeyStepKeepsRows(s, a.r);
      } else {
        CountStepKeepsRows(s, a.r);
      }
    }
  }

  // ----- What each request has done -----

  predicate LoggingPc(pc: Pc) {
    || (pc.CheckKey? && pc.why.Logging?) || (pc.RecheckKey? && pc.why.Logging?)
    || (pc.RotateKey? && pc.why.Logging?) || (pc.UseKey? && pc.why.Logging?)
    || pc.ReadLogClock? || pc.Log?
  }

  predicate FlagsOf(q: Req) {
    && NulFree(q.page)
    && (q.didPlain <==> q.pc.Done? && !q.viewing)
    && (q.didUnique ==> LoggingPc(q.pc) || q.pc.CountPlain? || q.pc.Done? || q.pc.Failed?)
    && (LoggingPc(q.pc) ==> q.didUnique)
    && (q.madeRow ==> q.didUnique && (q.pc.CountPlain? || q.pc.Done? || q.pc.Failed?))
    && (q.pc.Fetch? ==> q.viewing)
    && (q.viewing ==> q.pc.Select? || q.pc.Create? || q.pc.Fetch? || q.pc.Done? || q.pc.Failed?)
  }

  predicate FlagsInv(s: State) {
    forall r :: r in s.reqs ==> FlagsOf(s.reqs[r])
  }

  /** Only request `r` moves, and it stays the same request. */
  predicate Moves(s: State, s': State, r: nat) {
    && r in s.reqs && r in s'.reqs && s'.reqs == s.reqs[r := s'.reqs[r]]
    && s'.reqs[r].page == s.reqs[r].page && s'.reqs[r].addr == s.reqs[r].addr
  }

  lemma RowStepMoves(s: State, r: nat)
    requires r in s.reqs && IsRowStep(s.reqs[r].pc)
    requires FlagsOf(s.reqs[r])
    ensures Moves(s, RowStep(s, r, true), r) && FlagsOf(RowStep(s, r, true).reqs[r])
  {
  }

  lemma KeyStepMoves(s: State, r: nat)
    requires r in s.reqs && IsKeyStep(s.reqs[r].pc)
    requires FlagsOf(s.reqs[r])
    ensures Moves(s, KeyStep(s, r), r) && FlagsOf(KeyStep(s, r).reqs[r])
  {
  }

  lemma CountStepMoves(s: State, r: nat)
    requires r in s.reqs && IsCountStep(s.reqs[r].pc)
    requires FlagsOf(s.reqs[r])
    ensures Moves(s, CountStep(s, r), r) && FlagsOf(CountStep(s, r).reqs[r])
  {
  }

  predicate SameFlags(s: State, s': State, r: nat)
    requires r in s.reqs && r in s'.reqs
  {
    s'.reqs[r].didUnique == s.reqs[r].didUnique && s'.reqs[r].didPlain == s.reqs[r].didPlain
  }

  /** What each family of steps leaves alone. */
  lemma RowStepFrame(s: State, r: nat)
    requires r in s.reqs && IsRowStep(s.reqs[r].pc)
    ensures var s' := RowStep(s, r, true);
      && s'.seen == s.seen && s'.logged == s.logged && s'.key == s.key
      && r in s'.reqs && SameFlags(s, s', r)
      && (s'.hits == s.hits || (s.reqs[r].pc.Create? && s'.hits == Insert(s.hits, s.reqs[r].page, s.reqs[r].pc.unique)))
  {
  }

  lemma KeyStepFrame(s: State, r: nat)
    requires r in s.reqs && IsKeyStep(s.reqs[r].pc)
    ensures var s' := KeyStep(s, r);
      && s'.hits == s.hits && s'.seen == s.seen && s'.logged == s.logged && s'.key.epoch >= s.key.epoch
      && r in s'.reqs && SameFlags(s, s', r)
  {
  }

  lemma CountStepFrame(s: State, r: nat)
    requires r in s.reqs && IsCountStep(s.reqs[r].pc)
    ensures var s' := CountStep(s, r);
      && s'.key == s.key && r in s'.reqs
      && (s.reqs[r].didUnique ==> s'.reqs[r].didUnique)
      && (!s.reqs[r].pc.CountUnique? && !s.reqs[r].pc.CountPlain? ==> s'.hits == s.hits && SameFlags(s, s', r))
      && (!s.reqs[r].pc.Log? ==>
            s'.logged == s.logged && forall id :: id in s'.seen ==> id in s.seen && s'.seen[id] == s.seen[id])
  {
  }

  lemma FlagsInvStep(s: State, a: Action)
    requires FlagsInv(s) && Enabled(s, a)
    ensures FlagsInv(Step(s, a, true))
    ensures a.Advance? || a.Fail? ==> Moves(s, Step(s, a, true), a.r)
  {
    hide RowStep, KeyStep, CountStep;
    if a.Advance? {
      var pc := s.reqs[a.r].pc;
      assert FlagsOf(s.reqs[a.r]);
      if IsRowStep(pc) {
        RowStepMoves(s, a.r);
      } else if IsKeyStep(pc) {
        KeyStepMoves(s, a.r);
      } else {
        CountStepMoves(s, a.r);
      }
    } else if a.Fail? {
      assert FlagsOf(s.reqs[a.r]);
    }
  }

  // ----- The counters -----

  /** The requests that have incremented this counter. */
  function Counters(s: State, page: string, unique: bool): set<nat> {
    set r | r in s.reqs && s.reqs[r].page == page && (if unique then s.reqs[r].didUnique else s.reqs[r].didPlain)
  }

  /** Each counter holds what it started with and one for each request that incremented it. */
  ghost predicate CountInv(s: State, base: seq<Row>) {
    forall p, u :: CountOf(s.hits, p, u) == CountOf(base, p, u) + |Counters(s, p, u)|
  }

  lemma CountersKept(s: State, s': State, r: nat, page: string, unique: bool)
    requires Moves(s, s', r)
    requires s'.reqs[r].didUnique == s.reqs[r].didUnique && s'.reqs[r].didPlain == s.reqs[r].didPlain
    ensures Counters(s', page, unique) == Counters(s, page, unique)
  {
  }

  predicate Did(q: Req, unique: bool) {
    if unique then q.didUnique else q.didPlain
  }

  /** An increment puts its request among those that did it, and moves no other set. */
  lemma CountersGrow(s: State, s': State, r: nat, flag: bool, page: string, unique: bool)
    requires Moves(s, s', r) && !Did(s.reqs[r], flag) && Did(s'.reqs[r], flag)
    requires Did(s'.reqs[r], !flag) == Did(s.reqs[r], !flag)
    ensures |Counters(s', page, unique)|
         == |Counters(s, page, unique)| + if page == s.reqs[r].page && unique == flag then 1 else 0
  {
    var before, after := Counters(s, page, unique), Counters(s', page, unique);
    forall k
      ensures k in after <==> k in before || (k == r && page == s.reqs[r].page && unique == flag)
    {
      if k in s.reqs && k != r {
        assert s'.reqs[k] == s.reqs[k];
      }
    }
    if page == s.reqs[r].page && unique == flag {
      assert r !in before && after == before + {r};
    } else {
      assert after == before;
    }
  }

  lemma CountInvIncrement(s: State, r: nat, base: seq<Row>)
    requires RowsInv(s) && CountInv(s, base) && r in s.reqs && FlagsOf(s.reqs[r])
    requires s.reqs[r].pc.CountUnique? || s.reqs[r].pc.CountPlain?
    ensures CountInv(CountStep(s, r), base)
  {
    var q := s.reqs[r];
    assert SawRow(q.pc, q.pc.CountUnique?);
    BumpOnce(s.hits, q.page, q.pc.CountUnique?);
    CountStepMoves(s, r);
    forall p, u
      ensures CountOf(CountStep(s, r).hits, p, u) == CountOf(base, p, u) + |Counters(CountStep(s, r), p, u)|
    {
      CountersGrow(s, CountStep(s, r), r, q.pc.CountUnique?, p, u);
    }
  }

  lemma StepFrame(s: State, r: nat)
    requires Enabled(s, Advance(r))
    ensures var pc, s' := s.reqs[r].pc, Step(s, Advance(r), true);
      && s'.key.epoch >= s.key.epoch && r in s'.reqs
      && (s.reqs[r].didUnique ==> s'.reqs[r].didUnique)
      && (!pc.CountUnique? && !pc.CountPlain? ==>
            && SameFlags(s, s', r)
            && (s'.hits == s.hits || (pc.Create? && s'.hits == Insert(s.hits, s.reqs[r].page, pc.unique))))
      && (!pc.Log? ==>
            s'.logged == s.logged && forall id :: id in s'.seen ==> id in s.seen && s'.seen[id] == s.seen[id])
  {
    hide RowStep, KeyStep, CountStep;
    if IsRowStep(s.reqs[r].pc) {
      RowStepFrame(s, r);
    } else if IsKeyStep(s.reqs[r].pc) {
      KeyStepFrame(s, r);
    } else {
      CountStepFrame(s, r);
    }
  }

  /** What the other steps leave of the counters. */
  lemma QuietStep(s: State, a: Action)
    requires FlagsInv(s) && Enabled(s, a)
    requires !(a.Advance? && (s.reqs[a.r].pc.CountUnique? || s.reqs[a.r].pc.CountPlain?))
    ensures var s' := Step(s, a, true);
      && (s'.hits == s.hits
          || (a.Advance? && s.reqs[a.r].pc.Create?
              && s'.hits == Insert(s.hits, s.reqs[a.r].page, s.reqs[a.r].pc.unique)))
      && (a.Advance? || a.Fail? ==> Moves(s, s', a.r) && SameFlags(s, s', a.r))
  {
    hide RowStep, KeyStep, CountStep;
    FlagsInvStep(s, a);
    if a.Advance? {
      StepFrame(s, a.r);
    }
  }

  lemma CountInvStep(s: State, a: Action, base: seq<Row>)
    requires RowsInv(s) && FlagsInv(s) && CountInv(s, base) && Enabled(s, a)
    ensures CountInv(Step(s, a, true), base)
  {
    hide RowStep, KeyStep, CountStep;
    var s' := Step(s, a, true);
    if a.Advance? && (s.reqs[a.r].pc.CountUnique? || s.reqs[a.r].pc.CountPlain?) {
      assert FlagsOf(s.reqs[a.r]);
      CountInvIncrement(s, a.r, base);
    } else {
      QuietStep(s, a);
      forall p, u
        ensures CountOf(s'.hits, p, u) == CountOf(s.hits, p, u)
        ensures Counters(s', p, u) == Counters(s, p, u)
      {
        if a.Advance? && s.reqs[a.r].pc.Create? {
          InsertCounts(s.hits, s.reqs[a.r].page, s.reqs[a.r].pc.unique, p, u);
        }
        if a.Advance? || a.Fail? {
          CountersKept(s, s', a.r, p, u);
        }
      }
    }
  }

  // ----- The key -----

  predicate FarApart(times: seq<int>) {
    forall i :: 0 < i < |times| ==> times[i] - times[i - 1] >= VISITOR_KEY_LIFETIME
  }

  /** `base` is the key the process started with. */
  predicate KeyInv(s: State, base: Key) {
    && FarApart([base.created] + s.rotations)
    && s.key.epoch == base.epoch + |s.rotations|
    && s.key.created == ([base.created] + s.rotations)[|s.rotations|]
    && (s.writer.Some? ==> KeyExpired(s.key, s.mono))
    && (forall r :: r in s.reqs && s.reqs[r].pc.RotateKey? ==> s.writer == Some(r))
  }

  lemma RotationKeepsKeyInv(s: State, r: nat, base: Key)
    requires KeyInv(s, base) && r in s.reqs && s.reqs[r].pc.RotateKey?
    ensures KeyInv(KeyStep(s, r), base)
  {
    var before := [base.created] + s.rotations;
    assert [base.created] + (s.rotations + [s.mono]) == before + [s.mono];
    assert s.writer == Some(r);
  }

  lemma LockKeepsKeyInv(s: State, r: nat, base: Key)
    requires KeyInv(s, base) && Enabled(s, Advance(r))
    requires var pc := s.reqs[r].pc; pc.CheckKey? || pc.RecheckKey? || pc.UseKey?
    ensures KeyInv(KeyStep(s, r), base)
  {
  }

  /** The part of the state that the critical sections are about. */
  predicate KeyKept(s: State, s': State) {
    && s'.key == s.key && s'.writer == s.writer && s'.rotations == s.rotations && s.mono <= s'.mono
    && forall k :: k in s'.reqs && s'.reqs[k].pc.RotateKey? ==> k in s.reqs && s.reqs[k].pc.RotateKey?
  }

  lemma RowStepKeepsKey(s: State, r: nat)
    requires r in s.reqs && IsRowStep(s.reqs[r].pc)
    ensures KeyKept(s, RowStep(s, r, true))
  {
  }

  lemma CountStepKeepsKey(s: State, r: nat)
    requires r in s.reqs && IsCountStep(s.reqs[r].pc)
    ensures KeyKept(s, CountStep(s, r))
  {
    hide Bump, Sweep;
    assert s.reqs[r].pc.Judge? || !CountStep(s, r).reqs[r].pc.RotateKey?;
  }

  /** A step outside the critical sections does not touch the key or its lock. */
  lemma OutsideKeyStep(s: State, a: Action)
    requires Enabled(s, a) && !(a.Advance? && IsKeyStep(s.reqs[a.r].pc))
    ensures KeyKept(s, Step(s, a, true))
  {
    hide RowStep, KeyStep, CountStep;
    if a.Advance? && IsRowStep(s.reqs[a.r].pc) {
      RowStepKeepsKey(s, a.r);
    } else if a.Advance? {
      CountStepKeepsKey(s, a.r);
    }
  }

  lemma KeyInvStep(s: State, a: Action, base: Key)
    requires KeyInv(s, base) && Enabled(s, a)
    ensures KeyInv(Step(s, a, true), base)
  {
    if a.Advance? && s.reqs[a.r].pc.RotateKey? {
      RotationKeepsKeyInv(s, a.r, base);
    } else if a.Advance? && IsKeyStep(s.reqs[a.r].pc) {
      LockKeepsKeyInv(s, a.r, base);
    } else {
      OutsideKeyStep(s, a);
    }
  }

  // ----- The dedupe rows -----

  predicate Same(id: Id, q: Req) {
    id.message == Message(q.page, q.addr)
  }

  predicate LoggedAs(s: State, id: Id, at: int) {
    exists i :: 0 <= i < |s.logged| && s.logged[i].id == id && s.logged[i].at == at
  }

  /** A log entry is the work of a request of that visitor that had already been counted as unique. */
  predicate EntryOk(s: State, e: LogEntry) {
    e.author in s.reqs && s.reqs[e.author].didUnique && Same(e.id, s.reqs[e.author])
  }

  predicate Carries(s: State, q: Req, epoch: nat) {
    match q.pc
    case Lookup(id) => Same(id, q) && id.epoch >= epoch
    case Judge(id, row) => Same(id, q) && id.epoch >= epoch && (row.Some? ==> LoggedAs(s, id, row.value))
    case ReadLogClock(id) => Same(id, q)
    case Log(id, _) => Same(id, q)
    case _ => true
  }

  /** Every row that a present key can match was written by a visit that counted. */
  predicate CoverInv(s: State, epoch: nat) {
    && s.key.epoch >= epoch
    && (forall id :: id in s.seen && id.epoch >= epoch ==> LoggedAs(s, id, s.seen[id]))
    && (forall i :: 0 <= i < |s.logged| ==> EntryOk(s, s.logged[i]))
    && (forall r :: r in s.reqs ==> Carries(s, s.reqs[r], epoch))
  }

  lemma LoggedStays(s: State, s': State, id: Id, at: int)
    requires s.logged <= s'.logged && LoggedAs(s, id, at)
    ensures LoggedAs(s', id, at)
  {
    var i :| 0 <= i < |s.logged| && s.logged[i].id == id && s.logged[i].at == at;
    assert s'.logged[i] == s.logged[i];
  }

  lemma QuietTable(s: State, a: Action)
    requires FlagsInv(s) && Enabled(s, a) && !(a.Advance? && s.reqs[a.r].pc.Log?)
    ensures var s' := Step(s, a, true);
      && s'.logged == s.logged && s'.key.epoch >= s.key.epoch
      && (forall id :: id in s'.seen ==> id in s.seen && s'.seen[id] == s.seen[id])
      && (forall r :: r in s.reqs ==>
            && r in s'.reqs && s'.reqs[r].page == s.reqs[r].page && s'.reqs[r].addr == s.reqs[r].addr
            && (s.reqs[r].didUnique ==> s'.reqs[r].didUnique))
  {
    hide RowStep, KeyStep, CountStep;
    FlagsInvStep(s, a);
    if a.Advance? {
      StepFrame(s, a.r);
    }
  }

  /** What a request carries stays good while others move. */
  lemma CarriesStays(s: State, s': State, q: Req, epoch: nat)
    requires Carries(s, q, epoch) && s.logged <= s'.logged
    ensures Carries(s', q, epoch)
  {
    if q.pc.Judge? && q.pc.row.Some? {
      LoggedStays(s, s', q.pc.id, q.pc.row.value);
    }
  }

  lemma CarriesAfterRowStep(s: State, r: nat, epoch: nat)
    requires r in s.reqs && IsRowStep(s.reqs[r].pc)
    ensures Carries(RowStep(s, r, true), RowStep(s, r, true).reqs[r], epoch)
  {
  }

  lemma CarriesAfterKeyStep(s: State, r: nat, epoch: nat)
    requires r in s.reqs && IsKeyStep(s.reqs[r].pc) && s.key.epoch >= epoch
    ensures Carries(KeyStep(s, r), KeyStep(s, r).reqs[r], epoch)
  {
  }

  lemma CarriesAfterCountStep(s: State, r: nat, epoch: nat)
    requires r in s.reqs && CoverInv(s, epoch) && IsCountStep(s.reqs[r].pc) && !s.reqs[r].pc.Log?
    ensures Carries(CountStep(s, r), CountStep(s, r).reqs[r], epoch)
  {
    var s' := CountStep(s, r);
    var pc := s.reqs[r].pc;
    assert Carries(s, s.reqs[r], epoch) && s'.logged == s.logged;
    if pc.Lookup? && pc.id in s.seen {
      LoggedStays(s, s', pc.id, s.seen[pc.id]);
    }
  }

  lemma CarriesNext(s: State, a: Action, epoch: nat, r: nat)
    requires FlagsInv(s) && CoverInv(s, epoch) && Enabled(s, a) && !(a.Advance? && s.reqs[a.r].pc.Log?)
    requires r in Step(s, a, true).reqs
    ensures Carries(Step(s, a, true), Step(s, a, true).reqs[r], epoch)
  {
    hide RowStep, KeyStep, CountStep;
    QuietTable(s, a);
    FlagsInvStep(s, a);
    if a.Advance? && a.r == r {
      var pc := s.reqs[r].pc;
      if IsKeyStep(pc) {
        CarriesAfterKeyStep(s, r, epoch);
      } else if IsRowStep(pc) {
        CarriesAfterRowStep(s, r, epoch);
      } else {
        CarriesAfterCountStep(s, r, epoch);
      }
    } else if r in s.reqs {
      CarriesStays(s, Step(s, a, true), s.reqs[r], epoch);
    }
  }

  /** Steps that write no dedupe row. */
  lemma CoverInvQuiet(s: State, a: Action, epoch: nat)
    requires FlagsInv(s) && CoverInv(s, epoch) && Enabled(s, a)
    requires !(a.Advance? && s.reqs[a.r].pc.Log?)
    ensures CoverInv(Step(s, a, true), epoch)
  {
    hide RowStep, KeyStep, CountStep;
    var s' := Step(s, a, true);
    QuietTable(s, a);
    forall id | id in s'.seen && id.epoch >= epoch
      ensures LoggedAs(s', id, s'.seen[id])
    {
      LoggedStays(s, s', id, s.seen[id]);
    }
    forall i | 0 <= i < |s'.logged|
      ensures EntryOk(s', s'.logged[i])
    {
      assert EntryOk(s, s.logged[i]);
    }
    forall r | r in s'.reqs
      ensures Carries(s', s'.reqs[r], epoch)
    {
      CarriesNext(s, a, epoch, r);
    }
  }

  lemma CoverInvStep(s: State, a: Action, epoch: nat)
    requires FlagsInv(s) && CoverInv(s, epoch) && Enabled(s, a)
    ensures CoverInv(Step(s, a, true), epoch)
  {
    hide KeyStep, RowStep, CountStep, CoverInv, FlagsInv;
    if a.Advance? && s.reqs[a.r].pc.Log? {
      CoverInvLog(s, a.r, epoch);
    } else {
      CoverInvQuiet(s, a, epoch);
    }
  }

  lemma CoverInvLog(s: State, r: nat, epoch: nat)
    requires FlagsInv(s) && CoverInv(s, epoch) && r in s.reqs && s.reqs[r].pc.Log?
    ensures CoverInv(CountStep(s, r), epoch)
  {
    var s' := CountStep(s, r);
    var q := s.reqs[r];
    assert FlagsOf(q) && Carries(s, q, epoch);
    assert s'.logged[|s.logged|] == LogEntry(q.pc.id, q.pc.at, s.wall, r);
    forall id | id in s'.seen && id.epoch >= epoch
      ensures LoggedAs(s', id, s'.seen[id])
    {
      if id != q.pc.id {
        LoggedStays(s, s', id, s.seen[id]);
      }
    }
    forall i | 0 <= i < |s'.logged|
      ensures EntryOk(s', s'.logged[i])
    {
      if i < |s.logged| {
        assert EntryOk(s, s.logged[i]);
      }
    }
    forall k | k in s'.reqs
      ensures Carries(s', s'.reqs[k], epoch)
    {
      assert Carries(s, s.reqs[k], epoch);
      if k != r && s.reqs[k].pc.Judge? && s.reqs[k].pc.row.Some? {
        LoggedStays(s, s', s.reqs[k].pc.id, s.reqs[k].pc.row.value);
      }
    }
  }
}
