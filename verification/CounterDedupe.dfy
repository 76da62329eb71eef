/**
 What the dedupe table is worth under concurrency: in every interleaving it agrees with the
 log of what was ever written to it, and every judgement is that of the log.
*/
module CounterDedupe {
  import opened Text
  import opened HitTable
  import opened HitCounter
  import opened Greedy
  import opened CounterRace
  import opened Sets

  /** The time last written for this identifier. */
  function Latest(log: seq<LogEntry>, id: Id): Option<int> {
    if log == [] then None
    else
      var e := log[|log| - 1];
      if e.id == id then Some(e.at) else Latest(log[..|log| - 1], id)
  }

  lemma LatestOfMore(log: seq<LogEntry>, e: LogEntry, id: Id)
    ensures Latest(log + [e], id) == if e.id == id then Some(e.at) else Latest(log, id)
  {
    assert (log + [e])[..|log|] == log;
  }

  /** The last time written is that of the last entry. */
  lemma {:induction false} LatestIsLast(log: seq<LogEntry>, id: Id, i: nat) returns (j: nat)
    requires i < |log| && log[i].id == id
    ensures i <= j < |log| && log[j].id == id && Latest(log, id) == Some(log[j].at)
  {
    var last := |log| - 1;
    if log[last].id == id {
      j := last;
    } else {
      j := LatestIsLast(log[..last], id, i);
    }
  }

  // ----- The table -----

  /** A row holds the last time written; a missing row was never written, or is too old to matter. */
  predicate RowOk(s: State, id: Id) {
    if id in s.seen then Latest(s.logged, id) == Some(s.seen[id])
    else Fresh(Latest(s.logged, id), s.wall, HIT_OLD_AFTER_SECONDS)
  }

  /** A sweep under way removes only what is too old. */
  predicate SweepOk(s: State, pc: Pc) {
    pc.Delete? ==> pc.cutoff <= s.wall - HIT_OLD_AFTER_SECONDS
  }

  /** Rows of older keys, which no request can name any more, are left out. */
  ghost predicate TableInv(s: State, epoch: nat) {
    && (forall id: Id :: id.epoch >= epoch ==> RowOk(s, id))
    && (forall r :: r in s.reqs ==> SweepOk(s, s.reqs[r].pc))
  }

  /** What a judgement is taken from: the row as the log had it at the time of the SELECT. */
  predicate LookupOk(s: State, q: Req, id: Id, row: Option<int>) {
    && q.horizon <= |s.logged|
    && var last := Latest(s.logged[..q.horizon], id);
       if row.Some? then last == row else Fresh(last, s.wall, HIT_OLD_AFTER_SECONDS)
  }

  /** A verdict is the log's: unique when the last time written by then lay at least 30 days back. */
  predicate VerdictOk(s: State, q: Req, v: Verdict, epoch: nat) {
    && v.horizon <= |s.logged| && v.at <= s.wall && Same(v.id, q) && v.id.epoch >= epoch
    && (v.unique <==> Fresh(Latest(s.logged[..v.horizon], v.id), v.at, HIT_OLD_AFTER_SECONDS))
  }

  predicate JudgedOk(s: State, q: Req, epoch: nat) {
    && (q.pc.Judge? ==> LookupOk(s, q, q.pc.id, q.pc.row))
    && (q.verdict.Some? ==> VerdictOk(s, q, q.verdict.value, epoch))
    && (q.pc.CountUnique? || q.didUnique ==> q.verdict.Some? && q.verdict.value.unique)
    && (q.pc.CountPlain? || (q.pc.Done? && !q.viewing) ==>
          q.verdict.Some? && (q.didUnique <==> q.verdict.value.unique))
  }

  ghost predicate JudgedInv(s: State, epoch: nat) {
    forall r :: r in s.reqs ==> JudgedOk(s, s.reqs[r], epoch)
  }

  // ----- Steps that leave the table alone -----

  predicate WritesTable(s: State, a: Action)
    requires Enabled(s, a)
  {
    a.Advance? && (s.reqs[a.r].pc.Delete? || s.reqs[a.r].pc.Log?)
  }

  predicate Quiet(s: State, s': State) {
    s'.seen == s.seen && s'.logged == s.logged && s'.swept == s.swept && s.wall <= s'.wall
  }

  lemma RowStepIsQuiet(s: State, r: nat)
    requires r in s.reqs && IsRowStep(s.reqs[r].pc)
    ensures Quiet(s, RowStep(s, r, true)) && r in RowStep(s, r, true).reqs
    ensures !RowStep(s, r, true).reqs[r].pc.Delete?
  {
  }

  lemma KeyStepIsQuiet(s: State, r: nat)
    requires r in s.reqs && IsKeyStep(s.reqs[r].pc)
    ensures Quiet(s, KeyStep(s, r)) && r in KeyStep(s, r).reqs
    ensures !KeyStep(s, r).reqs[r].pc.Delete?
  {
  }

  lemma CountStepIsQuiet(s: State, r: nat)
    requires r in s.reqs && IsCountStep(s.reqs[r].pc) && !s.reqs[r].pc.Delete? && !s.reqs[r].pc.Log?
    ensures var s' := CountStep(s, r); Quiet(s, s') && r in s'.reqs && SweepOk(s', s'.reqs[r].pc)
  {
  }

  lemma QuietUnlessWriting(s: State, a: Action)
    requires Enabled(s, a) && !WritesTable(s, a)
    ensures Quiet(s, Step(s, a, true))
    ensures a.Advance? ==> a.r in Step(s, a, true).reqs && SweepOk(Step(s, a, true), Step(s, a, true).reqs[a.r].pc)
  {
    hide RowStep, KeyStep, CountStep;
    if a.Advance? {
      if IsRowStep(s.reqs[a.r].pc) {
        RowStepIsQuiet(s, a.r);
      } else if IsKeyStep(s.reqs[a.r].pc) {
        KeyStepIsQuiet(s, a.r);
      } else {
        CountStepIsQuiet(s, a.r);
      }
    }
  }

  /** Every other request is as it was. */
  lemma OthersStay(s: State, a: Action, k: nat)
    requires FlagsInv(s) && Enabled(s, a) && k in Step(s, a, true).reqs
    ensures (k in s.reqs && Step(s, a, true).reqs[k] == s.reqs[k]) || (!a.Tick? && k == a.r)
  {
    FlagsInvStep(s, a);
    hide RowStep, KeyStep, CountStep, FlagsInv;
  }

  // ----- The table stays in step with the log -----

  lemma RowAfterSweep(s: State, cutoff: int, s': State, id: Id)
    requires RowOk(s, id) && cutoff <= s.wall - HIT_OLD_AFTER_SECONDS
    requires s'.seen == Sweep(s.seen, cutoff) && s'.logged == s.logged && s'.wall == s.wall
    ensures RowOk(s', id)
  {
  }

  lemma RowAfterLog(s: State, e: LogEntry, s': State, id: Id)
    requires RowOk(s, id)
    requires s'.seen == s.seen[e.id := e.at] && s'.logged == s.logged + [e] && s'.wall == s.wall
    ensures RowOk(s', id)
  {
    LatestOfMore(s.logged, e, id);
    hide Latest;
  }

  lemma DeleteFrame(s: State, r: nat)
    requires r in s.reqs && s.reqs[r].pc.Delete?
    ensures var s' := CountStep(s, r);
      && s'.seen == Sweep(s.seen, s.reqs[r].pc.cutoff) && s'.logged == s.logged && s'.wall == s.wall
      && s'.hits == s.hits && s'.reqs == s.reqs[r := s.reqs[r].(pc := Select(false), sweptFrom := |s.logged|)]
      && s'.swept == s.swept + |s.seen| - |s'.seen|
  {
  }

  function Written(s: State, r: nat): LogEntry
    requires r in s.reqs && s.reqs[r].pc.Log?
  {
    LogEntry(s.reqs[r].pc.id, s.reqs[r].pc.at, s.wall, r)
  }

  lemma LogFrame(s: State, r: nat)
    requires r in s.reqs && s.reqs[r].pc.Log?
    ensures var s', q, e := CountStep(s, r), s.reqs[r], Written(s, r);
      && s'.seen == s.seen[e.id := e.at] && s'.logged == s.logged + [e] && s'.wall == s.wall
      && s'.hits == s.hits && s'.swept == s.swept
      && s'.reqs == s.reqs[r := q.(pc := CountPlain, madeRow := e.id !in s.seen)]
  {
  }

  lemma TableInvStep(s: State, a: Action, epoch: nat)
    requires FlagsInv(s) && TableInv(s, epoch) && Enabled(s, a)
    ensures TableInv(Step(s, a, true), epoch)
  {
    var s' := Step(s, a, true);
    if WritesTable(s, a) {
      if s.reqs[a.r].pc.Delete? {
        DeleteFrame(s, a.r);
        assert SweepOk(s, s.reqs[a.r].pc);
      } else {
        LogFrame(s, a.r);
      }
    } else {
      QuietUnlessWriting(s, a);
    }
    hide RowStep, KeyStep, CountStep, Sweep, FlagsInv, Latest;
    forall id: Id | id.epoch >= epoch
      ensures RowOk(s', id)
    {
      assert RowOk(s, id);
      if WritesTable(s, a) {
        if s.reqs[a.r].pc.Delete? {
          RowAfterSweep(s, s.reqs[a.r].pc.cutoff, s', id);
        } else {
          RowAfterLog(s, Written(s, a.r), s', id);
        }
      }
    }
    forall k | k in s'.reqs
      ensures SweepOk(s', s'.reqs[k].pc)
    {
      OthersStay(s, a, k);
      if k in s.reqs {
        assert SweepOk(s, s.reqs[k].pc);
      }
    }
  }

  // ----- Judgements stay the log's -----

  lemma PrefixStays(log: seq<LogEntry>, more: seq<LogEntry>, n: nat)
    requires n <= |log| && log <= more
    ensures more[..n] == log[..n]
  {
  }

  /** What was judged stays so while the log grows and the clock runs. */
  lemma JudgedStays(s: State, s': State, q: Req, epoch: nat)
    requires JudgedOk(s, q, epoch) && s.logged <= s'.logged && s.wall <= s'.wall
    ensures JudgedOk(s', q, epoch)
  {
    hide Latest;
    if q.pc.Judge? {
      PrefixStays(s.logged, s'.logged, q.horizon);
    }
    if q.verdict.Some? {
      PrefixStays(s.logged, s'.logged, q.verdict.value.horizon);
    }
  }

  lemma JudgedAfterRowStep(s: State, r: nat, epoch: nat)
    requires r in s.reqs && IsRowStep(s.reqs[r].pc)
    requires FlagsOf(s.reqs[r]) && JudgedOk(s, s.reqs[r], epoch)
    ensures JudgedOk(RowStep(s, r, true), RowStep(s, r, true).reqs[r], epoch)
  {
    hide Latest, Has;
  }

  lemma JudgedAfterKeyStep(s: State, r: nat, epoch: nat)
    requires r in s.reqs && IsKeyStep(s.reqs[r].pc)
    requires FlagsOf(s.reqs[r]) && JudgedOk(s, s.reqs[r], epoch)
    ensures JudgedOk(KeyStep(s, r), KeyStep(s, r).reqs[r], epoch)
  {
    hide Latest;
  }

  /** The SELECT reads what the log has. */
  lemma JudgedAfterLookup(s: State, r: nat, epoch: nat)
    requires r in s.reqs && s.reqs[r].pc.Lookup? && RowOk(s, s.reqs[r].pc.id)
    requires FlagsOf(s.reqs[r]) && JudgedOk(s, s.reqs[r], epoch)
    ensures JudgedOk(CountStep(s, r), CountStep(s, r).reqs[r], epoch)
  {
    hide Latest;
    assert s.logged[..|s.logged|] == s.logged;
  }

  /** The comparison with the clock is the log's verdict. */
  lemma JudgedAfterJudge(s: State, r: nat, epoch: nat)
    requires r in s.reqs && s.reqs[r].pc.Judge? && Same(s.reqs[r].pc.id, s.reqs[r]) && s.reqs[r].pc.id.epoch >= epoch
    requires FlagsOf(s.reqs[r]) && JudgedOk(s, s.reqs[r], epoch)
    ensures JudgedOk(CountStep(s, r), CountStep(s, r).reqs[r], epoch)
  {
    hide Latest, Message;
  }

  lemma JudgedAfterCounting(s: State, r: nat, epoch: nat)
    requires r in s.reqs && IsCountStep(s.reqs[r].pc) && !s.reqs[r].pc.Lookup? && !s.reqs[r].pc.Judge?
    requires FlagsOf(s.reqs[r]) && JudgedOk(s, s.reqs[r], epoch)
    ensures JudgedOk(CountStep(s, r), CountStep(s, r).reqs[r], epoch)
  {
    var q, s' := s.reqs[r], CountStep(s, r);
    hide Latest, Bump, Sweep, Message;
    if q.verdict.Some? {
      PrefixStays(s.logged, s'.logged, q.verdict.value.horizon);
    }
  }

  lemma JudgedInvStep(s: State, a: Action, epoch: nat)
    requires FlagsInv(s) && CoverInv(s, epoch) && TableInv(s, epoch) && JudgedInv(s, epoch) && Enabled(s, a)
    ensures JudgedInv(Step(s, a, true), epoch)
  {
    var s' := Step(s, a, true);
    LogGrows(s, a);
    forall k | k in s'.reqs
      ensures JudgedOk(s', s'.reqs[k], epoch)
    {
      OthersStay(s, a, k);
      if k in s.reqs && s'.reqs[k] == s.reqs[k] {
        assert JudgedOk(s, s.reqs[k], epoch);
        JudgedStays(s, s', s.reqs[k], epoch);
      } else {
        JudgedMover(s, a, epoch);
      }
    }
  }

  lemma LogGrows(s: State, a: Action)
    requires Enabled(s, a)
    ensures s.logged <= Step(s, a, true).logged && s.wall <= Step(s, a, true).wall
  {
    if !WritesTable(s, a) {
      QuietUnlessWriting(s, a);
    } else if s.reqs[a.r].pc.Delete? {
      DeleteFrame(s, a.r);
    } else {
      LogFrame(s, a.r);
    }
    hide RowStep, KeyStep, CountStep;
  }

  lemma JudgedMover(s: State, a: Action, epoch: nat)
    requires FlagsInv(s) && CoverInv(s, epoch) && TableInv(s, epoch) && JudgedInv(s, epoch)
    requires Enabled(s, a) && !a.Tick?
    ensures a.r in Step(s, a, true).reqs
    ensures JudgedOk(Step(s, a, true), Step(s, a, true).reqs[a.r], epoch)
  {
    hide RowStep, KeyStep, CountStep, Latest, Message, LoggedAs;
    if a.Advance? {
      FlagsInvStep(s, a);
      var q := s.reqs[a.r];
      assert FlagsOf(q) && JudgedOk(s, q, epoch) && Carries(s, q, epoch);
      if IsRowStep(q.pc) {
        JudgedAfterRowStep(s, a.r, epoch);
      } else if IsKeyStep(q.pc) {
        JudgedAfterKeyStep(s, a.r, epoch);
      } else if q.pc.Lookup? {
        assert RowOk(s, q.pc.id);
        JudgedAfterLookup(s, a.r, epoch);
      } else if q.pc.Judge? {
        JudgedAfterJudge(s, a.r, epoch);
      } else {
        JudgedAfterCounting(s, a.r, epoch);
      }
    } else if a.Fail? {
      assert JudgedOk(s, s.reqs[a.r], epoch);
    }
  }

  // ----- Who wrote the log -----

  /** An entry is the work of a request that is past its log statement, and carries no later time. */
  predicate WrittenOk(s: State, e: LogEntry) {
    && e.author in s.reqs && s.reqs[e.author].didUnique
    && (s.reqs[e.author].pc.CountPlain? || s.reqs[e.author].pc.Done? || s.reqs[e.author].pc.Failed?)
    && e.at <= e.when <= s.wall
  }

  /** A request that made a row is in the log, and a time about to be written is past. */
  predicate WriterOk(s: State, r: nat)
    requires r in s.reqs
  {
    && (s.reqs[r].madeRow ==> exists i :: 0 <= i < |s.logged| && s.logged[i].author == r)
    && (s.reqs[r].pc.Log? ==> s.reqs[r].pc.at <= s.wall)
  }

  ghost predicate LogInv(s: State) {
    && (forall i :: 0 <= i < |s.logged| ==> WrittenOk(s, s.logged[i]))
    && (forall i, j :: 0 <= i < j < |s.logged| ==>
          s.logged[i].author != s.logged[j].author && s.logged[i].when <= s.logged[j].when)
    && (forall r :: r in s.reqs ==> WriterOk(s, r))
  }

  lemma WrittenStays(s: State, a: Action, e: LogEntry)
    requires FlagsInv(s) && Enabled(s, a) && WrittenOk(s, e)
    ensures WrittenOk(Step(s, a, true), e)
  {
    LogGrows(s, a);
    FlagsInvStep(s, a);
    if a.Advance? && a.r == e.author {
      assert s.reqs[a.r].pc.CountPlain?;
    } else {
      hide RowStep, KeyStep, CountStep, FlagsInv;
    }
  }

  lemma WriterStays(s: State, a: Action, r: nat)
    requires FlagsInv(s) && Enabled(s, a) && r in s.reqs && WriterOk(s, r) && !(a.Advance? && s.reqs[a.r].pc.Log?)
    ensures r in Step(s, a, true).reqs && WriterOk(Step(s, a, true), r)
  {
    LogGrows(s, a);
    FlagsInvStep(s, a);
    MadeRowStays(s, a);
    var s' := Step(s, a, true);
    hide RowStep, KeyStep, CountStep, FlagsInv;
    if s.reqs[r].madeRow {
      var i :| 0 <= i < |s.logged| && s.logged[i].author == r;
      assert s'.logged[i] == s.logged[i];
    }
  }

  /** Only the log statement sets the mark, and only reading the clock leads to it. */
  predicate MarkKept(s: State, s': State, r: nat)
    requires r in s.reqs
  {
    && r in s'.reqs && s'.reqs[r].madeRow == s.reqs[r].madeRow
    && (s'.reqs[r].pc.Log? ==> s'.reqs[r].pc.at == s.wall)
  }

  lemma RowStepKeepsMark(s: State, r: nat)
    requires r in s.reqs && IsRowStep(s.reqs[r].pc)
    ensures MarkKept(s, RowStep(s, r, true), r)
  {
    hide Insert, Has;
  }

  lemma KeyStepKeepsMark(s: State, r: nat)
    requires r in s.reqs && IsKeyStep(s.reqs[r].pc)
    ensures MarkKept(s, KeyStep(s, r), r)
  {
    hide Message;
  }

  lemma CountStepKeepsMark(s: State, r: nat)
    requires r in s.reqs && IsCountStep(s.reqs[r].pc) && !s.reqs[r].pc.Log?
    ensures MarkKept(s, CountStep(s, r), r)
  {
    hide Bump, Sweep;
  }

  lemma MadeRowStays(s: State, a: Action)
    requires Enabled(s, a) && !(a.Advance? && s.reqs[a.r].pc.Log?)
    ensures a.Advance? || a.Fail? ==> MarkKept(s, Step(s, a, true), a.r)
  {
    hide RowStep, KeyStep, CountStep;
    if a.Advance? {
      if IsRowStep(s.reqs[a.r].pc) {
        RowStepKeepsMark(s, a.r);
      } else if IsKeyStep(s.reqs[a.r].pc) {
        KeyStepKeepsMark(s, a.r);
      } else {
        CountStepKeepsMark(s, a.r);
      }
    }
  }

  lemma LogInvWrite(s: State, r: nat)
    requires FlagsInv(s) && LogInv(s) && r in s.reqs && s.reqs[r].pc.Log?
    ensures LogInv(CountStep(s, r))
  {
    var s', e := CountStep(s, r), Written(s, r);
    LogFrame(s, r);
    assert FlagsOf(s.reqs[r]) && WriterOk(s, r);
    hide CountStep, FlagsInv;
    forall i | 0 <= i < |s'.logged|
      ensures WrittenOk(s', s'.logged[i])
    {
      if i < |s.logged| {
        assert WrittenOk(s, s.logged[i]) && s'.logged[i] == s.logged[i];
      }
    }
    forall i, j | 0 <= i < j < |s'.logged|
      ensures s'.logged[i].author != s'.logged[j].author && s'.logged[i].when <= s'.logged[j].when
    {
      assert WrittenOk(s, s.logged[i]);
    }
    forall k | k in s'.reqs
      ensures WriterOk(s', k)
    {
      assert WriterOk(s, k);
      if k == r {
        assert s'.logged[|s.logged|] == e;
      } else if s.reqs[k].madeRow {
        var i :| 0 <= i < |s.logged| && s.logged[i].author == k;
        assert s'.logged[i] == s.logged[i];
      }
    }
  }

  lemma LogInvStep(s: State, a: Action)
    requires FlagsInv(s) && LogInv(s) && Enabled(s, a)
    ensures LogInv(Step(s, a, true))
  {
    if a.Advance? && s.reqs[a.r].pc.Log? {
      LogInvWrite(s, a.r);
    } else {
      var s' := Step(s, a, true);
      SameLog(s, a);
      hide RowStep, KeyStep, CountStep, FlagsInv, WrittenOk, WriterOk;
      forall i | 0 <= i < |s'.logged|
        ensures WrittenOk(s', s'.logged[i])
      {
        WrittenStays(s, a, s.logged[i]);
      }
      forall k | k in s'.reqs
        ensures WriterOk(s', k)
      {
        OthersStay(s, a, k);
        if k in s.reqs {
          WriterStays(s, a, k);
        } else {
          NewWriter(s, a);
        }
      }
    }
  }

  lemma SameLog(s: State, a: Action)
    requires Enabled(s, a) && !(a.Advance? && s.reqs[a.r].pc.Log?)
    ensures Step(s, a, true).logged == s.logged
  {
    if !WritesTable(s, a) {
      QuietUnlessWriting(s, a);
    } else {
      DeleteFrame(s, a.r);
    }
    hide RowStep, KeyStep, CountStep;
  }

  lemma NewWriter(s: State, a: Action)
    requires Enabled(s, a) && a.Begin?
    ensures a.r in Step(s, a, true).reqs && WriterOk(Step(s, a, true), a.r)
  {
  }

  // ----- How many rows and increments -----

  /** Requests, on any page, that created a dedupe row. */
  function RowMakers(s: State): set<nat> {
    set r | r in s.reqs && s.reqs[r].madeRow
  }

  /** Requests, on any page, that did this increment. */
  function Makers(s: State, unique: bool): set<nat> {
    set r | r in s.reqs && Did(s.reqs[r], unique)
  }

  /** Rows in the table and rows swept are those there at the start and those created. */
  predicate RowCountInv(s: State, base: map<Id, int>) {
    |s.seen| + s.swept == |base| + |RowMakers(s)|
  }

  /** Each site total holds what it started with and one for each request that did the increment. */
  predicate TotalInv(s: State, base: seq<Row>) {
    forall u :: Total(s.hits, u) == Total(base, u) + |Makers(s, u)|
  }

  lemma SameRowMakers(s: State, a: Action)
    requires FlagsInv(s) && Enabled(s, a) && !(a.Advance? && s.reqs[a.r].pc.Log?)
    ensures RowMakers(Step(s, a, true)) == RowMakers(s)
  {
    var s' := Step(s, a, true);
    FlagsInvStep(s, a);
    MadeRowStays(s, a);
    assert a.Begin? ==> !s'.reqs[a.r].madeRow;
    hide RowStep, KeyStep, CountStep, FlagsInv;
    forall k
      ensures k in RowMakers(s') <==> k in RowMakers(s)
    {
      if k in s'.reqs && !(k in s.reqs && s'.reqs[k] == s.reqs[k]) {
        OthersStayAs(s, a, k);
      }
    }
  }

  lemma OthersStayAs(s: State, a: Action, k: nat)
    requires Enabled(s, a) && k in Step(s, a, true).reqs
    requires a.Advance? || a.Fail? ==> Moves(s, Step(s, a, true), a.r)
    ensures (k in s.reqs && Step(s, a, true).reqs[k] == s.reqs[k]) || (!a.Tick? && k == a.r)
  {
    hide RowStep, KeyStep, CountStep;
  }

  lemma MarkedMaker(s: State, s': State, r: nat, q: Req)
    requires r in s.reqs && !s.reqs[r].madeRow && s'.reqs == s.reqs[r := q]
    ensures |RowMakers(s')| == |RowMakers(s)| + if q.madeRow then 1 else 0
  {
    var before, after := RowMakers(s), RowMakers(s');
    forall k
      ensures k in after <==> k in before || (k == r && q.madeRow)
    {
    }
    assert r !in before;
    if q.madeRow {
      assert after == before + {r};
    } else {
      assert after == before;
    }
  }

  lemma LogMakesRow(s: State, r: nat)
    requires r in s.reqs && s.reqs[r].pc.Log? && FlagsOf(s.reqs[r])
    ensures |RowMakers(CountStep(s, r))| == |RowMakers(s)| + if s.reqs[r].pc.id in s.seen then 0 else 1
    ensures |CountStep(s, r).seen| == |s.seen| + if s.reqs[r].pc.id in s.seen then 0 else 1
  {
    LogFrame(s, r);
    var s' := CountStep(s, r);
    UpdateSize(s.seen, s.reqs[r].pc.id, s.reqs[r].pc.at);
    hide CountStep, RowMakers;
    MarkedMaker(s, s', r, s'.reqs[r]);
  }

  lemma RowCountInvStep(s: State, a: Action, base: map<Id, int>)
    requires FlagsInv(s) && RowCountInv(s, base) && Enabled(s, a)
    ensures RowCountInv(Step(s, a, true), base)
  {
    if a.Advance? && s.reqs[a.r].pc.Log? {
      assert FlagsOf(s.reqs[a.r]);
      LogMakesRow(s, a.r);
      LogFrame(s, a.r);
    } else {
      SameRowMakers(s, a);
      if WritesTable(s, a) {
        DeleteFrame(s, a.r);
      } else {
        QuietUnlessWriting(s, a);
      }
    }
    hide RowStep, KeyStep, CountStep, RowMakers, FlagsInv;
  }

  lemma MakersGrow(s: State, s': State, r: nat, flag: bool, unique: bool)
    requires Moves(s, s', r) && !Did(s.reqs[r], flag) && Did(s'.reqs[r], flag)
    requires Did(s'.reqs[r], !flag) == Did(s.reqs[r], !flag)
    ensures |Makers(s', unique)| == |Makers(s, unique)| + if unique == flag then 1 else 0
  {
    var before, after := Makers(s, unique), Makers(s', unique);
    if unique == flag {
      assert r !in before && after == before + {r};
    } else {
      assert after == before;
    }
  }

  lemma TotalInvIncrement(s: State, r: nat, base: seq<Row>)
    requires RowsInv(s) && TotalInv(s, base) && r in s.reqs && FlagsOf(s.reqs[r])
    requires s.reqs[r].pc.CountUnique? || s.reqs[r].pc.CountPlain?
    ensures TotalInv(CountStep(s, r), base)
  {
    var q := s.reqs[r];
    var flag := q.pc.CountUnique?;
    assert SawRow(q.pc, flag);
    AtMostOneRow(s.hits, q.page, flag);
    CountStepMoves(s, r);
    hide Bump, Has, Keyed;
    forall u
      ensures Total(CountStep(s, r).hits, u) == Total(base, u) + |Makers(CountStep(s, r), u)|
    {
      BumpTotals(s.hits, q.page, flag, u);
      MakersGrow(s, CountStep(s, r), r, flag, u);
    }
  }

  lemma MakersKept(s: State, s': State, a: Action, unique: bool)
    requires Enabled(s, a) && s' == Step(s, a, true)
    requires a.Advance? || a.Fail? ==> Moves(s, s', a.r) && SameFlags(s, s', a.r)
    ensures Makers(s', unique) == Makers(s, unique)
  {
    hide RowStep, KeyStep, CountStep;
  }

  lemma TotalInvStep(s: State, a: Action, base: seq<Row>)
    requires RowsInv(s) && FlagsInv(s) && TotalInv(s, base) && Enabled(s, a)
    ensures TotalInv(Step(s, a, true), base)
  {
    hide RowStep, KeyStep, CountStep, Total, Makers;
    var s' := Step(s, a, true);
    if a.Advance? && (s.reqs[a.r].pc.CountUnique? || s.reqs[a.r].pc.CountPlain?) {
      assert FlagsOf(s.reqs[a.r]);
      TotalInvIncrement(s, a.r, base);
    } else {
      QuietStep(s, a);
      forall u
        ensures Total(s'.hits, u) == Total(s.hits, u) && Makers(s', u) == Makers(s, u)
      {
        if a.Advance? && s.reqs[a.r].pc.Create? {
          InsertTotals(s.hits, s.reqs[a.r].page, s.reqs[a.r].pc.unique, u);
        }
        MakersKept(s, s', a, u);
      }
    }
  }

  function Authors(log: seq<LogEntry>): set<nat> {
    set i | 0 <= i < |log| :: log[i].author
  }

  lemma {:induction false} AuthorsCounted(log: seq<LogEntry>)
    requires forall i, j :: 0 <= i < j < |log| ==> log[i].author != log[j].author
    ensures |Authors(log)| == |log|
  {
    if log != [] {
      var front, last := log[..|log| - 1], log[|log| - 1];
      AuthorsCounted(front);
      assert Authors(log) == Authors(front) + {last.author} by {
        assert forall i :: 0 <= i < |front| ==> front[i] == log[i];
      }
      assert last.author !in Authors(front);
    }
  }

  /** Who created a row wrote to the log, once; who wrote to the log had done its unique increment. */
  lemma RowsAreWrittenByCounted(s: State)
    requires LogInv(s)
    ensures |RowMakers(s)| <= |s.logged| <= |Makers(s, true)|
  {
    AuthorsCounted(s.logged);
    forall r | r in RowMakers(s)
      ensures r in Authors(s.logged)
    {
      assert WriterOk(s, r);
    }
    forall r | r in Authors(s.logged)
      ensures r in Makers(s, true)
    {
      var i :| 0 <= i < |s.logged| && s.logged[i].author == r;
      assert WrittenOk(s, s.logged[i]);
    }
    SubsetSize(RowMakers(s), Authors(s.logged));
    SubsetSize(Authors(s.logged), Makers(s, true));
  }

  // ----- Expired rows go -----

  predicate PastSweep(q: Req) {
    !q.viewing && !q.pc.ReadSweepClock? && !q.pc.Delete? && !q.pc.Failed?
  }

  /** The row was written after the log had this length. */
  predicate WrittenSince(s: State, n: nat, id: Id)
    requires id in s.seen
  {
    exists i :: n <= i < |s.logged| && s.logged[i].id == id && s.logged[i].at == s.seen[id]
  }

  /** A request that has swept left no row that was 30 days old when it began; any such row was written since. */
  predicate SweptOk(s: State, q: Req) {
    && q.began <= s.wall
    && (q.pc.Delete? ==> q.pc.cutoff >= q.began - HIT_OLD_AFTER_SECONDS)
    && (PastSweep(q) ==>
          && q.sweptFrom <= |s.logged|
          && forall id :: id in s.seen && s.seen[id] < q.began - HIT_OLD_AFTER_SECONDS ==>
               WrittenSince(s, q.sweptFrom, id))
  }

  ghost predicate SweptInv(s: State) {
    forall r :: r in s.reqs ==> SweptOk(s, s.reqs[r])
  }

  /** Rows of the new table are old rows or the entry just logged. */
  predicate Grown(s: State, s': State) {
    && s.logged <= s'.logged && s.wall <= s'.wall
    && forall id :: id in s'.seen ==>
         || (id in s.seen && s'.seen[id] == s.seen[id])
         || (|s'.logged| == |s.logged| + 1
             && s'.logged[|s.logged|].id == id && s'.logged[|s.logged|].at == s'.seen[id])
  }

  lemma StepGrows(s: State, a: Action)
    requires Enabled(s, a)
    ensures Grown(s, Step(s, a, true))
  {
    if !WritesTable(s, a) {
      QuietUnlessWriting(s, a);
    } else if s.reqs[a.r].pc.Delete? {
      DeleteFrame(s, a.r);
    } else {
      LogFrame(s, a.r);
    }
    hide RowStep, KeyStep, CountStep;
  }

  lemma SweptStays(s: State, s': State, q: Req)
    requires SweptOk(s, q) && Grown(s, s')
    ensures SweptOk(s', q)
  {
    if PastSweep(q) {
      forall id | id in s'.seen && s'.seen[id] < q.began - HIT_OLD_AFTER_SECONDS
        ensures WrittenSince(s', q.sweptFrom, id)
      {
        if id in s.seen && s'.seen[id] == s.seen[id] {
          var i :| q.sweptFrom <= i < |s.logged| && s.logged[i].id == id && s.logged[i].at == s.seen[id];
          assert s'.logged[i] == s.logged[i];
        }
      }
    }
  }

  /** What matters of a request here, and how it moves on. */
  predicate Onward(s: State, q: Req, q': Req) {
    && q'.began == q.began && q'.sweptFrom == q.sweptFrom && q'.viewing == q.viewing
    && (PastSweep(q') ==> PastSweep(q))
    && (q'.pc.Delete? ==> q'.pc.cutoff == s.wall - HIT_OLD_AFTER_SECONDS)
  }

  lemma RowStepGoesOn(s: State, r: nat)
    requires r in s.reqs && IsRowStep(s.reqs[r].pc)
    ensures var s' := RowStep(s, r, true); r in s'.reqs && Onward(s, s.reqs[r], s'.reqs[r])
  {
    hide Insert, Has;
  }

  lemma KeyStepGoesOn(s: State, r: nat)
    requires r in s.reqs && IsKeyStep(s.reqs[r].pc)
    ensures var s' := KeyStep(s, r); r in s'.reqs && Onward(s, s.reqs[r], s'.reqs[r])
  {
    hide Message;
  }

  lemma CountStepGoesOn(s: State, r: nat)
    requires r in s.reqs && IsCountStep(s.reqs[r].pc) && !s.reqs[r].pc.Delete?
    ensures var s' := CountStep(s, r); r in s'.reqs && Onward(s, s.reqs[r], s'.reqs[r])
  {
    hide Bump, Sweep;
  }

  lemma SweptMover(s: State, a: Action)
    requires SweptInv(s) && Enabled(s, a) && a.Advance? && !s.reqs[a.r].pc.Delete?
    ensures var s' := Step(s, a, true); a.r in s'.reqs && SweptOk(s', s'.reqs[a.r])
  {
    StepGrows(s, a);
    hide RowStep, KeyStep, CountStep;
    assert SweptOk(s, s.reqs[a.r]);
    SweptStays(s, Step(s, a, true), s.reqs[a.r]);
    if IsRowStep(s.reqs[a.r].pc) {
      RowStepGoesOn(s, a.r);
    } else if IsKeyStep(s.reqs[a.r].pc) {
      KeyStepGoesOn(s, a.r);
    } else {
      CountStepGoesOn(s, a.r);
    }
  }

  /** The sweep itself leaves no old row. */
  lemma SweptNow(s: State, r: nat)
    requires r in s.reqs && s.reqs[r].pc.Delete? && SweptOk(s, s.reqs[r])
    ensures var s' := CountStep(s, r); r in s'.reqs && SweptOk(s', s'.reqs[r])
  {
    DeleteFrame(s, r);
    hide CountStep;
  }

  lemma SweptInvStep(s: State, a: Action)
    requires FlagsInv(s) && SweptInv(s) && Enabled(s, a)
    ensures SweptInv(Step(s, a, true))
  {
    var s' := Step(s, a, true);
    StepGrows(s, a);
    forall k | k in s'.reqs
      ensures SweptOk(s', s'.reqs[k])
    {
      OthersStay(s, a, k);
      if k in s.reqs && s'.reqs[k] == s.reqs[k] {
        assert SweptOk(s, s.reqs[k]);
        SweptStays(s, s', s.reqs[k]);
      } else if a.Advance? && s.reqs[k].pc.Delete? {
        SweptNow(s, k);
      } else if a.Advance? {
        SweptMover(s, a);
      } else if a.Fail? {
        assert SweptOk(s, s.reqs[k]);
      }
    }
  }
}
