/**
 Whole interleaved runs of the hit counter: what every step keeps, and what that says of
 the counters, the key and the dedupe table at the end of any run.
*/
module CounterRuns {
  import opened Text
  import opened HitTable
  import opened HitCounter
  import opened Greedy
  import opened CounterRace
  import opened CounterDedupe
  import opened CounterKeys
  import opened CounterReads

  ghost predicate Inv(s: State, base: State) {
    && RowsInv(s) && FlagsInv(s) && CountInv(s, base.hits) && TotalInv(s, base.hits)
    && KeyInv(s, base.key) && AgeInv(s, base.key) && CoverInv(s, base.key.epoch)
    && TableInv(s, base.key.epoch) && JudgedInv(s, base.key.epoch)
    && LogInv(s) && RowCountInv(s, base.seen) && SweptInv(s) && ReadInv(s)
    && LockInv(s)
  }

  lemma StepKeepsInv(s: State, a: Action, base: State)
    requires Inv(s, base) && Enabled(s, a)
    ensures Inv(Step(s, a, true), base)
  {
    hide RowStep, KeyStep, CountStep, RowsInv, FlagsInv, CountInv, KeyInv, CoverInv;
    hide TotalInv, TableInv, JudgedInv, LogInv, RowCountInv, AgeInv, SweptInv, ReadInv, LockInv;
    RowsInvStep(s, a);
    FlagsInvStep(s, a);
    CountInvStep(s, a, base.hits);
    TotalInvStep(s, a, base.hits);
    KeyInvStep(s, a, base.key);
    AgeInvStep(s, a, base.key);
    CoverInvStep(s, a, base.key.epoch);
    TableInvStep(s, a, base.key.epoch);
    JudgedInvStep(s, a, base.key.epoch);
    LogInvStep(s, a);
    RowCountInvStep(s, a, base.seen);
    SweptInvStep(s, a);
    ReadInvStep(s, a);
    LockInvStep(s, a);
  }

  lemma NothingDoneYet(base: State)
    requires Initial(base)
    ensures TotalInv(base, base.hits) && RowCountInv(base, base.seen) && CountInv(base, base.hits)
  {
    hide Total;
    assert RowMakers(base) == {};
    forall u
      ensures Makers(base, u) == {}
    {
    }
    forall p, u
      ensures Counters(base, p, u) == {}
    {
    }
  }

  lemma InitialInv(base: State)
    requires Initial(base)
    ensures Inv(base, base)
  {
    NothingDoneYet(base);
    hide TotalInv, RowCountInv, CountInv;
  }

  lemma {:induction false} RunKeepsInv(s: State, run: seq<Action>, base: State)
    requires Inv(s, base) && Possible(s, run, true)
    ensures Inv(After(s, run, true), base)
    decreases |run|
  {
    if run != [] {
      hide Inv, Step;
      StepKeepsInv(s, run[0], base);
      RunKeepsInv(Step(s, run[0], true), run[1..], base);
    }
  }

  // ----- The counters -----

  /** In every interleaving each page and flag has at most one row, and a request past their creation finds both. */
  lemma RowsAreThere(base: State, run: seq<Action>, page: string, unique: bool)
    requires Initial(base) && Possible(base, run, true)
    ensures var s := After(base, run, true);
      && MatchCount(s.hits, page, unique) <= 1
      && forall r :: r in s.reqs && s.reqs[r].page == page && SawRow(s.reqs[r].pc, unique) ==>
           MatchCount(s.hits, page, unique) == 1
  {
    InitialInv(base);
    RunKeepsInv(base, run, base);
    AtMostOneRow(After(base, run, true).hits, page, unique);
  }

  /**
   Of the requests that race to insert a row one gets through: once any of them has it, the INSERT of another
   fails, and with it the request, which changes no row and counts nothing.
  */
  lemma LosingInsertFails(base: State, run: seq<Action>, r: nat, winner: nat, unique: bool)
    requires Initial(base) && Possible(base, run, true)
    requires var s := After(base, run, true);
      && r in s.reqs && s.reqs[r].pc == Create(unique)
      && winner in s.reqs && s.reqs[winner].page == s.reqs[r].page && SawRow(s.reqs[winner].pc, unique)
    ensures var s := After(base, run, true);
      && Enabled(s, Advance(r))
      && var s' := Step(s, Advance(r), true);
         r in s'.reqs && s'.reqs[r].pc == Failed && s'.hits == s.hits && s'.seen == s.seen
         && !s'.reqs[r].didUnique && !s'.reqs[r].didPlain
  {
    InitialInv(base);
    RunKeepsInv(base, run, base);
    hide After, CountInv, TotalInv, KeyInv, AgeInv, CoverInv, TableInv, JudgedInv, LogInv, RowCountInv, SweptInv;
    InsertOfPresentRow(After(base, run, true), r, winner, unique);
  }

  lemma InsertOfPresentRow(s: State, r: nat, winner: nat, unique: bool)
    requires RowsInv(s) && FlagsInv(s) && r in s.reqs && s.reqs[r].pc == Create(unique)
    requires winner in s.reqs && s.reqs[winner].page == s.reqs[r].page && SawRow(s.reqs[winner].pc, unique)
    ensures Enabled(s, Advance(r))
    ensures var s' := Step(s, Advance(r), true);
      r in s'.reqs && s'.reqs[r].pc == Failed && s'.hits == s.hits && s'.seen == s.seen
      && !s'.reqs[r].didUnique && !s'.reqs[r].didPlain
  {
    assert FlagsOf(s.reqs[r]) && Has(s.hits, s.reqs[r].page, unique);
    hide Has, Keyed, Insert;
  }

  /** No increment is lost and none is made twice: each counter has grown by exactly the requests that did it. */
  lemma NoIncrementIsLost(base: State, run: seq<Action>, page: string, unique: bool)
    requires Initial(base) && Possible(base, run, true)
    ensures var s := After(base, run, true);
      CountOf(s.hits, page, unique) == CountOf(base.hits, page, unique) + |Counters(s, page, unique)|
  {
    InitialInv(base);
    RunKeepsInv(base, run, base);
  }

  /**
   A call of `get_hit_counts` never misses the rows it reads, and when it is done each of the two counts it
   shows lies between that of its page when it began and that of its page now.
  */
  lemma ShownCountsAreTrue(base: State, run: seq<Action>, r: nat)
    requires Initial(base) && Possible(base, run, true) && r in After(base, run, true).reqs
    ensures var s := After(base, run, true);
      var q := s.reqs[r];
      && (q.pc.Fetch? ==> Enabled(s, Advance(r)) && r in Step(s, Advance(r), true).reqs
                          && Step(s, Advance(r), true).reqs[r].pc != Failed)
      && (q.viewing && q.pc.Done? ==>
            && q.shown.plain.Some? && q.floor.plain <= q.shown.plain.value <= CountOf(s.hits, q.page, false)
            && q.shown.unique.Some? && q.floor.unique <= q.shown.unique.value <= CountOf(s.hits, q.page, true))
  {
    InitialInv(base);
    RunKeepsInv(base, run, base);
    hide After, CountInv, TotalInv, KeyInv, AgeInv, CoverInv, TableInv, JudgedInv, LogInv, RowCountInv, SweptInv;
    ReaderFindsRows(After(base, run, true), r);
  }

  lemma ReaderFindsRows(s: State, r: nat)
    requires RowsInv(s) && FlagsInv(s) && ReadInv(s) && r in s.reqs
    ensures s.reqs[r].pc.Fetch? ==>
      && Enabled(s, Advance(r)) && r in Step(s, Advance(r), true).reqs
      && Step(s, Advance(r), true).reqs[r].pc != Failed
    ensures ReadOk(s, s.reqs[r])
  {
    if s.reqs[r].pc.Fetch? {
      assert SawRow(s.reqs[r].pc, s.reqs[r].pc.unique);
      hide Has, CountOf;
    }
  }

  /** Requests counted as unique whose plain increment is still to come, or never will. */
  function Halfway(s: State, page: string): set<nat> {
    Counters(s, page, true) - Counters(s, page, false)
  }

  /** Requests that were judged to be returning visitors. */
  function Returning(s: State, page: string): set<nat> {
    Counters(s, page, false) - Counters(s, page, true)
  }

  /**
   Conservation: on every page the growth of the two counters differs by the returning
   visitors on one side and the requests between their two increments on the other.
  */
  lemma CountersBalance(base: State, run: seq<Action>, page: string)
    requires Initial(base) && Possible(base, run, true)
    ensures var s := After(base, run, true);
      var uniqueGrowth := CountOf(s.hits, page, true) - CountOf(base.hits, page, true);
      var plainGrowth := CountOf(s.hits, page, false) - CountOf(base.hits, page, false);
      && uniqueGrowth + |Returning(s, page)| == plainGrowth + |Halfway(s, page)|
      && uniqueGrowth <= plainGrowth + |Halfway(s, page)|
  {
    NoIncrementIsLost(base, run, page, true);
    NoIncrementIsLost(base, run, page, false);
    Differences(Counters(After(base, run, true), page, true), Counters(After(base, run, true), page, false));
  }

  lemma Differences(a: set<nat>, b: set<nat>)
    ensures |a| + |b - a| == |b| + |a - b|
  {
    assert a == (a - b) + (a * b) && b == (b - a) + (a * b);
  }

  /**
   Rows in the table and rows swept are those of the start and those created; no more are created than rows
   are written, and no more are written than unique increments, by which the site total grows.
  */
  lemma RowsNeverExceedIncrements(base: State, run: seq<Action>)
    requires Initial(base) && Possible(base, run, true)
    ensures var s := After(base, run, true);
      && |s.seen| + s.swept == |base.seen| + |RowMakers(s)|
      && |RowMakers(s)| <= |s.logged| <= Total(s.hits, true) - Total(base.hits, true)
  {
    InitialInv(base);
    RunKeepsInv(base, run, base);
    RowsAreWrittenByCounted(After(base, run, true));
    hide After, Total, RowMakers, Makers, LogInv;
  }

  // ----- The key and the dedupe table -----

  /** However many threads see the key expire, the rotations of a run lie a key lifetime apart. */
  lemma RotationsAreApart(base: State, run: seq<Action>)
    requires Initial(base) && Possible(base, run, true)
    ensures var s := After(base, run, true);
      FarApart([base.key.created] + s.rotations) && s.key.epoch == base.key.epoch + |s.rotations|
  {
    InitialInv(base);
    RunKeepsInv(base, run, base);
  }

  /**
   And an expired key is replaced: an identifier that any request of any interleaving has from `id_hash` is of
   a key that had not expired when the request called it.
  */
  lemma ExpiredKeysAreNotUsed(base: State, run: seq<Action>, r: nat)
    requires Initial(base) && Possible(base, run, true)
    requires r in After(base, run, true).reqs && Held(After(base, run, true).reqs[r].pc).Some?
    ensures var s := After(base, run, true);
      var epoch := Held(s.reqs[r].pc).value.epoch;
      && base.key.epoch <= epoch <= base.key.epoch + |s.rotations|
      && s.reqs[r].entered < ([base.key.created] + s.rotations)[epoch - base.key.epoch] + VISITOR_KEY_LIFETIME
  {
    hide *;
    KeyAtTheEnd(base, run);
    HeldIsYoung(After(base, run, true), base.key, r);
  }

  lemma KeyAtTheEnd(base: State, run: seq<Action>)
    requires Initial(base) && Possible(base, run, true)
    ensures KeyInv(After(base, run, true), base.key) && AgeInv(After(base, run, true), base.key)
  {
    InitialInv(base);
    RunKeepsInv(base, run, base);
    hide After, KeyInv, AgeInv, RowsInv, FlagsInv, CountInv, TotalInv, CoverInv, TableInv, JudgedInv, LogInv;
    hide RowCountInv, SweptInv, ReadInv;
  }

  /**
   An expiry seen by any number of requests rotates exactly once: whichever request called `id_hash` when the
   key of an epoch had expired, a rotation has followed, its identifier is of a later key, and while the new
   key lives there has been no second one.
  */
  lemma OneRotationPerExpiry(base: State, run: seq<Action>, r: nat, n: nat)
    requires Initial(base) && Possible(base, run, true)
    requires var s := After(base, run, true);
      && n <= |s.rotations| && r in s.reqs && Held(s.reqs[r].pc).Some?
      && s.reqs[r].entered >= ([base.key.created] + s.rotations)[n] + VISITOR_KEY_LIFETIME
    ensures var s := After(base, run, true);
      && n < |s.rotations| && Held(s.reqs[r].pc).value.epoch > base.key.epoch + n
      && (s.mono < s.rotations[n] + VISITOR_KEY_LIFETIME ==>
            |s.rotations| == n + 1 && Held(s.reqs[r].pc).value.epoch == base.key.epoch + n + 1)
  {
    hide *;
    KeyAtTheEnd(base, run);
    ExpiryIsRotatedOnce(After(base, run, true), base.key, r, n);
  }

  /** The lock never stops the requests for good: while one is unfinished, it or the holder of the lock can go on. */
  lemma NoRequestIsLockedOut(base: State, run: seq<Action>, r: nat)
    requires Initial(base) && Possible(base, run, true) && r in After(base, run, true).reqs
    requires var pc := After(base, run, true).reqs[r].pc; !pc.Done? && !pc.Failed?
    ensures var s := After(base, run, true);
      Enabled(s, Advance(r)) || (s.writer.Some? && Enabled(s, Advance(s.writer.value)))
  {
    InitialInv(base);
    RunKeepsInv(base, run, base);
    hide After, KeyInv, AgeInv, RowsInv, FlagsInv, CountInv, TotalInv, CoverInv, TableInv, JudgedInv, LogInv;
    hide RowCountInv, SweptInv, ReadInv;
    SomeoneCanGoOn(After(base, run, true), r);
  }

  /** Request `who` was counted as unique, and is of the visitor and page of `q`. */
  predicate CountedVisitor(s: State, who: nat, q: Req) {
    who in s.reqs && s.reqs[who].didUnique && s.reqs[who].page == q.page && s.reqs[who].addr == q.addr
  }

  /**
   The races only overcount: a request is judged to be a returning visitor only when some
   request for the same page and address had done its unique increment and was logged
   within the last 30 days.
  */
  lemma ReturningMeansCounted(base: State, run: seq<Action>, r: nat)
    requires Initial(base) && Possible(base, run, true)
    requires var s := After(base, run, true);
      r in s.reqs && s.reqs[r].pc.Judge? && CountStep(s, r).reqs[r].pc.CountPlain?
    ensures var s := After(base, run, true);
      exists i :: 0 <= i < |s.logged|
        && s.wall - s.logged[i].at < HIT_OLD_AFTER_SECONDS
        && CountedVisitor(s, s.logged[i].author, s.reqs[r])
  {
    InitialInv(base);
    RunKeepsInv(base, run, base);
    hide After, CountStep, RowsInv, CountInv, TotalInv, KeyInv, TableInv, JudgedInv, LogInv, RowCountInv;
    RowSeenWasCounted(After(base, run, true), r, base.key.epoch);
  }

  lemma RowSeenWasCounted(s: State, r: nat, epoch: nat)
    requires FlagsInv(s) && CoverInv(s, epoch)
    requires r in s.reqs && s.reqs[r].pc.Judge? && CountStep(s, r).reqs[r].pc.CountPlain?
    ensures exists i ::
              && 0 <= i < |s.logged|
              && s.wall - s.logged[i].at < HIT_OLD_AFTER_SECONDS
              && CountedVisitor(s, s.logged[i].author, s.reqs[r])
  {
    var q := s.reqs[r];
    assert FlagsOf(q) && Carries(s, q, epoch);
    assert q.pc.row.Some? && s.wall - q.pc.row.value < HIT_OLD_AFTER_SECONDS;
    hide CountStep;
    var i :| 0 <= i < |s.logged| && s.logged[i].id == q.pc.id && s.logged[i].at == q.pc.row.value;
    var who := s.logged[i].author;
    assert EntryOk(s, s.logged[i]) && FlagsOf(s.reqs[who]);
    IdentifiesVisitor(q.page, q.addr, s.reqs[who].page, s.reqs[who].addr);
  }

  /**
   In every interleaving the table, whatever was swept, says of a visitor of any present key what the log
   says: unique when nothing was written for them, or the last time written lies 30 days back.
  */
  lemma TableAgreesWithLog(base: State, run: seq<Action>, id: Id)
    requires Initial(base) && Possible(base, run, true) && id.epoch >= base.key.epoch
    ensures var s := After(base, run, true);
      && (LooksUnique(s.seen, id, s.wall) <==> Fresh(Latest(s.logged, id), s.wall, HIT_OLD_AFTER_SECONDS))
      && (id in s.seen ==> Latest(s.logged, id) == Some(s.seen[id]))
  {
    InitialInv(base);
    RunKeepsInv(base, run, base);
    assert RowOk(After(base, run, true), id);
    hide After, Latest;
  }

  /**
   And nobody's row outlives its use: in every interleaving, once a request is past its sweep, no row is left
   that was 30 days old when the request began, but for rows written since.
  */
  lemma ExpiredRowsGo(base: State, run: seq<Action>, r: nat, id: Id)
    requires Initial(base) && Possible(base, run, true)
    requires r in After(base, run, true).reqs && PastSweep(After(base, run, true).reqs[r])
    requires id in After(base, run, true).seen
    ensures var s := After(base, run, true);
      var q := s.reqs[r];
      || s.seen[id] >= q.began - HIT_OLD_AFTER_SECONDS
      || exists i :: q.sweptFrom <= i < |s.logged| && s.logged[i].id == id && s.logged[i].at == s.seen[id]
  {
    hide *;
    SweepsAtTheEnd(base, run);
    OldRowsAreNew(After(base, run, true), r, id);
  }

  lemma SweepsAtTheEnd(base: State, run: seq<Action>)
    requires Initial(base) && Possible(base, run, true)
    ensures SweptInv(After(base, run, true))
  {
    InitialInv(base);
    RunKeepsInv(base, run, base);
    hide After, KeyInv, AgeInv, RowsInv, FlagsInv, CountInv, TotalInv, CoverInv, TableInv, JudgedInv, LogInv;
    hide RowCountInv, SweptInv, ReadInv;
  }

  lemma OldRowsAreNew(s: State, r: nat, id: Id)
    requires SweptInv(s) && r in s.reqs && PastSweep(s.reqs[r]) && id in s.seen
    ensures var q := s.reqs[r];
      || s.seen[id] >= q.began - HIT_OLD_AFTER_SECONDS
      || exists i :: q.sweptFrom <= i < |s.logged| && s.logged[i].id == id && s.logged[i].at == s.seen[id]
  {
    assert SweptOk(s, s.reqs[r]);
    hide PastSweep;
  }

  /**
   Every judgement of every interleaving is the log's: a request is judged unique exactly when, in the log
   as it was at its SELECT, nothing stands under its identifier or the last time is 30 days old; and it does
   its unique increment exactly when so judged.
  */
  lemma JudgedByTheLog(base: State, run: seq<Action>, r: nat)
    requires Initial(base) && Possible(base, run, true) && r in After(base, run, true).reqs
    ensures var s := After(base, run, true);
      var q := s.reqs[r];
      && (q.verdict.Some? ==>
            var v := q.verdict.value;
            && v.horizon <= |s.logged| && v.id == Id(v.id.epoch, Message(q.page, q.addr))
            && (v.unique <==> Fresh(Latest(s.logged[..v.horizon], v.id), v.at, HIT_OLD_AFTER_SECONDS)))
      && (q.didUnique ==> q.verdict.Some? && q.verdict.value.unique)
      && (q.pc.CountPlain? || (q.pc.Done? && !q.viewing) ==>
            q.verdict.Some? && (q.didUnique <==> q.verdict.value.unique))
  {
    InitialInv(base);
    RunKeepsInv(base, run, base);
    assert JudgedOk(After(base, run, true), After(base, run, true).reqs[r], base.key.epoch);
    hide After, Latest, Message;
  }

  /**
   The write at `i` had been seen, perhaps through a later write at `j`, and at `v.at` 30 days had passed: since
   the time at `j`, and so since the time at `i` but for what the write at `j` was late by.
  */
  predicate ThirtyDaysApart(s: State, v: Verdict, i: nat, j: nat) {
    && i <= j < v.horizon <= |s.logged| && s.logged[j].id == v.id
    && v.at >= s.logged[j].at + HIT_OLD_AFTER_SECONDS
    && v.at >= s.logged[i].at + HIT_OLD_AFTER_SECONDS - (s.logged[j].when - s.logged[j].at)
  }

  lemma SeenWriteIsOld(s: State, v: Verdict, i: nat) returns (j: nat)
    requires LogInv(s) && v.unique && i < v.horizon <= |s.logged| && s.logged[i].id == v.id
    requires Fresh(Latest(s.logged[..v.horizon], v.id), v.at, HIT_OLD_AFTER_SECONDS)
    ensures ThirtyDaysApart(s, v, i, j)
  {
    j := LatestIsLast(s.logged[..v.horizon], v.id, i);
    assert s.logged[..v.horizon][j] == s.logged[j];
    assert WrittenOk(s, s.logged[i]) && WrittenOk(s, s.logged[j]);
    hide Latest, WriterOk;
  }

  /**
   Two requests of one visitor are both counted under one key only if the second looked before the first had
   written its row, or 30 days passed, less the time by which the last writer in between was late.
  */
  lemma TwoCountsNeedARace(base: State, run: seq<Action>, second: nat, i: nat)
    requires Initial(base) && Possible(base, run, true)
    requires var s := After(base, run, true);
      && second in s.reqs && s.reqs[second].didUnique && s.reqs[second].verdict.Some?
      && i < |s.logged| && s.logged[i].id == s.reqs[second].verdict.value.id
    ensures var s := After(base, run, true);
      var v := s.reqs[second].verdict.value;
      && CountedVisitor(s, s.logged[i].author, s.reqs[second])
      && (v.horizon <= i || exists j :: ThirtyDaysApart(s, v, i, j))
  {
    InitialInv(base);
    RunKeepsInv(base, run, base);
    var s := After(base, run, true);
    var v := s.reqs[second].verdict.value;
    hide After, RowsInv, FlagsInv, CountInv, TotalInv, KeyInv, CoverInv, TableInv, LogInv, RowCountInv, Latest;
    hide CountedVisitor, ThirtyDaysApart;
    WriterIsVisitor(s, second, i, base.key.epoch);
    assert JudgedOk(s, s.reqs[second], base.key.epoch);
    if i < v.horizon {
      var j := SeenWriteIsOld(s, v, i);
    }
  }

  /** Who wrote a row under an identifier is the visitor the identifier names, and was counted. */
  lemma WriterIsVisitor(s: State, r: nat, i: nat, epoch: nat)
    requires FlagsInv(s) && CoverInv(s, epoch) && JudgedInv(s, epoch)
    requires r in s.reqs && s.reqs[r].verdict.Some? && i < |s.logged|
    requires s.logged[i].id == s.reqs[r].verdict.value.id
    ensures CountedVisitor(s, s.logged[i].author, s.reqs[r])
  {
    var who := s.logged[i].author;
    assert EntryOk(s, s.logged[i]) && FlagsOf(s.reqs[who]) && FlagsOf(s.reqs[r]);
    assert JudgedOk(s, s.reqs[r], epoch);
    hide Latest, LoggedAs;
    IdentifiesVisitor(s.reqs[r].page, s.reqs[r].addr, s.reqs[who].page, s.reqs[who].addr);
  }
}
