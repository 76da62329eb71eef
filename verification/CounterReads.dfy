/**
 What `get_hit_counts` shows under concurrency: in every interleaving a reading request finds
 its rows, and each count it shows is one the page had while the request ran.
*/
module CounterReads {
  import opened Text
  import opened HitTable
  import opened HitCounter
  import opened CounterRace

  /** Counts of this page now. */
  function Now(s: State, page: string): Counts {
    Counts(CountOf(s.hits, page, false), CountOf(s.hits, page, true))
  }

  predicate Within(low: nat, shown: Option<nat>, high: nat) {
    low <= high && (shown.Some? ==> low <= shown.value <= high)
  }

  /** Each count shown lies between the count at the start and the count now; a finished reader shows both. */
  predicate ReadOk(s: State, q: Req) {
    && Within(q.floor.plain, q.shown.plain, Now(s, q.page).plain)
    && Within(q.floor.unique, q.shown.unique, Now(s, q.page).unique)
    && (q.viewing && (q.pc == Fetch(true) || q.pc.Done?) ==> q.shown.plain.Some?)
    && (q.viewing && q.pc.Done? ==> q.shown.unique.Some?)
  }

  ghost predicate ReadInv(s: State) {
    forall r :: r in s.reqs ==> ReadOk(s, s.reqs[r])
  }

  /** Counts only grow. */
  ghost predicate CountsGrow(s: State, s': State) {
    forall p, u :: CountOf(s.hits, p, u) <= CountOf(s'.hits, p, u)
  }

  lemma StepGrowsCounts(s: State, a: Action)
    requires FlagsInv(s) && Enabled(s, a)
    ensures CountsGrow(s, Step(s, a, true))
  {
    forall p, u
      ensures CountOf(s.hits, p, u) <= CountOf(Step(s, a, true).hits, p, u)
    {
      if a.Advance? && s.reqs[a.r].pc.CountUnique? {
        BumpCounts(s.hits, s.reqs[a.r].page, true, p, u);
      } else if a.Advance? && s.reqs[a.r].pc.CountPlain? {
        BumpCounts(s.hits, s.reqs[a.r].page, false, p, u);
      } else {
        QuietStep(s, a);
        hide RowStep, KeyStep, CountStep, FlagsInv;
        if a.Advance? && s.reqs[a.r].pc.Create? {
          InsertCounts(s.hits, s.reqs[a.r].page, s.reqs[a.r].pc.unique, p, u);
        }
      }
    }
  }

  lemma ReadStays(s: State, s': State, q: Req)
    requires ReadOk(s, q) && CountsGrow(s, s')
    ensures ReadOk(s', q)
  {
  }

  lemma RowStepReads(s: State, r: nat)
    requires r in s.reqs && IsRowStep(s.reqs[r].pc) && FlagsOf(s.reqs[r]) && ReadOk(s, s.reqs[r])
    requires SawRow(s.reqs[r].pc, false) ==> Has(s.hits, s.reqs[r].page, false)
    requires SawRow(s.reqs[r].pc, true) ==> Has(s.hits, s.reqs[r].page, true)
    requires CountsGrow(s, RowStep(s, r, true))
    ensures var s' := RowStep(s, r, true); r in s'.reqs && ReadOk(s', s'.reqs[r])
    ensures s.reqs[r].pc.Fetch? ==> RowStep(s, r, true).reqs[r].pc != Failed
  {
    hide Has, Insert, CountOf;
  }

  lemma KeyStepReads(s: State, r: nat)
    requires r in s.reqs && IsKeyStep(s.reqs[r].pc) && FlagsOf(s.reqs[r]) && ReadOk(s, s.reqs[r])
    ensures var s' := KeyStep(s, r); r in s'.reqs && ReadOk(s', s'.reqs[r])
  {
    hide Message, CountOf;
  }

  lemma CountStepReads(s: State, r: nat)
    requires r in s.reqs && IsCountStep(s.reqs[r].pc) && FlagsOf(s.reqs[r]) && ReadOk(s, s.reqs[r])
    requires CountsGrow(s, CountStep(s, r))
    ensures var s' := CountStep(s, r); r in s'.reqs && ReadOk(s', s'.reqs[r])
  {
    hide Bump, Sweep, CountOf;
  }

  lemma MoverReads(s: State, a: Action)
    requires RowsInv(s) && FlagsInv(s) && ReadInv(s) && Enabled(s, a) && a.Advance?
    ensures var s' := Step(s, a, true); a.r in s'.reqs && ReadOk(s', s'.reqs[a.r])
  {
    StepGrowsCounts(s, a);
    var q := s.reqs[a.r];
    assert FlagsOf(q) && ReadOk(s, q);
    assert SawRow(q.pc, false) ==> Has(s.hits, q.page, false);
    assert SawRow(q.pc, true) ==> Has(s.hits, q.page, true);
    hide RowStep, KeyStep, CountStep, CountsGrow, RowsInv, FlagsInv, Has, SawRow;
    if IsRowStep(q.pc) {
      RowStepReads(s, a.r);
    } else if IsKeyStep(q.pc) {
      KeyStepReads(s, a.r);
    } else {
      CountStepReads(s, a.r);
    }
  }

  lemma ReadInvStep(s: State, a: Action)
    requires RowsInv(s) && FlagsInv(s) && ReadInv(s) && Enabled(s, a)
    ensures ReadInv(Step(s, a, true))
  {
    var s' := Step(s, a, true);
    StepGrowsCounts(s, a);
    FlagsInvStep(s, a);
    forall k | k in s'.reqs
      ensures ReadOk(s', s'.reqs[k])
    {
      if a.Advance? && k == a.r {
        MoverReads(s, a);
      } else {
        hide RowStep, KeyStep, CountStep, FlagsInv, RowsInv, CountOf;
        if k in s.reqs {
          assert ReadOk(s, s.reqs[k]);
          ReadStays(s, s', s.reqs[k]);
        }
      }
    }
  }
}
