/**
 What the FIFO order of the blocking pool gives: below the limit every queued task starts
 within a bound set by the work ahead of it, however many arrivals come behind it.
*/
module PoolFairness {
  import opened BlockingPool
  import opened Sets

  /** Running tasks that can still do something: all but those parked on a leaf. */
  function Busy(s: Pool): set<Task> {
    set t | t in s.running && !(t.Outer? && t.id in s.waiting)
  }

  function RunningLeaves(s: Pool): set<Task> {
    set t | t in s.running && t.Leaf?
  }

  /**
   The steps that can be taken before the task at `i` starts: three at most for each task before it, which is
   to start, to end, and to give its request one more step; then those of the running tasks.
  */
  function Ahead(s: Pool, i: nat): nat {
    3 * i + |Busy(s)| + |RunningLeaves(s)|
  }

  lemma AheadIsBounded(threads: nat, s: Pool, i: nat)
    requires Inv(threads, s)
    ensures Ahead(s, i) <= 3 * i + 2 * threads
  {
    SubsetSize(Busy(s), s.running);
    SubsetSize(RunningLeaves(s), s.running);
  }

  /** What queues behind a task changes nothing ahead of it. */
  lemma ArrivalsStayBehind(limit: nat, s: Pool, a: Action, i: nat)
    requires Arrival(a) && i < |s.queue|
    ensures var s' := Step(limit, s, a); i < |s'.queue| && s'.queue[i] == s.queue[i] && Ahead(s', i) == Ahead(s, i)
  {
    var s' := Step(limit, s, a);
    assert Busy(s') == Busy(s) && RunningLeaves(s') == RunningLeaves(s);
  }

  lemma StartComesNearer(threads: nat, limit: nat, s: Pool, i: nat)
    requires Inv(threads, s) && Enabled(threads, s, Start) && 0 < i < |s.queue|
    ensures var s' := Step(limit, s, Start);
      i - 1 < |s'.queue| && s'.queue[i - 1] == s.queue[i] && Ahead(s', i - 1) < Ahead(s, i)
  {
    var s', t := Step(limit, s, Start), s.queue[0];
    assert t in s.queue && t !in s.running;
    assert Busy(s') == Busy(s) + {t};
    if t.Leaf? {
      assert RunningLeaves(s') == RunningLeaves(s) + {t};
    } else {
      assert RunningLeaves(s') == RunningLeaves(s);
    }
  }

  lemma SpawnComesNearer(threads: nat, limit: nat, s: Pool, id: nat, i: nat)
    requires Inv(threads, s) && Enabled(threads, s, SpawnNested(id)) && i < |s.queue|
    ensures var s' := Step(limit, s, SpawnNested(id));
      i < |s'.queue| && s'.queue[i] == s.queue[i] && Ahead(s', i) < Ahead(s, i)
  {
    var s' := Step(limit, s, SpawnNested(id));
    assert Busy(s') == Busy(s) - {Outer(id)} && Outer(id) in Busy(s);
    assert RunningLeaves(s') == RunningLeaves(s);
  }

  lemma LeafComesNearer(threads: nat, limit: nat, s: Pool, id: nat, i: nat)
    requires Inv(threads, s) && Enabled(threads, s, FinishNested(id)) && i < |s.queue|
    ensures var s' := Step(limit, s, FinishNested(id));
      i < |s'.queue| && s'.queue[i] == s.queue[i] && Ahead(s', i) < Ahead(s, i)
  {
    var s' := Step(limit, s, FinishNested(id));
    assert Present(s, Leaf(id)) && Outer(id) in s.running;
    var others := Busy(s) - {Leaf(id)};
    assert Busy(s') == others + {Outer(id)} && Outer(id) !in others && Leaf(id) in Busy(s);
    assert RunningLeaves(s') == RunningLeaves(s) - {Leaf(id)} && Leaf(id) in RunningLeaves(s);
  }

  lemma EndComesNearer(threads: nat, limit: nat, s: Pool, a: Action, i: nat)
    requires Inv(threads, s) && Enabled(threads, s, a) && (a.FinishOuter? || a.FinishForeign?) && i < |s.queue|
    ensures var s' := Step(limit, s, a); i < |s'.queue| && s'.queue[i] == s.queue[i] && Ahead(s', i) < Ahead(s, i)
  {
    var s' := Step(limit, s, a);
    var t := if a.FinishOuter? then Outer(a.id) else Foreign(a.id);
    assert Busy(s') == Busy(s) - {t} && t in Busy(s);
    assert RunningLeaves(s') == RunningLeaves(s);
  }

  /** Any step but an arrival uses up some of what is ahead of a task, if it does not start it. */
  lemma StepComesNearer(threads: nat, limit: nat, s: Pool, a: Action, i: nat)
    requires Inv(threads, s) && Enabled(threads, s, a) && !Arrival(a) && !a.DropEarly?
    requires i < |s.queue| && !(a.Start? && i == 0)
    ensures var s' := Step(limit, s, a);
      var i' := if a.Start? then i - 1 else i;
      i' < |s'.queue| && s'.queue[i'] == s.queue[i] && Ahead(s', i') < Ahead(s, i)
  {
    hide Inv, Step, Enabled, Ahead;
    match a
    case Start => StartComesNearer(threads, limit, s, i);
    case SpawnNested(id) => SpawnComesNearer(threads, limit, s, id, i);
    case FinishNested(id) => LeafComesNearer(threads, limit, s, id, i);
    case FinishOuter(_) => EndComesNearer(threads, limit, s, a, i);
    case FinishForeign(_) => EndComesNearer(threads, limit, s, a, i);
  }

  /** Steps that are no arrivals. */
  function Steps(run: seq<Action>): nat {
    if run == [] then 0 else (if Arrival(run[0]) then 0 else 1) + Steps(run[1..])
  }

  /** The step at `k` of the run puts `t` on a thread. */
  predicate StartsAt(limit: nat, s: Pool, run: seq<Action>, k: nat, t: Task) {
    && k < |run| && run[k].Start?
    && var before := After(limit, s, run[..k]); before.queue != [] && before.queue[0] == t
  }

  lemma StartsLater(limit: nat, s: Pool, run: seq<Action>, k: nat, t: Task)
    requires run != [] && StartsAt(limit, Step(limit, s, run[0]), run[1..], k, t)
    ensures StartsAt(limit, s, run, k + 1, t)
  {
    assert run[..k + 1][0] == run[0] && run[..k + 1][1..] == run[1..][..k];
    hide Step;
  }

  /** Until it starts, a task stays in the queue and what is ahead of it is used up. */
  lemma {:induction false} WaitsOrStarts(threads: nat, limit: nat, s: Pool, run: seq<Action>, i: nat)
    requires Inv(threads, s) && Possible(threads, limit, s, run) && HoldsPermits(run) && i < |s.queue|
    ensures (exists k :: StartsAt(limit, s, run, k, s.queue[i]))
         || (After(limit, s, run).queue != [] && Steps(run) <= Ahead(s, i))
    decreases |run|
  {
    if run != [] && !(run[0].Start? && i == 0) {
      var a, s' := run[0], Step(limit, s, run[0]);
      var i' := if a.Start? then i - 1 else i;
      assert !a.DropEarly? && HoldsPermits(run[1..]);
      StepKeepsInv(threads, limit, s, a);
      if Arrival(a) {
        ArrivalsStayBehind(limit, s, a, i);
      } else {
        StepComesNearer(threads, limit, s, a, i);
      }
      hide Step, Inv, Ahead, StartsAt;
      WaitsOrStarts(threads, limit, s', run[1..], i');
      if k :| StartsAt(limit, s', run[1..], k, s.queue[i]) {
        StartsLater(limit, s, run, k, s.queue[i]);
      }
    } else if run != [] {
      assert run[..0] == [];
      assert StartsAt(limit, s, run, 0, s.queue[0]);
    }
  }

  /**
   Below the limit no task waits for ever, even while arrivals go on: of the steps that are no arrivals at most
   three for each task before it and two for each thread come before it starts, and until then one is possible.
  */
  lemma QueuedTaskStarts(threads: nat, limit: nat, history: seq<Action>, run: seq<Action>, i: nat)
    requires limit < threads
    requires Possible(threads, limit, IDLE, history) && HoldsPermits(history)
    requires Possible(threads, limit, After(limit, IDLE, history), run) && HoldsPermits(run)
    requires i < |After(limit, IDLE, history).queue|
    ensures var s := After(limit, IDLE, history);
      var started := exists k :: StartsAt(limit, s, run, k, s.queue[i]);
      && (Steps(run) > 3 * i + 2 * threads ==> started)
      && (!started ==> exists a :: Enabled(threads, After(limit, s, run), a) && !Arrival(a) && !a.DropEarly?)
  {
    var s := After(limit, IDLE, history);
    RunKeepsInv(threads, limit, IDLE, history);
    WaitsOrStarts(threads, limit, s, run, i);
    AheadIsBounded(threads, s, i);
    RunsCompose(threads, limit, IDLE, history, run);
    assert HoldsPermits(history + run);
    hide After, Possible, Inv, Ahead, StartsAt, Steps, Enabled;
    BelowTheLimitNothingSticks(threads, limit, history + run);
  }
}
