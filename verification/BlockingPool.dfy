/**
 The blocking thread pool behind admission control: `blocking_middleware` in
 `src/middleware/blocking.rs` and the limits and layer order of `src/main.rs`.

 A request that is admitted enqueues one outer task. While an outer task runs it may
 draw one leaf task from the same FIFO pool and keep its thread until the leaf is done.
 Other leaf work may enter the queue at any time.
*/
module BlockingPool {
  import opened Sets

  datatype Task =
    | Outer(id: nat)     // the closure `blocking_middleware` spawns for a request
    | Leaf(id: nat)      // the nested `spawn_blocking` of that request
    | Foreign(id: nat)   // leaf work of anything else

  datatype Pool = Pool(
    queue: seq<Task>,
    running: set<Task>,
    waiting: set<nat>,        // requests whose outer task is parked on its leaf
    permits: set<nat>,        // requests that hold a concurrency permit
    draws: map<nat, nat>,     // nested draws each request has left
    arrived: nat, shed: nat, completed: nat,
    foreign: nat)             // foreign tasks ever enqueued

  const IDLE := Pool([], {}, {}, {}, map[], 0, 0, 0, 0)

  datatype Action =
    | Arrive(nested: nat)
    | ForeignArrives
    | Start
    | SpawnNested(id: nat)
    | FinishNested(id: nat)
    | FinishOuter(id: nat)
    | FinishForeign(id: nat)
    | DropEarly(id: nat)      // the response future is dropped while its closure runs on

  predicate Arrival(a: Action) {
    a.Arrive? || a.ForeignArrives?
  }

  predicate Enabled(threads: nat, s: Pool, a: Action) {
    match a
    case Arrive(_) => true
    case ForeignArrives => true
    case Start => |s.running| < threads && s.queue != []
    case SpawnNested(id) => Outer(id) in s.running && id !in s.waiting && id in s.draws && s.draws[id] > 0
    case FinishNested(id) => Leaf(id) in s.running
    case FinishOuter(id) => Outer(id) in s.running && id !in s.waiting
    case FinishForeign(id) => Foreign(id) in s.running
    case DropEarly(id) => id in s.permits
  }

  /** One step. `limit` is the number of permits; an arrival beyond it is shed at once. */
  function Step(limit: nat, s: Pool, a: Action): Pool {
    match a
    case Arrive(nested) =>
      var id := s.arrived;
      if |s.permits| < limit then
        s.(queue := s.queue + [Outer(id)], permits := s.permits + {id},
           draws := s.draws[id := nested], arrived := s.arrived + 1)
      else
        s.(arrived := s.arrived + 1, shed := s.shed + 1)
    case ForeignArrives =>
      s.(queue := s.queue + [Foreign(s.foreign)], foreign := s.foreign + 1)
    case Start =>
      if s.queue == [] then s
      else s.(queue := s.queue[1..], running := s.running + {s.queue[0]})
    case SpawnNested(id) =>
      s.(queue := s.queue + [Leaf(id)], waiting := s.waiting + {id},
         draws := s.draws[id := if id in s.draws && s.draws[id] > 0 then s.draws[id] - 1 else 0])
    case FinishNested(id) =>
      s.(running := s.running - {Leaf(id)}, waiting := s.waiting - {id})
    case FinishOuter(id) =>
      s.(running := s.running - {Outer(id)}, permits := s.permits - {id},
         draws := s.draws - {id}, completed := s.completed + 1)
    case FinishForeign(id) =>
      s.(running := s.running - {Foreign(id)})
    case DropEarly(id) =>
      s.(permits := s.permits - {id})
  }

  /** `run` can be taken from `s`, one enabled action after another. */
  predicate Possible(threads: nat, limit: nat, s: Pool, run: seq<Action>)
    decreases |run|
  {
    run == [] || (Enabled(threads, s, run[0]) && Possible(threads, limit, Step(limit, s, run[0]), run[1..]))
  }

  function After(limit: nat, s: Pool, run: seq<Action>): Pool
    decreases |run|
  {
    if run == [] then s else After(limit, Step(limit, s, run[0]), run[1..])
  }

  /** No response future is dropped before its closure has ended. */
  predicate HoldsPermits(run: seq<Action>) {
    forall a :: a in run ==> !a.DropEarly?
  }

  // ----- What every step keeps -----

  predicate Present(s: Pool, t: Task) {
    t in s.running || t in s.queue
  }

  predicate Distinct(q: seq<Task>) {
    forall i, j :: 0 <= i < j < |q| ==> q[i] != q[j]
  }

  ghost predicate Inv(threads: nat, s: Pool) {
    && |s.running| <= threads
    && Distinct(s.queue)
    && (forall t :: t in s.queue ==> t !in s.running)
    && (forall id: nat :: Present(s, Outer(id)) ==> id < s.arrived && id in s.draws)
    && (forall id: nat :: id in s.permits ==> Present(s, Outer(id)))
    && (forall id: nat :: Present(s, Foreign(id)) ==> id < s.foreign)
    && (forall id: nat :: id in s.waiting ==> Outer(id) in s.running)
    && (forall id: nat :: id in s.waiting <==> Present(s, Leaf(id)))
  }

  /** Without early drops each request in the pool still holds its permit, within the limit. */
  ghost predicate Admitted(limit: nat, s: Pool) {
    && |s.permits| <= limit
    && (forall id: nat :: Present(s, Outer(id)) ==> id in s.permits)
    && s.arrived == s.completed + s.shed + |s.permits|
  }

  /** A task that joins the queue is the only change to what is present. */
  lemma Enqueued(q: seq<Task>, t: Task)
    requires Distinct(q) && t !in q
    ensures Distinct(q + [t]) && forall u :: u in q + [t] <==> u in q || u == t
  {
  }

  /** The head of the queue moves to a thread; nothing else changes. */
  lemma Dequeued(q: seq<Task>)
    requires Distinct(q) && q != []
    ensures Distinct(q[1..]) && q[0] !in q[1..] && forall u :: u in q <==> u == q[0] || u in q[1..]
  {
    assert q == [q[0]] + q[1..];
  }

  /** What a task joining the queue does to what is present. */
  lemma Joins(s: Pool, s': Pool, t: Task)
    requires s'.queue == s.queue + [t] && s'.running == s.running
    requires Distinct(s.queue) && !Present(s, t)
    requires forall u :: u in s.queue ==> u !in s.running
    ensures Distinct(s'.queue)
    ensures forall u :: u in s'.queue ==> u !in s'.running
    ensures forall u :: Present(s', u) <==> Present(s, u) || u == t
  {
    Enqueued(s.queue, t);
    hide Distinct;
  }

  lemma AdmittedKeepsInv(threads: nat, s: Pool, nested: nat)
    requires Inv(threads, s)
    ensures var id := s.arrived;
      Inv(threads, s.(queue := s.queue + [Outer(id)], permits := s.permits + {id},
                      draws := s.draws[id := nested], arrived := s.arrived + 1))
  {
    hide Distinct, Present;
    var id := s.arrived;
    var s' := s.(queue := s.queue + [Outer(id)], permits := s.permits + {id},
                 draws := s.draws[id := nested], arrived := s.arrived + 1);
    assert !Present(s, Outer(id));
    Joins(s, s', Outer(id));
  }

  lemma RequestKeepsInv(threads: nat, limit: nat, s: Pool, nested: nat)
    requires Inv(threads, s)
    ensures Inv(threads, Step(limit, s, Arrive(nested)))
  {
    if |s.permits| < limit {
      hide Inv;
      AdmittedKeepsInv(threads, s, nested);
    } else {
      hide Present, Distinct;
      SamePresent(s, Step(limit, s, Arrive(nested)));
    }
  }

  lemma SamePresent(s: Pool, s': Pool)
    requires s'.queue == s.queue && s'.running == s.running
    ensures forall u :: Present(s', u) <==> Present(s, u)
  {
  }

  lemma ForeignKeepsInv(threads: nat, limit: nat, s: Pool)
    requires Inv(threads, s)
    ensures Inv(threads, Step(limit, s, ForeignArrives))
  {
    hide Distinct, Present;
    assert !Present(s, Foreign(s.foreign));
    Joins(s, Step(limit, s, ForeignArrives), Foreign(s.foreign));
  }

  lemma ArrivalKeepsInv(threads: nat, limit: nat, s: Pool, a: Action)
    requires Inv(threads, s) && Arrival(a)
    ensures Inv(threads, Step(limit, s, a))
  {
    hide Inv, Step;
    match a
    case Arrive(nested) => RequestKeepsInv(threads, limit, s, nested);
    case ForeignArrives => ForeignKeepsInv(threads, limit, s);
  }

  lemma StartKeepsInv(threads: nat, limit: nat, s: Pool)
    requires Inv(threads, s) && Enabled(threads, s, Start)
    ensures Inv(threads, Step(limit, s, Start))
  {
    Dequeued(s.queue);
    assert forall t :: Present(Step(limit, s, Start), t) <==> Present(s, t);
  }

  lemma SpawnKeepsInv(threads: nat, limit: nat, s: Pool, id: nat)
    requires Inv(threads, s) && Enabled(threads, s, SpawnNested(id))
    ensures Inv(threads, Step(limit, s, SpawnNested(id)))
  {
    assert !Present(s, Leaf(id));
    Enqueued(s.queue, Leaf(id));
  }

  lemma FinishKeepsInv(threads: nat, limit: nat, s: Pool, a: Action)
    requires Inv(threads, s) && Enabled(threads, s, a)
    requires a.FinishNested? || a.FinishOuter? || a.FinishForeign? || a.DropEarly?
    ensures Inv(threads, Step(limit, s, a))
  {
    var s' := Step(limit, s, a);
    var gone := s.running - s'.running;
    assert forall t :: t in gone ==> t !in s.queue;
    assert forall t :: Present(s', t) <==> Present(s, t) && t !in gone;
  }

  lemma StepKeepsInv(threads: nat, limit: nat, s: Pool, a: Action)
    requires Inv(threads, s) && Enabled(threads, s, a)
    ensures Inv(threads, Step(limit, s, a))
  {
    if Arrival(a) {
      ArrivalKeepsInv(threads, limit, s, a);
    } else if a.Start? {
      StartKeepsInv(threads, limit, s);
    } else if a.SpawnNested? {
      SpawnKeepsInv(threads, limit, s, a.id);
    } else {
      FinishKeepsInv(threads, limit, s, a);
    }
  }

  lemma QueueKeepsAdmitted(threads: nat, limit: nat, s: Pool, a: Action)
    requires Inv(threads, s) && Enabled(threads, s, a) && (Arrival(a) || a.Start? || a.SpawnNested?)
    requires Admitted(limit, s)
    ensures Admitted(limit, Step(limit, s, a))
  {
    var s' := Step(limit, s, a);
    match a
    case Arrive(nested) =>
      assert Outer(s.arrived) !in s.queue && s.arrived !in s.permits;
    case ForeignArrives =>
    case Start =>
      Dequeued(s.queue);
      assert forall t :: Present(s', t) <==> Present(s, t);
    case SpawnNested(id) =>
  }

  lemma StepKeepsAdmitted(threads: nat, limit: nat, s: Pool, a: Action)
    requires Inv(threads, s) && Enabled(threads, s, a) && !a.DropEarly?
    requires Admitted(limit, s)
    ensures Admitted(limit, Step(limit, s, a))
  {
    if Arrival(a) || a.Start? || a.SpawnNested? {
      QueueKeepsAdmitted(threads, limit, s, a);
    } else if a.FinishOuter? {
      assert Outer(a.id) !in s.queue && Present(s, Outer(a.id)) && a.id in s.permits;
    }
  }

  lemma {:induction false} RunKeepsInv(threads: nat, limit: nat, s: Pool, run: seq<Action>)
    requires Inv(threads, s) && Possible(threads, limit, s, run)
    ensures Inv(threads, After(limit, s, run))
    decreases |run|
  {
    if run != [] {
      StepKeepsInv(threads, limit, s, run[0]);
      RunKeepsInv(threads, limit, Step(limit, s, run[0]), run[1..]);
    }
  }

  lemma {:induction false} RunKeepsAdmitted(threads: nat, limit: nat, s: Pool, run: seq<Action>)
    requires Inv(threads, s) && Possible(threads, limit, s, run) && HoldsPermits(run)
    requires Admitted(limit, s)
    ensures Admitted(limit, After(limit, s, run))
    decreases |run|
  {
    if run != [] {
      StepKeepsInv(threads, limit, s, run[0]);
      StepKeepsAdmitted(threads, limit, s, run[0]);
      RunKeepsAdmitted(threads, limit, Step(limit, s, run[0]), run[1..]);
    }
  }

  /** Every run from the idle pool accounts for each request it was sent. */
  lemma EveryArrivalIsAccountedFor(threads: nat, limit: nat, run: seq<Action>)
    requires Possible(threads, limit, IDLE, run) && HoldsPermits(run)
    ensures var s := After(limit, IDLE, run);
      s.arrived == s.completed + s.shed + |s.permits| && |s.permits| <= limit
  {
    RunKeepsAdmitted(threads, limit, IDLE, run);
  }

  /**
   A request is shed exactly when as many requests as the limit are in flight, whatever is queued, parked or
   foreign. Otherwise it joins the queue, holding a permit, and is one more in flight.
  */
  lemma ShedIffAtTheLimit(threads: nat, limit: nat, run: seq<Action>, nested: nat)
    requires Possible(threads, limit, IDLE, run) && HoldsPermits(run)
    ensures var s := After(limit, IDLE, run);
      var s' := Step(limit, s, Arrive(nested));
      var inFlight := s.arrived - s.completed - s.shed;
      && s'.arrived == s.arrived + 1 && s'.completed == s.completed && s'.running == s.running
      && (s'.shed == s.shed + 1 <==> inFlight == limit)
      && (inFlight == limit ==> s'.queue == s.queue && s'.draws == s.draws)
      && (inFlight != limit ==>
            && inFlight < limit && s'.shed == s.shed && s'.arrived - s'.completed - s'.shed == inFlight + 1
            && s'.queue == s.queue + [Outer(s.arrived)] && s'.draws == s.draws[s.arrived := nested])
  {
    EveryArrivalIsAccountedFor(threads, limit, run);
    hide After, Possible;
  }

  // ----- Deadlock -----

  predicate Outstanding(s: Pool) {
    s.queue != [] || s.running != {}
  }

  /** Work is outstanding and nothing but a further arrival can happen. */
  ghost predicate Stuck(threads: nat, s: Pool) {
    Outstanding(s) && forall a :: Enabled(threads, s, a) && !a.DropEarly? ==> Arrival(a)
  }

  /** Every thread is parked in an outer task that waits for its leaf. */
  predicate AllParked(threads: nat, s: Pool) {
    |s.running| == threads && forall t :: t in s.running ==> t.Outer? && t.id in s.waiting
  }

  /** A stuck pool is one whose threads are all parked, and the converse. */
  lemma StuckIffAllParked(threads: nat, s: Pool)
    requires threads > 0 && Inv(threads, s)
    ensures Stuck(threads, s) <==> AllParked(threads, s)
  {
    if Stuck(threads, s) {
      assert !Enabled(threads, s, Start);
      forall t | t in s.running
        ensures t.Outer? && t.id in s.waiting
      {
        assert !Enabled(threads, s, FinishNested(t.id));
        assert !Enabled(threads, s, FinishOuter(t.id));
        assert !Enabled(threads, s, FinishForeign(t.id));
      }
    }
  }

  lemma ParkedStays(threads: nat, limit: nat, s: Pool, a: Action)
    requires threads > 0 && AllParked(threads, s) && Inv(threads, s) && Enabled(threads, s, a)
    ensures var s' := Step(limit, s, a);
      s'.running == s.running && s'.completed == s.completed && AllParked(threads, s')
  {
  }

  /** Once every thread is parked nothing that can still happen frees one, so no request ever completes again. */
  lemma {:induction false} DeadlockIsPermanent(threads: nat, limit: nat, s: Pool, run: seq<Action>)
    requires threads > 0 && Inv(threads, s) && Stuck(threads, s)
    requires Possible(threads, limit, s, run)
    ensures Stuck(threads, After(limit, s, run))
    ensures After(limit, s, run).completed == s.completed
    ensures After(limit, s, run).running == s.running
    decreases |run|
  {
    if run != [] {
      var s' := Step(limit, s, run[0]);
      StuckIffAllParked(threads, s);
      ParkedStays(threads, limit, s, run[0]);
      StepKeepsInv(threads, limit, s, run[0]);
      StuckIffAllParked(threads, s');
      DeadlockIsPermanent(threads, limit, s', run[1..]);
    }
  }

  lemma {:induction false} CountOuters(tasks: set<Task>, ids: set<nat>)
    requires forall t :: t in tasks ==> t.Outer? && t.id in ids
    ensures |tasks| <= |ids|
  {
    if tasks != {} {
      var t :| t in tasks;
      CountOuters(tasks - {t}, ids - {t.id});
    }
  }

  /** Fewer permits than threads: whatever the queue holds, some thread can go on. */
  lemma BelowTheLimitNothingSticks(threads: nat, limit: nat, run: seq<Action>)
    requires limit < threads
    requires Possible(threads, limit, IDLE, run) && HoldsPermits(run)
    ensures !Stuck(threads, After(limit, IDLE, run))
  {
    var s := After(limit, IDLE, run);
    RunKeepsInv(threads, limit, IDLE, run);
    RunKeepsAdmitted(threads, limit, IDLE, run);
    StuckIffAllParked(threads, s);
    if AllParked(threads, s) {
      forall t | t in s.running
        ensures t.Outer? && t.id in s.permits
      {
        assert Present(s, Outer(t.id));
      }
      CountOuters(s.running, s.permits);
    }
  }

  // ----- The run that deadlocks -----

  lemma {:induction false} RunsCompose(threads: nat, limit: nat, s: Pool, first: seq<Action>, second: seq<Action>)
    requires Possible(threads, limit, s, first)
    requires Possible(threads, limit, After(limit, s, first), second)
    ensures Possible(threads, limit, s, first + second)
    ensures After(limit, s, first + second) == After(limit, After(limit, s, first), second)
    decreases |first|
  {
    if first == [] {
      assert first + second == second;
    } else {
      RunsCompose(threads, limit, Step(limit, s, first[0]), first[1..], second);
      assert (first + second)[1..] == first[1..] + second;
    }
  }

  function Outers(from: nat, to: nat): (queue: seq<Task>)
    requires from <= to
    ensures |queue| == to - from && forall i :: 0 <= i < to - from ==> queue[i] == Outer(from + i)
  {
    seq(to - from, i requires 0 <= i < to - from => Outer(from + i))
  }

  function Leaves(n: nat): (queue: seq<Task>)
    ensures |queue| == n && forall i :: 0 <= i < n ==> queue[i] == Leaf(i)
  {
    seq(n, i requires 0 <= i < n => Leaf(i))
  }

  function Below(n: nat): (ids: set<nat>)
    ensures |ids| == n && forall id: nat :: id in ids <==> id < n
  {
    if n == 0 then {} else Below(n - 1) + {n - 1}
  }

  function OutersBelow(n: nat): (tasks: set<Task>)
    ensures |tasks| == n && forall t :: t in tasks <==> t.Outer? && t.id < n
  {
    if n == 0 then {} else OutersBelow(n - 1) + {Outer(n - 1)}
  }

  /** `n` requests, of which the first `spawned` have drawn their one leaf. */
  function DrawsLeft(n: nat, spawned: nat): map<nat, nat> {
    map id | id in Below(n) :: if id < spawned then 0 else 1
  }

  /** `n` requests admitted, the first `started` of them running. */
  function Admitting(n: nat, started: nat): Pool
    requires started <= n
  {
    Pool(Outers(started, n), OutersBelow(started), {}, Below(n), DrawsLeft(n, 0), n, 0, 0, 0)
  }

  /** `n` requests running, the first `spawned` of them parked on a leaf queued behind the others. */
  function Parking(n: nat, spawned: nat, permits: set<nat>): Pool
    requires spawned <= n
  {
    Pool(Leaves(spawned), OutersBelow(n), Below(spawned), permits, DrawsLeft(n, spawned), n, 0, 0, 0)
  }

  /** A run from the idle pool that reaches `s`. */
  ghost predicate Reaches(threads: nat, limit: nat, run: seq<Action>, s: Pool) {
    Possible(threads, limit, IDLE, run) && After(limit, IDLE, run) == s
  }

  lemma Extend(threads: nat, limit: nat, run: seq<Action>, s: Pool, a: Action) returns (longer: seq<Action>)
    requires Reaches(threads, limit, run, s) && Enabled(threads, s, a)
    ensures longer == run + [a]
    ensures Reaches(threads, limit, longer, Step(limit, s, a))
    ensures HoldsPermits(run) && !a.DropEarly? ==> HoldsPermits(longer)
  {
    longer := run + [a];
    assert [a][1..] == [];
    assert Possible(threads, limit, s, [a]);
    assert After(limit, s, [a]) == After(limit, Step(limit, s, a), []);
    RunsCompose(threads, limit, IDLE, run, [a]);
  }

  lemma AdmitStep(limit: nat, n: nat)
    requires n < limit
    ensures Step(limit, Admitting(n, 0), Arrive(1)) == Admitting(n + 1, 0)
  {
    assert Outers(0, n) + [Outer(n)] == Outers(0, n + 1);
    assert DrawsLeft(n, 0)[n := 1] == DrawsLeft(n + 1, 0);
  }

  lemma StartStep(limit: nat, n: nat, started: nat)
    requires started < n
    ensures Step(limit, Admitting(n, started), Start) == Admitting(n, started + 1)
  {
    assert Outers(started, n)[1..] == Outers(started + 1, n);
  }

  lemma SpawnStep(threads: nat, limit: nat, n: nat, spawned: nat, permits: set<nat>)
    requires spawned < n
    ensures Enabled(threads, Parking(n, spawned, permits), SpawnNested(spawned))
    ensures Step(limit, Parking(n, spawned, permits), SpawnNested(spawned)) == Parking(n, spawned + 1, permits)
  {
    assert Leaves(spawned) + [Leaf(spawned)] == Leaves(spawned + 1);
    assert DrawsLeft(n, spawned)[spawned := 0] == DrawsLeft(n, spawned + 1);
  }

  lemma NothingYet(threads: nat, limit: nat)
    ensures Reaches(threads, limit, [], Admitting(0, 0))
    ensures Reaches(threads, limit, [], Parking(0, 0, {}))
  {
    assert DrawsLeft(0, 0) == map[] && Outers(0, 0) == Leaves(0) == [];
  }

  lemma {:induction false} AdmitAll(threads: nat, limit: nat, n: nat) returns (run: seq<Action>)
    requires n <= limit
    ensures Reaches(threads, limit, run, Admitting(n, 0)) && HoldsPermits(run)
  {
    hide Step, Possible, After;
    if n == 0 {
      run := [];
      NothingYet(threads, limit);
    } else {
      var before := AdmitAll(threads, limit, n - 1);
      AdmitStep(limit, n - 1);
      run := Extend(threads, limit, before, Admitting(n - 1, 0), Arrive(1));
    }
  }

  lemma {:induction false} StartAll(threads: nat, limit: nat, n: nat, started: nat) returns (run: seq<Action>)
    requires started <= n <= threads && n <= limit
    ensures Reaches(threads, limit, run, Admitting(n, started)) && HoldsPermits(run)
  {
    hide Step, Possible, After;
    if started == 0 {
      run := AdmitAll(threads, limit, n);
    } else {
      var before := StartAll(threads, limit, n, started - 1);
      StartStep(limit, n, started - 1);
      run := Extend(threads, limit, before, Admitting(n, started - 1), Start);
    }
  }

  /** Each running request draws its leaf, which joins the queue. */
  lemma {:induction false} ParkAll(threads: nat, limit: nat, n: nat, spawned: nat, permits: set<nat>,
                                   start: seq<Action>)
    returns (run: seq<Action>)
    requires spawned <= n && Reaches(threads, limit, start, Parking(n, 0, permits))
    ensures Reaches(threads, limit, run, Parking(n, spawned, permits))
    ensures HoldsPermits(start) ==> HoldsPermits(run)
  {
    hide Step, Reaches, Parking;
    if spawned == 0 {
      run := start;
    } else {
      var before := ParkAll(threads, limit, n, spawned - 1, permits, start);
      SpawnStep(threads, limit, n, spawned - 1, permits);
      run := Extend(threads, limit, before, Parking(n, spawned - 1, permits), SpawnNested(spawned - 1));
    }
  }

  /** As many permits as threads are enough to park every thread. */
  lemma AtTheLimitItDeadlocks(threads: nat, limit: nat) returns (run: seq<Action>)
    requires 0 < threads <= limit
    ensures Possible(threads, limit, IDLE, run) && HoldsPermits(run)
    ensures Stuck(threads, After(limit, IDLE, run))
  {
    hide Step, Possible, After;
    run := StartAll(threads, limit, threads, threads);
    assert Outers(threads, threads) == Leaves(0);
    run := ParkAll(threads, limit, threads, threads, Below(threads), run);
    RunKeepsInv(threads, limit, IDLE, run);
    StuckIffAllParked(threads, After(limit, IDLE, run));
  }

  /**
   The limit is a correctness bound: the pool can deadlock if and only if it admits as many requests as it
   has threads.
  */
  lemma DeadlockIffLimitReachesThreads(threads: nat, limit: nat)
    requires threads > 0
    ensures limit >= threads <==>
      exists run :: Possible(threads, limit, IDLE, run) && HoldsPermits(run) && Stuck(threads, After(limit, IDLE, run))
  {
    if limit >= threads {
      var run := AtTheLimitItDeadlocks(threads, limit);
    } else {
      forall run | Possible(threads, limit, IDLE, run) && HoldsPermits(run)
        ensures !Stuck(threads, After(limit, IDLE, run))
      {
        BelowTheLimitNothingSticks(threads, limit, run);
      }
    }
  }

  /** `n` requests running without permits, and one more admitted, still queued or already running. */
  function Abandoning(n: nat, started: bool): Pool {
    if started then Parking(n + 1, 0, {n})
    else Pool([Outer(n)], OutersBelow(n), {}, {n}, DrawsLeft(n + 1, 0), n + 1, 0, 0, 0)
  }

  lemma AbandonArrive(limit: nat, n: nat)
    requires limit > 0
    ensures Step(limit, Parking(n, 0, {}), Arrive(1)) == Abandoning(n, false)
  {
    assert Leaves(0) + [Outer(n)] == [Outer(n)];
    assert DrawsLeft(n, 0)[n := 1] == DrawsLeft(n + 1, 0);
  }

  lemma AbandonStart(limit: nat, n: nat)
    ensures Step(limit, Abandoning(n, false), Start) == Abandoning(n, true)
  {
    assert [Outer(n)][1..] == Leaves(0);
  }

  lemma AbandonDrop(limit: nat, n: nat)
    ensures Step(limit, Abandoning(n, true), DropEarly(n)) == Parking(n + 1, 0, {})
  {
    assert {n} - {n} == {};
  }

  lemma {:induction false} AbandonAll(threads: nat, limit: nat, n: nat) returns (run: seq<Action>)
    requires n <= threads && limit > 0
    ensures Reaches(threads, limit, run, Parking(n, 0, {}))
  {
    hide Step, Possible, After;
    if n == 0 {
      run := [];
      NothingYet(threads, limit);
    } else {
      var before := AbandonAll(threads, limit, n - 1);
      run := AbandonOne(threads, limit, n - 1, before);
    }
  }

  /** One more request is admitted, starts, and is dropped by its client while its closure runs on. */
  lemma AbandonOne(threads: nat, limit: nat, n: nat, before: seq<Action>) returns (run: seq<Action>)
    requires n < threads && limit > 0 && Reaches(threads, limit, before, Parking(n, 0, {}))
    ensures Reaches(threads, limit, run, Parking(n + 1, 0, {}))
  {
    hide Step, Possible, After;
    AbandonArrive(limit, n);
    AbandonStart(limit, n);
    AbandonDrop(limit, n);
    run := Extend(threads, limit, before, Parking(n, 0, {}), Arrive(1));
    run := Extend(threads, limit, run, Abandoning(n, false), Start);
    run := Extend(threads, limit, run, Abandoning(n, true), DropEarly(n));
  }

  /**
   The permit must outlive the closure: when dropped responses give permits back early,
   no limit, however small, keeps the pool from deadlocking.
  */
  lemma EarlyDropsDefeatAnyLimit(threads: nat, limit: nat) returns (run: seq<Action>)
    requires threads > 0 && limit > 0
    ensures Possible(threads, limit, IDLE, run)
    ensures Stuck(threads, After(limit, IDLE, run))
  {
    hide Step, Possible, After;
    run := AbandonAll(threads, limit, threads);
    run := ParkAll(threads, limit, threads, threads, {}, run);
    RunKeepsInv(threads, limit, IDLE, run);
    StuckIffAllParked(threads, After(limit, IDLE, run));
  }

  // ----- Demand -----

  predicate OnlyRequests(run: seq<Action>) {
    forall a :: a in run ==> !a.ForeignArrives?
  }

  function Elements(q: seq<Task>): (tasks: set<Task>)
    ensures forall t :: t in tasks <==> t in q
  {
    set t | t in q
  }

  lemma {:induction false} DistinctSize(q: seq<Task>)
    requires Distinct(q)
    ensures |Elements(q)| == |q|
  {
    if q != [] {
      DistinctSize(q[1..]);
      assert q == [q[0]] + q[1..];
      assert Elements(q) == {q[0]} + Elements(q[1..]);
    }
  }

  lemma {:induction false} CountRequestTasks(tasks: set<Task>, ids: set<nat>)
    requires forall t :: t in tasks ==> (t.Outer? || t.Leaf?) && t.id in ids
    ensures |tasks| <= 2 * |ids|
    decreases ids
  {
    if ids == {} {
      assert tasks == {};
    } else {
      var id :| id in ids;
      CountRequestTasks(tasks - {Outer(id), Leaf(id)}, ids - {id});
      assert tasks <= (tasks - {Outer(id), Leaf(id)}) + {Outer(id), Leaf(id)};
      assert |tasks| <= |tasks - {Outer(id), Leaf(id)}| + |{Outer(id), Leaf(id)}| by {
        SubsetSize(tasks, (tasks - {Outer(id), Leaf(id)}) + {Outer(id), Leaf(id)});
      }
    }
  }

  lemma {:induction false} NoForeignTasks(limit: nat, s: Pool, run: seq<Action>)
    requires OnlyRequests(run)
    ensures After(limit, s, run).foreign == s.foreign
    decreases |run|
  {
    if run != [] {
      NoForeignTasks(limit, Step(limit, s, run[0]), run[1..]);
    }
  }

  lemma DemandOfState(threads: nat, limit: nat, s: Pool)
    requires Inv(threads, s) && Admitted(limit, s) && s.foreign == 0
    ensures |s.running| + |s.queue| <= 2 * limit
  {
    var tasks := s.running + Elements(s.queue);
    DistinctSize(s.queue);
    assert s.running !! Elements(s.queue);
    forall t | t in tasks
      ensures (t.Outer? || t.Leaf?) && t.id in s.permits
    {
      assert Present(s, t);
      if t.Leaf? {
        assert Present(s, Outer(t.id));
      }
    }
    CountRequestTasks(tasks, s.permits);
  }

  /** Requests alone never ask for more than two threads per permit, running or queued. */
  lemma PeakDemand(threads: nat, limit: nat, run: seq<Action>)
    requires Possible(threads, limit, IDLE, run) && HoldsPermits(run) && OnlyRequests(run)
    ensures var s := After(limit, IDLE, run); |s.running| + |s.queue| <= 2 * limit
  {
    RunKeepsInv(threads, limit, IDLE, run);
    RunKeepsAdmitted(threads, limit, IDLE, run);
    NoForeignTasks(limit, IDLE, run);
    DemandOfState(threads, limit, After(limit, IDLE, run));
  }

  /** With two threads per permit there is an idle thread for every queued task. */
  lemma NothingWaitsForAThread(threads: nat, limit: nat, run: seq<Action>)
    requires 2 * limit <= threads
    requires Possible(threads, limit, IDLE, run) && HoldsPermits(run) && OnlyRequests(run)
    ensures var s := After(limit, IDLE, run);
      |s.queue| <= threads - |s.running| && (s.queue != [] ==> Enabled(threads, s, Start))
  {
    PeakDemand(threads, limit, run);
  }

  // ----- Draining -----

  /** The nested draws left to the requests numbered below `n`. */
  function DrawsBelow(draws: map<nat, nat>, n: nat): nat {
    if n == 0 then 0 else DrawsBelow(draws, n - 1) + if n - 1 in draws then draws[n - 1] else 0
  }

  lemma {:induction false} DrawsChange(draws: map<nat, nat>, draws': map<nat, nat>, id: nat, n: nat)
    requires forall k :: k != id ==> (k in draws' <==> k in draws) && (k in draws ==> draws'[k] == draws[k])
    ensures var left: int := if id in draws then draws[id] else 0;
      var left': int := if id in draws' then draws'[id] else 0;
      DrawsBelow(draws', n) == DrawsBelow(draws, n) + if id < n then left' - left else 0
  {
    if n > 0 {
      DrawsChange(draws, draws', id, n - 1);
    }
  }

  function Measure(s: Pool): nat {
    3 * DrawsBelow(s.draws, s.arrived) + 2 * |s.queue| + |s.running|
  }

  /** Every step but an arrival brings the pool nearer to being empty. */
  lemma ProgressDecreasesMeasure(threads: nat, limit: nat, s: Pool, a: Action)
    requires Inv(threads, s) && Enabled(threads, s, a) && !Arrival(a) && !a.DropEarly?
    ensures Measure(Step(limit, s, a)) < Measure(s)
  {
    var s' := Step(limit, s, a);
    match a
    case Start =>
      assert s.queue[0] !in s.running;
    case SpawnNested(id) =>
      assert Present(s, Outer(id));
      DrawsChange(s.draws, s'.draws, id, s.arrived);
    case FinishNested(id) =>
    case FinishOuter(id) =>
      assert Present(s, Outer(id));
      DrawsChange(s.draws, s'.draws, id, s.arrived);
    case FinishForeign(id) =>
  }

  predicate Progress(run: seq<Action>) {
    forall a :: a in run ==> !Arrival(a) && !a.DropEarly?
  }

  /** Between arrivals the pool can take only boundedly many steps. */
  lemma {:induction false} ProgressIsBounded(threads: nat, limit: nat, s: Pool, run: seq<Action>)
    requires Inv(threads, s) && Possible(threads, limit, s, run) && Progress(run)
    ensures |run| <= Measure(s)
    decreases |run|
  {
    if run != [] {
      StepKeepsInv(threads, limit, s, run[0]);
      ProgressDecreasesMeasure(threads, limit, s, run[0]);
      ProgressIsBounded(threads, limit, Step(limit, s, run[0]), run[1..]);
    }
  }

  /** A pool with nothing left in it has answered or shed every request. */
  lemma EmptyPoolHasAnswered(threads: nat, limit: nat, s: Pool)
    requires Inv(threads, s) && Admitted(limit, s) && !Outstanding(s)
    ensures s.permits == {} && s.arrived == s.completed + s.shed
  {
    assert forall id: nat :: id in s.permits ==> Present(s, Outer(id));
  }

  /**
   Below the limit the pool drains: when arrivals pause, however progress is scheduled,
   it stops only when the pool is empty and every request has been answered or shed.
  */
  lemma PoolDrains(threads: nat, limit: nat, history: seq<Action>, run: seq<Action>)
    requires limit < threads
    requires Possible(threads, limit, IDLE, history) && HoldsPermits(history)
    requires Possible(threads, limit, After(limit, IDLE, history), run) && Progress(run)
    ensures var s := After(limit, IDLE, history);
      var s' := After(limit, s, run);
      && |run| <= Measure(s)
      && (Outstanding(s') ==> exists a :: Enabled(threads, s', a) && Progress([a]))
      && (!Outstanding(s') ==> s'.permits == {} && s'.arrived == s'.completed + s'.shed)
  {
    var s := After(limit, IDLE, history);
    RunKeepsInv(threads, limit, IDLE, history);
    ProgressIsBounded(threads, limit, s, run);
    RunsCompose(threads, limit, IDLE, history, run);
    var s' := After(limit, s, run);
    assert HoldsPermits(history + run);
    RunKeepsInv(threads, limit, IDLE, history + run);
    RunKeepsAdmitted(threads, limit, IDLE, history + run);
    BelowTheLimitNothingSticks(threads, limit, history + run);
    if Outstanding(s') {
      var a :| Enabled(threads, s', a) && !a.DropEarly? && !Arrival(a);
      assert Progress([a]);
    } else {
      EmptyPoolHasAnswered(threads, limit, s');
    }
  }

  // ----- The shipped configuration -----

  const MAX_BLOCKING_THREADS: nat := 4096
  const MAX_CONCURRENT_REQUESTS: nat := MAX_BLOCKING_THREADS / 4

  lemma ShippedLimitIsSafe(run: seq<Action>)
    requires Possible(MAX_BLOCKING_THREADS, MAX_CONCURRENT_REQUESTS, IDLE, run) && HoldsPermits(run)
    ensures var s := After(MAX_CONCURRENT_REQUESTS, IDLE, run);
      && !Stuck(MAX_BLOCKING_THREADS, s)
      && (OnlyRequests(run) ==> |s.running| + |s.queue| <= MAX_BLOCKING_THREADS / 2)
  {
    BelowTheLimitNothingSticks(MAX_BLOCKING_THREADS, MAX_CONCURRENT_REQUESTS, run);
    if OnlyRequests(run) {
      PeakDemand(MAX_BLOCKING_THREADS, MAX_CONCURRENT_REQUESTS, run);
    }
  }
}
