/** The scheduler (Sources/Scheduler.swift): a global idle/updating state, the plans,
    and the tick `updateIfNeeded`, written as a transition function on an immutable
    value.

    The operation queue is the map `tasks` from id to operation, together with the
    `trace` of what an observer sees happen in order: state changes, operations added
    to the queue, operations run. Running is the abstract step `Step`, which may run
    one queued operation whose dependencies have all finished; any interleaving of
    such steps is a possible sequential schedule. Timers, dispatch queues and the
    worker pool are not modelled.

    The tick receives the Git world it sees and the asset locator used for each plan
    (the source calls an `AssetLocator(root:plan:)` initializer that does not exist, so
    the locator is a parameter). */
module Scheduling {
  import opened SwiftCore
  import opened ResultOperation
  import opened OperationQueue
  import opened Repositories

  /** `Scheduler.State` */
  datatype State = Idle | Updating

  datatype Event = StateChanged(to: State) | Added(id: OpId) | Ran(id: OpId)

  datatype Scheduler = Scheduler(
    state: State,
    plans: seq<Plan>,
    tasks: map<OpId, Task>,
    nextId: OpId,
    trace: seq<Event>)

  /** The operations added to the queue so far. */
  function Queued(trace: seq<Event>): set<OpId>
  {
    set e | e in trace && e.Added? :: e.id
  }

  /** Ids are handed out in increasing order, every queued id names an operation, and
      the dependency graph is well formed (so acyclic). */
  ghost predicate Valid(s: Scheduler)
  {
    && WellFormed(s.tasks)
    && (forall id :: id in s.tasks ==> id < s.nextId)
    && Queued(s.trace) <= s.tasks.Keys
  }

  /** `Scheduler(root:plans:)`: idle, with an empty queue. */
  function Init(plans: seq<Plan>): (s: Scheduler)
    ensures s.state == Idle && s.plans == plans
    ensures s.tasks == map[] && s.trace == []
    ensures Valid(s)
  {
    Scheduler(Idle, plans, map[], 0, [])
  }

  /** `plans.filter { $0.needsUpdate }` */
  function StalePlans(plans: seq<Plan>, world: GitWorld): (r: seq<Plan>)
    ensures |r| <= |plans|
    ensures forall p :: p in r <==> p in plans && NeedsUpdate(p, world)
  {
    if |plans| == 0 then []
    else
      assert forall p :: p in plans <==> p == plans[0] || p in plans[1..];
      (if NeedsUpdate(plans[0], world) then [plans[0]] else []) + StalePlans(plans[1..], world)
  }

  /** Filtering distributes over concatenation: together with `StalePlansOfOne` this
      pins the result down to the stale plans in their original order, repetitions
      included. */
  lemma {:induction false} StalePlansAppend(a: seq<Plan>, b: seq<Plan>, world: GitWorld)
    ensures StalePlans(a + b, world) == StalePlans(a, world) + StalePlans(b, world)
  {
    if |a| == 0 {
      assert a + b == b;
    } else {
      assert (a + b)[0] == a[0];
      assert (a + b)[1..] == a[1..] + b;
      StalePlansAppend(a[1..], b, world);
    }
  }

  /** A single plan is kept exactly when it needs an update. */
  lemma StalePlansOfOne(p: Plan, world: GitWorld)
    ensures NeedsUpdate(p, world) ==> StalePlans([p], world) == [p]
    ensures !NeedsUpdate(p, world) ==> StalePlans([p], world) == []
  {
    assert [p][1..] == [];
  }

  /** The update operations of one tick: all created operations, the update operation
      of each stale plan in order, and the next free id. */
  datatype UpdateBatch = UpdateBatch(tasks: map<OpId, Task>, roots: seq<OpId>, next: OpId)

  /** `.flatMap { $0.makeUpdate(locate($0)) }`, handing out fresh ids from `base`.
      `makeUpdate` never returns `nil`, so nothing is dropped. */
  function BuildUpdates(stale: seq<Plan>, locate: Plan -> AssetLocator, base: OpId): (r: UpdateBatch)
    ensures base <= r.next
    ensures forall id :: id in r.tasks <==> base <= id < r.next
    ensures |r.roots| == |stale|
    ensures forall i :: 0 <= i < |r.roots| ==> r.roots[i] in r.tasks
    decreases |stale|
  {
    if |stale| == 0 then UpdateBatch(map[], [], base)
    else
      var u := MakeUpdate(stale[0], locate(stale[0]), base).value;
      var rest := BuildUpdates(stale[1..], locate, u.next);
      UpdateBatch(u.tasks + rest.tasks, [u.root] + rest.roots, rest.next)
  }

  /** The created operations form a well-formed graph of ready operations, none of
      them a completion. */
  lemma {:induction false} BuildUpdatesWellFormed(stale: seq<Plan>, locate: Plan -> AssetLocator, base: OpId)
    ensures var r := BuildUpdates(stale, locate, base);
      && WellFormed(r.tasks)
      && (forall id :: id in r.tasks ==> r.tasks[id].state == Ready && r.tasks[id].kind != Completion)
    decreases |stale|
  {
    if |stale| > 0 {
      var u := MakeUpdate(stale[0], locate(stale[0]), base).value;
      var rest := BuildUpdates(stale[1..], locate, u.next);
      BuildUpdatesWellFormed(stale[1..], locate, u.next);
      WellFormedUnion(u.tasks, rest.tasks);
    }
  }

  /** The i-th update checks out the i-th stale plan's branch in its working copy and
      depends on a clone exactly when that plan was never checked out. */
  lemma {:induction false} BuildUpdatesRoots(stale: seq<Plan>, locate: Plan -> AssetLocator, base: OpId)
    ensures var r := BuildUpdates(stale, locate, base);
      forall i :: 0 <= i < |r.roots| ==>
        && r.tasks[r.roots[i]].kind == Checkout(locate(stale[i]).repository, stale[i].repository.branch)
        && |r.tasks[r.roots[i]].dependencies| == (if IsNotYetCheckedOut(stale[i].head) then 1 else 0)
        && (IsNotYetCheckedOut(stale[i].head) ==>
              && r.tasks[r.roots[i]].dependencies[0] in r.tasks
              && r.tasks[r.tasks[r.roots[i]].dependencies[0]]
                 == Task(Clone(stale[i].repository.url, locate(stale[i]).repository), [], Ready))
    decreases |stale|
  {
    if |stale| > 0 {
      var r := BuildUpdates(stale, locate, base);
      var u := MakeUpdate(stale[0], locate(stale[0]), base).value;
      var rest := BuildUpdates(stale[1..], locate, u.next);
      BuildUpdatesRoots(stale[1..], locate, u.next);
      assert r.tasks[r.roots[0]] == u.tasks[u.root];
      if IsNotYetCheckedOut(stale[0].head) {
        assert u.tasks[u.root].dependencies[0] !in rest.tasks;
      }
      forall i | 0 < i < |r.roots|
        ensures r.tasks[r.roots[i]] == rest.tasks[rest.roots[i - 1]] && stale[i] == stale[1..][i - 1]
        ensures IsNotYetCheckedOut(stale[i].head) ==>
          var d := rest.tasks[rest.roots[i - 1]].dependencies[0];
          d in rest.tasks && r.tasks[d] == rest.tasks[d]
      {
        assert r.roots[i] == rest.roots[i - 1];
      }
    }
  }

  /** Update ids increase along the batch. */
  ghost predicate RootsIncrease(r: UpdateBatch)
  {
    forall i, j :: 0 <= i < j < |r.roots| ==> r.roots[i] < r.roots[j]
  }

  /** Every created operation that is not an update is a direct dependency of one. */
  ghost predicate DependenciesCovered(r: UpdateBatch)
    requires forall i :: 0 <= i < |r.roots| ==> r.roots[i] in r.tasks
  {
    forall id :: id in r.tasks && id !in r.roots ==>
      exists i :: 0 <= i < |r.roots| && id in r.tasks[r.roots[i]].dependencies
  }

  /** Update ids increase along the stale plans, and every created operation that is
      not an update is a direct dependency of one. */
  lemma {:induction false} BuildUpdatesCoverage(stale: seq<Plan>, locate: Plan -> AssetLocator, base: OpId)
    ensures RootsIncrease(BuildUpdates(stale, locate, base))
    ensures DependenciesCovered(BuildUpdates(stale, locate, base))
    decreases |stale|
  {
    if |stale| > 0 {
      var r := BuildUpdates(stale, locate, base);
      var u := MakeUpdate(stale[0], locate(stale[0]), base).value;
      var rest := BuildUpdates(stale[1..], locate, u.next);
      BuildUpdatesCoverage(stale[1..], locate, u.next);
      assert r.tasks == u.tasks + rest.tasks;
      assert forall i :: 0 < i < |r.roots| ==> r.roots[i] == rest.roots[i - 1];
      forall id | id in r.tasks && id !in r.roots
        ensures exists i :: 0 <= i < |r.roots| && id in r.tasks[r.roots[i]].dependencies
      {
        if id in u.tasks {
          assert r.tasks[r.roots[0]] == u.tasks[u.root];
          assert id in r.tasks[r.roots[0]].dependencies;
        } else {
          assert id in rest.tasks;
          var j :| 0 <= j < |rest.roots| && id in rest.tasks[rest.roots[j]].dependencies;
          assert r.roots[j + 1] == rest.roots[j];
          assert r.tasks[rest.roots[j]] == rest.tasks[rest.roots[j]];
        }
      }
    }
  }

  /** `updates.flatMap { $0.dependencies }` */
  function DirectDependencies(tasks: map<OpId, Task>, roots: seq<OpId>): (r: seq<OpId>)
    requires forall i :: 0 <= i < |roots| ==> roots[i] in tasks
    ensures forall d :: d in r <==> exists i :: 0 <= i < |roots| && d in tasks[roots[i]].dependencies
  {
    if |roots| == 0 then []
    else
      var rest := DirectDependencies(tasks, roots[1..]);
      assert forall d :: (exists i :: 1 <= i < |roots| && d in tasks[roots[i]].dependencies)
                     ==> d in rest by {
        forall d | exists i :: 1 <= i < |roots| && d in tasks[roots[i]].dependencies
          ensures d in rest
        {
          var i :| 1 <= i < |roots| && d in tasks[roots[i]].dependencies;
          assert roots[1..][i - 1] == roots[i];
        }
      }
      tasks[roots[0]].dependencies + rest
  }

  /** `addOperations(ids)`, one event per operation in order. */
  function AddedAll(ids: seq<OpId>): (r: seq<Event>)
    ensures |r| == |ids|
    ensures forall i :: 0 <= i < |ids| ==> r[i] == Added(ids[i])
  {
    if |ids| == 0 then [] else [Added(ids[0])] + AddedAll(ids[1..])
  }

  /** The operations and the id of the completion operation a tick would create. */
  function BatchOf(s: Scheduler, world: GitWorld, locate: Plan -> AssetLocator): UpdateBatch
  {
    BuildUpdates(StalePlans(s.plans, world), locate, s.nextId)
  }

  /** The second half of the tick: enter updating, then add the completion operation
      (which depends on every update), the updates and their direct dependencies. */
  function Enqueue(s: Scheduler, batch: UpdateBatch): (r: Scheduler)
    requires forall i :: 0 <= i < |batch.roots| ==> batch.roots[i] in batch.tasks
    ensures r.plans == s.plans && r.state == Updating && r.nextId == batch.next + 1
    ensures r.tasks.Keys == s.tasks.Keys + batch.tasks.Keys + {batch.next}
    ensures r.tasks[batch.next] == Task(Completion, batch.roots, Ready)
    ensures forall id :: id in batch.tasks && id != batch.next ==> r.tasks[id] == batch.tasks[id]
    ensures forall id :: id in s.tasks && id !in batch.tasks && id != batch.next ==> r.tasks[id] == s.tasks[id]
    ensures |r.trace| >= |s.trace| && r.trace[..|s.trace|] == s.trace
  {
    var completion := batch.next;
    var created := batch.tasks[completion := Task(Completion, batch.roots, Ready)];
    s.(state := Updating,
       tasks := s.tasks + created,
       nextId := completion + 1,
       trace := s.trace + [StateChanged(Updating), Added(completion)]
                + AddedAll(batch.roots) + AddedAll(DirectDependencies(batch.tasks, batch.roots)))
  }

  /** The events `Enqueue` appends add the completion, the updates and their direct
      dependencies. */
  lemma EnqueueQueues(s: Scheduler, batch: UpdateBatch)
    requires forall i :: 0 <= i < |batch.roots| ==> batch.roots[i] in batch.tasks
    ensures forall id :: id in Queued(Enqueue(s, batch).trace) <==>
      id in Queued(s.trace) || id == batch.next || id in batch.roots
      || id in DirectDependencies(batch.tasks, batch.roots)
  {
    var r := Enqueue(s, batch);
    var deps := DirectDependencies(batch.tasks, batch.roots);
    var head := [StateChanged(Updating), Added(batch.next)];
    assert r.trace == s.trace + head + AddedAll(batch.roots) + AddedAll(deps);
    QueuedAppend(s.trace + head + AddedAll(batch.roots), AddedAll(deps));
    QueuedAppend(s.trace + head, AddedAll(batch.roots));
    QueuedAppend(s.trace, head);
    QueuedAddedAll(batch.roots);
    QueuedAddedAll(deps);
    assert Queued(head) == {batch.next};
  }

  /** The updates and their direct dependencies are all of a covered, well-formed batch. */
  lemma RootsAndDependenciesAreAll(batch: UpdateBatch)
    requires forall i :: 0 <= i < |batch.roots| ==> batch.roots[i] in batch.tasks
    requires DependenciesCovered(batch)
    requires WellFormed(batch.tasks)
    ensures forall id :: id in batch.tasks <==>
      id in batch.roots || id in DirectDependencies(batch.tasks, batch.roots)
  {
    var deps := DirectDependencies(batch.tasks, batch.roots);
    forall id | id in deps
      ensures id in batch.tasks
    {
      var i :| 0 <= i < |batch.roots| && id in batch.tasks[batch.roots[i]].dependencies;
      var root := batch.roots[i];
      var k :| 0 <= k < |batch.tasks[root].dependencies| && batch.tasks[root].dependencies[k] == id;
    }
  }

  /** What `Enqueue` adds to the queue is exactly what it creates. */
  lemma EnqueueQueuesWhatItCreates(s: Scheduler, batch: UpdateBatch)
    requires forall i :: 0 <= i < |batch.roots| ==> batch.roots[i] in batch.tasks
    requires DependenciesCovered(batch)
    requires WellFormed(batch.tasks)
    ensures Queued(Enqueue(s, batch).trace) == Queued(s.trace) + batch.tasks.Keys + {batch.next}
  {
    EnqueueQueues(s, batch);
    RootsAndDependenciesAreAll(batch);
  }

  /** On fresh ids, the operations `Enqueue` queues are exactly the ones it adds. */
  lemma EnqueueQueuesExactlyNew(s: Scheduler, batch: UpdateBatch)
    requires forall i :: 0 <= i < |batch.roots| ==> batch.roots[i] in batch.tasks
    requires DependenciesCovered(batch)
    requires WellFormed(batch.tasks)
    requires forall id :: id in s.tasks ==> id < s.nextId
    requires s.nextId <= batch.next
    requires forall id :: id in batch.tasks ==> s.nextId <= id < batch.next
    ensures var r := Enqueue(s, batch);
      Queued(r.trace) == Queued(s.trace) + (r.tasks.Keys - s.tasks.Keys)
  {
    var r := Enqueue(s, batch);
    EnqueueQueuesWhatItCreates(s, batch);
    var created := batch.tasks.Keys + {batch.next};
    assert created !! s.tasks.Keys;
    assert r.tasks.Keys - s.tasks.Keys == created;
  }

  /** `Enqueue` keeps the queue well formed when the batch is well formed and uses
      only ids from `s.nextId` up to, not including, its completion id. */
  lemma EnqueuePreservesValid(s: Scheduler, batch: UpdateBatch)
    requires Valid(s)
    requires forall i :: 0 <= i < |batch.roots| ==> batch.roots[i] in batch.tasks
    requires DependenciesCovered(batch)
    requires WellFormed(batch.tasks)
    requires s.nextId <= batch.next
    requires forall id :: id in batch.tasks ==> s.nextId <= id < batch.next
    ensures Valid(Enqueue(s, batch))
  {
    var r := Enqueue(s, batch);
    EnqueueQueuesWhatItCreates(s, batch);
    var c := batch.next;
    var created := batch.tasks[c := Task(Completion, batch.roots, Ready)];
    assert WellFormed(created) by {
      forall id | id in created
        ensures forall i :: 0 <= i < |created[id].dependencies| ==>
          created[id].dependencies[i] in created && created[id].dependencies[i] < id
      {
        if id != c {
          assert created[id] == batch.tasks[id];
        }
      }
    }
    assert s.tasks.Keys !! created.Keys by {
      forall id | id in s.tasks ensures id !in created {
        assert id < s.nextId;
      }
    }
    WellFormedUnion(s.tasks, created);
    assert r.tasks == s.tasks + created;
  }

  /** `updateIfNeeded()`: when some plan is stale, set the state to updating, then add
      a completion operation that depends on every update, the updates, and their
      direct dependencies; otherwise change nothing. The current state is not read. */
  function Tick(s: Scheduler, world: GitWorld, locate: Plan -> AssetLocator): (r: Scheduler)
    ensures r.plans == s.plans
    ensures |StalePlans(s.plans, world)| == 0 ==> r == s
    ensures |StalePlans(s.plans, world)| > 0 ==> r.state == Updating && r.nextId > s.nextId
    ensures forall id :: id in s.tasks ==> id in r.tasks && (id < s.nextId ==> r.tasks[id] == s.tasks[id])
    ensures |r.trace| >= |s.trace| && r.trace[..|s.trace|] == s.trace
  {
    var batch := BatchOf(s, world, locate);
    if |batch.roots| == 0 then s else Enqueue(s, batch)
  }

  /** After the state change, every event `Enqueue` appends adds an operation. */
  lemma EnqueueEntersUpdatingFirst(s: Scheduler, batch: UpdateBatch)
    requires forall i :: 0 <= i < |batch.roots| ==> batch.roots[i] in batch.tasks
    ensures var r := Enqueue(s, batch);
      && |r.trace| >= |s.trace| + 2 + |batch.roots|
      && r.trace[|s.trace|] == StateChanged(Updating)
      && forall i :: |s.trace| < i < |r.trace| ==> r.trace[i].Added?
  {
    var r := Enqueue(s, batch);
    var tail := AddedAll(batch.roots) + AddedAll(DirectDependencies(batch.tasks, batch.roots));
    assert r.trace == s.trace + [StateChanged(Updating), Added(batch.next)] + tail;
    forall i | |s.trace| < i < |r.trace|
      ensures r.trace[i].Added?
    {
      if i > |s.trace| + 1 {
        var k := i - |s.trace| - 2;
        assert r.trace[i] == tail[k];
        if k < |batch.roots| {
          assert tail[k] == AddedAll(batch.roots)[k];
        } else {
          assert tail[k] == AddedAll(DirectDependencies(batch.tasks, batch.roots))[k - |batch.roots|];
        }
      }
    }
  }

  /** The state change comes first: every event of the tick after it adds an operation. */
  lemma TickEntersUpdatingBeforeEnqueueing(s: Scheduler, world: GitWorld, locate: Plan -> AssetLocator)
    requires |StalePlans(s.plans, world)| > 0
    ensures var r := Tick(s, world, locate);
      && |r.trace| >= |s.trace| + 2 + |StalePlans(s.plans, world)|
      && r.trace[|s.trace|] == StateChanged(Updating)
      && forall i :: |s.trace| < i < |r.trace| ==> r.trace[i].Added?
  {
    var batch := BatchOf(s, world, locate);
    assert Tick(s, world, locate) == Enqueue(s, batch);
    EnqueueEntersUpdatingFirst(s, batch);
  }

  /** The completion operation of a tick is new and depends on exactly one update
      operation per stale plan, in order: the checkout of that plan's branch in its
      working copy. */
  lemma TickCompletionWaitsForEveryUpdate(s: Scheduler, world: GitWorld, locate: Plan -> AssetLocator)
    requires Valid(s)
    requires |StalePlans(s.plans, world)| > 0
    ensures var r := Tick(s, world, locate);
      var stale := StalePlans(s.plans, world);
      var c := r.trace[|s.trace| + 1].id;
      && r.trace[|s.trace| + 1].Added?
      && c !in s.tasks && c in r.tasks
      && r.tasks[c].kind == Completion && r.tasks[c].state == Ready
      && |r.tasks[c].dependencies| == |stale|
      && forall i :: 0 <= i < |stale| ==>
           var u := r.tasks[c].dependencies[i];
           u in r.tasks && u !in s.tasks
           && r.tasks[u].kind == Checkout(locate(stale[i]).repository, stale[i].repository.branch)
  {
    var stale := StalePlans(s.plans, world);
    var batch := BatchOf(s, world, locate);
    var r := Tick(s, world, locate);
    BuildUpdatesRoots(stale, locate, s.nextId);
    assert r.trace[|s.trace| + 1] == Added(batch.next);
    assert r.tasks[batch.next].dependencies == batch.roots;
    forall i | 0 <= i < |batch.roots|
      ensures r.tasks[batch.roots[i]] == batch.tasks[batch.roots[i]]
    {
    }
  }

  lemma QueuedAppend(a: seq<Event>, b: seq<Event>)
    ensures Queued(a + b) == Queued(a) + Queued(b)
  {
    assert forall e :: e in a + b <==> e in a || e in b;
  }

  lemma QueuedAddedAll(ids: seq<OpId>)
    ensures forall x :: x in Queued(AddedAll(ids)) <==> x in ids
  {
    var q := AddedAll(ids);
    forall x | x in Queued(q)
      ensures x in ids
    {
      var e :| e in q && e.Added? && e.id == x;
      var k :| 0 <= k < |q| && q[k] == e;
      assert ids[k] == x;
    }
    forall k | 0 <= k < |ids|
      ensures ids[k] in Queued(q)
    {
      assert q[k] == Added(ids[k]);
    }
  }

  /** One level of dependencies is enough here: the operations a tick adds to the
      queue are exactly the operations it creates (the completion, the updates and
      the clones they depend on), so nothing created is left out of the queue. */
  lemma TickEnqueuesWhatItCreates(s: Scheduler, world: GitWorld, locate: Plan -> AssetLocator)
    requires Valid(s)
    ensures var r := Tick(s, world, locate);
      Queued(r.trace) == Queued(s.trace) + (r.tasks.Keys - s.tasks.Keys)
  {
    var batch := BatchOf(s, world, locate);
    if |batch.roots| > 0 {
      BuildUpdatesCoverage(StalePlans(s.plans, world), locate, s.nextId);
      BuildUpdatesWellFormed(StalePlans(s.plans, world), locate, s.nextId);
      EnqueueQueuesExactlyNew(s, batch);
    }
  }

  /** Ticks keep the queue well formed. */
  lemma TickPreservesValid(s: Scheduler, world: GitWorld, locate: Plan -> AssetLocator)
    requires Valid(s)
    ensures Valid(Tick(s, world, locate))
  {
    var batch := BatchOf(s, world, locate);
    if |batch.roots| > 0 {
      BuildUpdatesCoverage(StalePlans(s.plans, world), locate, s.nextId);
      BuildUpdatesWellFormed(StalePlans(s.plans, world), locate, s.nextId);
      EnqueuePreservesValid(s, batch);
    }
  }

  /** The tick does not read the state: from idle or from updating, it does the same
      work, and a tick while a batch is in flight is evaluated like any other. */
  lemma TickIgnoresState(s: Scheduler, world: GitWorld, locate: Plan -> AssetLocator, st: State)
    ensures Tick(s.(state := st), world, locate).(state := Idle) == Tick(s, world, locate).(state := Idle)
    ensures Tick(s.(state := st), world, locate).state
         == (if |StalePlans(s.plans, world)| == 0 then st else Updating)
  {
  }

  /** A plan never checked out stays stale, so every tick, even one while a batch is
      in flight, creates and queues another update for it. */
  lemma TickWhileUpdatingStartsAnotherBatch(s: Scheduler, world: GitWorld, locate: Plan -> AssetLocator, p: Plan)
    requires s.state == Updating
    requires p in s.plans && p.head == NotYetCheckedOut
    ensures Tick(s, world, locate).nextId > s.nextId
    ensures |Tick(s, world, locate).trace| > |s.trace|
  {
    assert p in StalePlans(s.plans, world);
  }

  /** Every dependency is a known operation that has finished. */
  predicate DependenciesFinished(tasks: map<OpId, Task>, deps: seq<OpId>)
  {
    forall i :: 0 <= i < |deps| ==> deps[i] in tasks && IsFinished(tasks[deps[i]].state)
  }

  /** The queue may run `id`: it was added, it is ready, and so are its dependencies. */
  predicate CanRun(s: Scheduler, id: OpId)
  {
    id in Queued(s.trace) && id in s.tasks
    && IsReady(s.tasks[id].state, DependenciesFinished(s.tasks, s.tasks[id].dependencies))
  }

  /** The operation queue runs one ready operation to completion; running the
      completion operation sets the state back to idle. An operation that cannot run
      leaves everything unchanged. */
  function Step(s: Scheduler, id: OpId): (r: Scheduler)
    ensures r.plans == s.plans && r.nextId == s.nextId
    ensures !CanRun(s, id) ==> r == s
    ensures r.tasks.Keys == s.tasks.Keys
    ensures forall t :: t in s.tasks ==>
      r.tasks[t].kind == s.tasks[t].kind && r.tasks[t].dependencies == s.tasks[t].dependencies
      && Rank(r.tasks[t].state) >= Rank(s.tasks[t].state)
    ensures forall t :: t in s.tasks && t != id ==> r.tasks[t] == s.tasks[t]
    ensures CanRun(s, id) ==> r.tasks[id].state == Finished
    ensures CanRun(s, id) && s.tasks[id].kind == Completion ==> r.state == Idle
    ensures !(CanRun(s, id) && s.tasks[id].kind == Completion) ==> r.state == s.state
    ensures s.trace <= r.trace
    ensures CanRun(s, id) ==> |r.trace| > |s.trace| && r.trace[|s.trace|] == Ran(id)
    ensures Queued(r.trace) == Queued(s.trace)
  {
    if CanRun(s, id) then
      var t := s.tasks[id];
      var ran := s.(tasks := s.tasks[id := t.(state := Finished)], trace := s.trace + [Ran(id)]);
      QueuedAppend(s.trace, [Ran(id)]);
      if t.kind == Completion then
        QueuedAppend(ran.trace, [StateChanged(Idle)]);
        ran.(state := Idle, trace := ran.trace + [StateChanged(Idle)])
      else ran
    else s
  }

  /** The only way back to idle is running a completion operation, and only once all
      of its dependencies (the batch's updates) have finished. */
  lemma IdleOnlyAfterAllUpdatesFinish(s: Scheduler, id: OpId)
    requires s.state == Updating && Step(s, id).state == Idle
    ensures id in s.tasks && s.tasks[id].kind == Completion
    ensures forall i :: 0 <= i < |s.tasks[id].dependencies| ==>
      s.tasks[id].dependencies[i] in s.tasks && s.tasks[s.tasks[id].dependencies[i]].state == Finished
  {
  }

  /** An operation runs at most once: once run, a step on it changes nothing, so a
      batch returns to idle at most once. */
  lemma RunsAtMostOnce(s: Scheduler, id: OpId, other: OpId)
    requires CanRun(s, id)
    ensures !CanRun(Step(s, id), id)
    ensures Step(Step(s, id), id) == Step(s, id)
    ensures id != other && CanRun(s, other) && Step(s, id).state == Idle ==>
      s.tasks[other].kind != Completion || Step(Step(s, id), other).state == Idle
  {
  }

  /** Steps keep the queue well formed. */
  lemma StepPreservesValid(s: Scheduler, id: OpId)
    requires Valid(s)
    ensures Valid(Step(s, id))
  {
  }
}
