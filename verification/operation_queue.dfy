/** Operations as the queue sees them, and `addOperation(includingDependencies:)`
    (Sources/OperationQueue+IncludingDependencies.swift): add the operation, then
    recursively each of its dependencies in declared order. The scheduler does not
    call it: Sources/Scheduler.swift enqueues with plain `addOperation` and
    `addOperations` (modelled by `Scheduling.Enqueue`), so this recursion is a
    helper of the repository that the update pipeline leaves unused.

    Operations are addressed by an `OpId`; a `DependencyGraph` maps each operation to
    its dependencies in the order `addDependency` was called. The source recursion
    has no base case other than running out of dependencies, so on a cyclic graph it
    never returns. The model bounds the recursion depth with `fuel` and answers `None`
    when the bound is hit: `CompletesUnlessCycle` shows that, with more fuel than the
    graph has operations, this happens exactly when a cycle is reachable;
    `TerminatesWhenRanked` that an acyclic graph always completes with enough fuel;
    `FuelIrrelevant` that more fuel changes nothing once it completes; and
    `CycleNeverCompletes` that no amount of fuel completes on a cycle.

    Foundation's `addOperation` raises an exception when an operation is added a
    second time; the model leaves that out and records every call, so the lemmas
    about cycles and shared dependencies describe the recursion itself. */
module OperationQueue {
  import opened SwiftCore
  import opened ResultOperation

  type OpId = nat

  /** What an operation does when run; the pipeline of Sources/Repositories.swift
      and Sources/Scheduler.swift creates only these three. */
  datatype TaskKind =
    | Clone(remote: string, path: string)      // clone `remote` into `path`
    | Checkout(path: string, branch: string)   // check `branch` out in the working copy at `path`
    | Completion                               // the scheduler's "back to idle" block

  /** An operation object: its kind, its dependencies in order, and its lifecycle state. */
  datatype Task = Task(kind: TaskKind, dependencies: seq<OpId>, state: OperationState)

  /** Every dependency of a task is a known task with a smaller id; the ids therefore
      rank the graph and it has no cycle. */
  predicate WellFormed(tasks: map<OpId, Task>)
  {
    forall id :: id in tasks ==> forall i :: 0 <= i < |tasks[id].dependencies| ==>
      tasks[id].dependencies[i] in tasks && tasks[id].dependencies[i] < id
  }

  /** Two well-formed task sets with no id in common form a well-formed whole. */
  lemma WellFormedUnion(a: map<OpId, Task>, b: map<OpId, Task>)
    requires WellFormed(a) && WellFormed(b) && a.Keys !! b.Keys
    ensures WellFormed(a + b)
    ensures forall id :: id in a ==> (a + b)[id] == a[id]
    ensures forall id :: id in b ==> (a + b)[id] == b[id]
  {
    forall id | id in a
      ensures (a + b)[id] == a[id]
    {
      assert id !in b;
    }
  }

  type DependencyGraph = map<OpId, seq<OpId>>

  /** The dependency edges of a set of tasks. */
  function GraphOf(tasks: map<OpId, Task>): (g: DependencyGraph)
    ensures g.Keys == tasks.Keys
    ensures forall id :: id in tasks ==> g[id] == tasks[id].dependencies
  {
    map id | id in tasks :: tasks[id].dependencies
  }

  /** `operation.dependencies`; an operation the graph does not mention has none. */
  function Dependencies(g: DependencyGraph, op: OpId): seq<OpId>
  {
    if op in g then g[op] else []
  }

  /** A walk along dependency edges. */
  ghost predicate IsPath(g: DependencyGraph, p: seq<OpId>)
    decreases |p|
  {
    |p| >= 1 && (|p| == 1 || (p[1] in Dependencies(g, p[0]) && IsPath(g, p[1..])))
  }

  ghost predicate Reachable(g: DependencyGraph, from: OpId, to: OpId)
  {
    exists p :: IsPath(g, p) && p[0] == from && p[|p| - 1] == to
  }

  /** `rank` strictly decreases along every dependency edge: the graph is acyclic. */
  ghost predicate RankedBy(g: DependencyGraph, rank: OpId -> nat)
  {
    forall a, d :: d in Dependencies(g, a) ==> rank(d) < rank(a)
  }

  /** The sequence of `addOperation` calls made by `addOperation(includingDependencies: op)`,
      or `None` when the recursion goes deeper than `fuel`. */
  function AddIncludingDependencies(g: DependencyGraph, op: OpId, fuel: nat): (r: Optional<seq<OpId>>)
    ensures r.Some? ==> |r.value| >= 1 && r.value[0] == op
    decreases fuel, 0
  {
    if fuel == 0 then None
    else
      match AddEach(g, Dependencies(g, op), fuel - 1)
      case None => None
      case Some(rest) => Some([op] + rest)
  }

  /** The `for dependency in operation.dependencies` loop. */
  function AddEach(g: DependencyGraph, ops: seq<OpId>, fuel: nat): (r: Optional<seq<OpId>>)
    decreases fuel, 1, |ops|
  {
    if |ops| == 0 then Some([])
    else
      match AddIncludingDependencies(g, ops[0], fuel)
      case None => None
      case Some(first) =>
        match AddEach(g, ops[1..], fuel)
        case None => None
        case Some(rest) => Some(first + rest)
  }

  /** The loop completes exactly when the traversal of every dependency completes,
      and then it adds everything each of them adds. */
  lemma {:induction false} AddEachContains(g: DependencyGraph, ops: seq<OpId>, fuel: nat, i: nat)
    requires i < |ops|
    ensures AddEach(g, ops, fuel).Some? ==> AddIncludingDependencies(g, ops[i], fuel).Some?
    ensures AddEach(g, ops, fuel).Some? ==>
      forall y :: y in AddIncludingDependencies(g, ops[i], fuel).value ==> y in AddEach(g, ops, fuel).value
    decreases |ops|
  {
    if AddEach(g, ops, fuel).Some? && i > 0 {
      AddEachContains(g, ops[1..], fuel, i - 1);
      assert ops[1..][i - 1] == ops[i];
    }
  }

  /** Anything the loop adds was added by the traversal of one of the dependencies. */
  lemma {:induction false} AddEachElement(g: DependencyGraph, ops: seq<OpId>, fuel: nat, x: OpId)
    requires AddEach(g, ops, fuel).Some? && x in AddEach(g, ops, fuel).value
    ensures exists i :: 0 <= i < |ops| && AddIncludingDependencies(g, ops[i], fuel).Some?
                        && x in AddIncludingDependencies(g, ops[i], fuel).value
    decreases |ops|
  {
    var first := AddIncludingDependencies(g, ops[0], fuel).value;
    if x !in first {
      AddEachElement(g, ops[1..], fuel, x);
      var i :| 0 <= i < |ops[1..]| && AddIncludingDependencies(g, ops[1..][i], fuel).Some?
               && x in AddIncludingDependencies(g, ops[1..][i], fuel).value;
      assert ops[1..][i] == ops[i + 1];
    }
  }

  lemma {:induction false} PrependEdge(g: DependencyGraph, op: OpId, p: seq<OpId>)
    requires IsPath(g, p) && p[0] in Dependencies(g, op)
    ensures IsPath(g, [op] + p)
  {
    assert ([op] + p)[1..] == p;
  }

  /** Everything added is reachable from `op` along dependency edges. */
  lemma {:induction false} AddedAreReachable(g: DependencyGraph, op: OpId, fuel: nat, x: OpId)
    requires AddIncludingDependencies(g, op, fuel).Some?
    requires x in AddIncludingDependencies(g, op, fuel).value
    ensures Reachable(g, op, x)
    decreases fuel
  {
    if x == op {
      assert IsPath(g, [op]);
    } else {
      var deps := Dependencies(g, op);
      AddEachElement(g, deps, fuel - 1, x);
      var i :| 0 <= i < |deps| && AddIncludingDependencies(g, deps[i], fuel - 1).Some?
               && x in AddIncludingDependencies(g, deps[i], fuel - 1).value;
      AddedAreReachable(g, deps[i], fuel - 1, x);
      var p :| IsPath(g, p) && p[0] == deps[i] && p[|p| - 1] == x;
      PrependEdge(g, op, p);
      assert ([op] + p)[|[op] + p| - 1] == x;
    }
  }

  /** The end of every path from `op` is added. */
  lemma {:induction false} PathEndIsAdded(g: DependencyGraph, p: seq<OpId>, fuel: nat)
    requires IsPath(g, p)
    requires AddIncludingDependencies(g, p[0], fuel).Some?
    ensures p[|p| - 1] in AddIncludingDependencies(g, p[0], fuel).value
    decreases |p|
  {
    if |p| > 1 {
      var deps := Dependencies(g, p[0]);
      var i :| 0 <= i < |deps| && deps[i] == p[1];
      AddEachContains(g, deps, fuel - 1, i);
      PathEndIsAdded(g, p[1..], fuel - 1);
    }
  }

  /** `addOperation(includingDependencies: op)` adds exactly the operations reachable
      from `op`, `op` itself first. */
  lemma EnqueuedExactlyReachable(g: DependencyGraph, op: OpId, fuel: nat)
    requires AddIncludingDependencies(g, op, fuel).Some?
    ensures AddIncludingDependencies(g, op, fuel).value[0] == op
    ensures forall x :: x in AddIncludingDependencies(g, op, fuel).value <==> Reachable(g, op, x)
  {
    forall x
      ensures x in AddIncludingDependencies(g, op, fuel).value <==> Reachable(g, op, x)
    {
      if x in AddIncludingDependencies(g, op, fuel).value {
        AddedAreReachable(g, op, fuel, x);
      }
      if Reachable(g, op, x) {
        var p :| IsPath(g, p) && p[0] == op && p[|p| - 1] == x;
        PathEndIsAdded(g, p, fuel);
      }
    }
  }

  /** On an acyclic graph the recursion completes once the depth bound exceeds the
      rank of the start operation. */
  lemma {:induction false} TerminatesWhenRanked(g: DependencyGraph, rank: OpId -> nat, op: OpId, fuel: nat)
    requires RankedBy(g, rank) && rank(op) < fuel
    ensures AddIncludingDependencies(g, op, fuel).Some?
    decreases fuel, 0
  {
    var deps := Dependencies(g, op);
    forall i | 0 <= i < |deps|
      ensures rank(deps[i]) < fuel - 1
    {
      assert deps[i] in Dependencies(g, op);
    }
    AddEachTerminates(g, rank, deps, fuel - 1);
  }

  lemma {:induction false} AddEachTerminates(g: DependencyGraph, rank: OpId -> nat, ops: seq<OpId>, fuel: nat)
    requires RankedBy(g, rank)
    requires forall i :: 0 <= i < |ops| ==> rank(ops[i]) < fuel
    ensures AddEach(g, ops, fuel).Some?
    decreases fuel, 1, |ops|
  {
    if |ops| > 0 {
      TerminatesWhenRanked(g, rank, ops[0], fuel);
      AddEachTerminates(g, rank, ops[1..], fuel);
    }
  }

  /** Once the recursion completes, a larger depth bound gives the same calls. */
  lemma {:induction false} FuelIrrelevant(g: DependencyGraph, op: OpId, fuel: nat, more: nat)
    requires AddIncludingDependencies(g, op, fuel).Some? && fuel <= more
    ensures AddIncludingDependencies(g, op, more) == AddIncludingDependencies(g, op, fuel)
    decreases fuel, 0
  {
    AddEachFuelIrrelevant(g, Dependencies(g, op), fuel - 1, more - 1);
  }

  lemma {:induction false} AddEachFuelIrrelevant(g: DependencyGraph, ops: seq<OpId>, fuel: nat, more: nat)
    requires AddEach(g, ops, fuel).Some? && fuel <= more
    ensures AddEach(g, ops, more) == AddEach(g, ops, fuel)
    decreases fuel, 1, |ops|
  {
    if |ops| > 0 {
      FuelIrrelevant(g, ops[0], fuel, more);
      AddEachFuelIrrelevant(g, ops[1..], fuel, more);
    }
  }

  /** Consecutive operations of a path are joined by a dependency edge. */
  lemma {:induction false} PathEdges(g: DependencyGraph, p: seq<OpId>, i: nat)
    requires IsPath(g, p) && i + 1 < |p|
    ensures p[i + 1] in Dependencies(g, p[i])
    decreases i
  {
    if i > 0 {
      PathEdges(g, p[1..], i - 1);
    }
  }

  /** When some dependency's traversal never completes, neither does the operation's. */
  lemma DivergingDependency(g: DependencyGraph, op: OpId, d: OpId, fuel: nat)
    requires d in Dependencies(g, op)
    requires fuel > 0 ==> AddIncludingDependencies(g, d, fuel - 1).None?
    ensures AddIncludingDependencies(g, op, fuel).None?
  {
    if fuel > 0 {
      var deps := Dependencies(g, op);
      var i :| 0 <= i < |deps| && deps[i] == d;
      AddEachContains(g, deps, fuel - 1, i);
    }
  }

  /** On a cycle the recursion never completes, whatever the depth bound: the source
      call does not return. */
  lemma {:induction false} CycleNeverCompletes(g: DependencyGraph, c: seq<OpId>, fuel: nat)
    requires IsPath(g, c) && |c| >= 2 && c[0] == c[|c| - 1]
    ensures forall i :: 0 <= i < |c| ==> AddIncludingDependencies(g, c[i], fuel).None?
  {
    if fuel > 0 {
      CycleNeverCompletes(g, c, fuel - 1);
      forall i | 0 <= i < |c|
        ensures AddIncludingDependencies(g, c[i], fuel).None?
      {
        if i + 1 < |c| {
          PathEdges(g, c, i);
          DivergingDependency(g, c[i], c[i + 1], fuel);
        } else {
          PathEdges(g, c, 0);
          DivergingDependency(g, c[i], c[1], fuel);
        }
      }
    }
  }

  /** Neither does it complete from any operation from which a cycle can be reached. */
  lemma {:induction false} ReachingCycleNeverCompletes(g: DependencyGraph, p: seq<OpId>, c: seq<OpId>, fuel: nat)
    requires IsPath(g, c) && |c| >= 2 && c[0] == c[|c| - 1]
    requires IsPath(g, p) && p[|p| - 1] == c[0]
    ensures AddIncludingDependencies(g, p[0], fuel).None?
    decreases |p|
  {
    if |p| == 1 {
      CycleNeverCompletes(g, c, fuel);
    } else if fuel > 0 {
      ReachingCycleNeverCompletes(g, p[1..], c, fuel - 1);
      DivergingDependency(g, p[0], p[1], fuel);
    }
  }

  /** A walk that returns to where it started, along at least one edge. */
  ghost predicate IsCycle(g: DependencyGraph, c: seq<OpId>)
  {
    IsPath(g, c) && |c| >= 2 && c[0] == c[|c| - 1]
  }

  /** Some cycle can be reached from `op` along dependency edges. */
  ghost predicate ReachesCycle(g: DependencyGraph, op: OpId)
  {
    exists p, c :: IsCycle(g, c) && IsPath(g, p) && p[0] == op && p[|p| - 1] == c[0]
  }

  /** A sequence whose consecutive elements are joined by edges is a path. */
  lemma {:induction false} EdgesMakePath(g: DependencyGraph, q: seq<OpId>)
    requires |q| >= 1
    requires forall k :: 0 <= k < |q| - 1 ==> q[k + 1] in Dependencies(g, q[k])
    ensures IsPath(g, q)
    decreases |q|
  {
    if |q| > 1 {
      assert q[1] in Dependencies(g, q[0]);
      forall k | 0 <= k < |q[1..]| - 1
        ensures q[1..][k + 1] in Dependencies(g, q[1..][k])
      {
        assert q[1..][k] == q[k + 1] && q[1..][k + 1] == q[k + 2];
      }
      EdgesMakePath(g, q[1..]);
    }
  }

  /** Every non-empty stretch of a path is a path. */
  lemma PathSlice(g: DependencyGraph, p: seq<OpId>, i: nat, j: nat)
    requires IsPath(g, p) && i < j <= |p|
    ensures IsPath(g, p[i..j])
  {
    var q := p[i..j];
    forall k | 0 <= k < |q| - 1
      ensures q[k + 1] in Dependencies(g, q[k])
    {
      PathEdges(g, p, i + k);
    }
    EdgesMakePath(g, q);
  }

  /** The loop fails to complete only because the traversal of one of the
      dependencies does. */
  lemma {:induction false} AddEachDiverges(g: DependencyGraph, ops: seq<OpId>, fuel: nat)
    requires AddEach(g, ops, fuel).None?
    ensures exists i :: 0 <= i < |ops| && AddIncludingDependencies(g, ops[i], fuel).None?
    decreases |ops|
  {
    if AddIncludingDependencies(g, ops[0], fuel).Some? {
      AddEachDiverges(g, ops[1..], fuel);
      var i :| 0 <= i < |ops[1..]| && AddIncludingDependencies(g, ops[1..][i], fuel).None?;
      assert ops[1..][i] == ops[i + 1];
    }
  }

  /** When the recursion hits the depth bound, there is a walk from `op` one longer
      than the bound. */
  lemma {:induction false} DivergingPath(g: DependencyGraph, op: OpId, fuel: nat)
    requires AddIncludingDependencies(g, op, fuel).None?
    ensures exists p :: IsPath(g, p) && p[0] == op && |p| == fuel + 1
    decreases fuel
  {
    if fuel == 0 {
      assert IsPath(g, [op]);
    } else {
      var deps := Dependencies(g, op);
      AddEachDiverges(g, deps, fuel - 1);
      var i :| 0 <= i < |deps| && AddIncludingDependencies(g, deps[i], fuel - 1).None?;
      DivergingPath(g, deps[i], fuel - 1);
      var q :| IsPath(g, q) && q[0] == deps[i] && |q| == fuel;
      PrependEdge(g, op, q);
      assert ([op] + q)[0] == op;
    }
  }

  /** More elements than distinct values force a repetition. */
  lemma {:induction false} Pigeonhole(s: seq<OpId>, values: set<OpId>)
    requires forall k :: 0 <= k < |s| ==> s[k] in values
    requires |s| > |values|
    ensures exists i, j :: 0 <= i < j < |s| && s[i] == s[j]
    decreases |s|
  {
    if s[0] in s[1..] {
      var j :| 0 <= j < |s[1..]| && s[1..][j] == s[0];
      assert s[0] == s[j + 1];
    } else {
      var rest := values - {s[0]};
      forall k | 0 <= k < |s[1..]|
        ensures s[1..][k] in rest
      {
        assert s[1..][k] == s[k + 1];
      }
      Pigeonhole(s[1..], rest);
      var i, j :| 0 <= i < j < |s[1..]| && s[1..][i] == s[1..][j];
      assert s[i + 1] == s[j + 1];
    }
  }

  /** Every operation of a walk but the last has a dependency, so the graph mentions it. */
  lemma PathInGraph(g: DependencyGraph, p: seq<OpId>, k: nat)
    requires IsPath(g, p) && k + 1 < |p|
    ensures p[k] in g.Keys
  {
    PathEdges(g, p, k);
  }

  /** A walk that ends where a cycle starts shows the cycle reachable. */
  lemma CycleAtEnd(g: DependencyGraph, q: seq<OpId>, c: seq<OpId>)
    requires IsCycle(g, c) && IsPath(g, q) && q[|q| - 1] == c[0]
    ensures ReachesCycle(g, q[0])
  {
  }

  /** The stretch of a walk between two visits of the same operation is a cycle. */
  lemma RepetitionIsCycle(g: DependencyGraph, p: seq<OpId>, i: nat, j: nat)
    requires IsPath(g, p) && i < j < |p| && p[i] == p[j]
    ensures IsCycle(g, p[i..j + 1])
  {
    PathSlice(g, p, i, j + 1);
  }

  /** A repeated operation on a walk closes a cycle reachable from the walk's start. */
  lemma RepetitionClosesCycle(g: DependencyGraph, p: seq<OpId>, i: nat, j: nat)
    requires IsPath(g, p) && i < j < |p| && p[i] == p[j]
    ensures ReachesCycle(g, p[0])
  {
    RepetitionIsCycle(g, p, i, j);
    PathSlice(g, p, 0, i + 1);
    CycleAtEnd(g, p[0..i + 1], p[i..j + 1]);
  }

  /** A walk that visits more operations than the graph mentions repeats one of
      them, so a cycle is reachable from its start. */
  lemma LongPathReachesCycle(g: DependencyGraph, p: seq<OpId>)
    requires IsPath(g, p) && |p| > |g.Keys| + 1
    ensures ReachesCycle(g, p[0])
  {
    var s := p[..|p| - 1];
    forall k | 0 <= k < |s|
      ensures s[k] in g.Keys
    {
      PathInGraph(g, p, k);
    }
    Pigeonhole(s, g.Keys);
    var i, j :| 0 <= i < j < |s| && s[i] == s[j];
    RepetitionClosesCycle(g, p, i, j);
  }

  /** With a depth bound beyond the number of operations the graph mentions, the
      recursion fails to complete exactly when a cycle is reachable from the start:
      the fuel bound stands for divergence and for nothing else. */
  lemma CompletesUnlessCycle(g: DependencyGraph, op: OpId, fuel: nat)
    requires fuel > |g.Keys|
    ensures AddIncludingDependencies(g, op, fuel).None? <==> ReachesCycle(g, op)
  {
    if AddIncludingDependencies(g, op, fuel).None? {
      DivergingPath(g, op, fuel);
      var p :| IsPath(g, p) && p[0] == op && |p| == fuel + 1;
      LongPathReachesCycle(g, p);
    }
    if ReachesCycle(g, op) {
      var p, c :| IsCycle(g, c) && IsPath(g, p) && p[0] == op && p[|p| - 1] == c[0];
      ReachingCycleNeverCompletes(g, p, c, fuel);
    }
  }

  /** Dependencies are visited depth first in declared order and nothing is
      de-duplicated: in the diamond 1 → [2, 3], 2 → [4], 3 → [4] the shared
      dependency 4 is added once for each path that reaches it. */
  lemma SharedDependencyAddedOncePerPath(g: DependencyGraph)
    requires g == map[1 := [2, 3], 2 := [4], 3 := [4]]
    ensures AddIncludingDependencies(g, 1, 3) == Some([1, 2, 4, 3, 4])
  {
    assert Dependencies(g, 4) == [];
    assert AddIncludingDependencies(g, 4, 1).value == [4] + [];
    assert AddEach(g, [4], 1).value == [4] + [];
    assert AddIncludingDependencies(g, 2, 2).value == [2] + [4];
    assert AddIncludingDependencies(g, 3, 2).value == [3] + [4];
    assert AddEach(g, [3], 2).value == [3, 4] + [];
    assert AddEach(g, [2, 3], 2).value == [2, 4] + [3, 4];
    assert AddIncludingDependencies(g, 1, 3).value == [1] + [2, 4, 3, 4];
    assert [1] + [2, 4, 3, 4] == [1, 2, 4, 3, 4];
  }

  /** The loop over a concatenation is the loop over each part, one after the other. */
  lemma {:induction false} AddEachAppend(g: DependencyGraph, a: seq<OpId>, b: seq<OpId>, fuel: nat)
    requires AddEach(g, a + b, fuel).Some?
    ensures AddEach(g, a, fuel).Some? && AddEach(g, b, fuel).Some?
    ensures AddEach(g, a + b, fuel).value == AddEach(g, a, fuel).value + AddEach(g, b, fuel).value
    decreases |a|
  {
    if |a| == 0 {
      assert a + b == b;
    } else {
      assert (a + b)[0] == a[0];
      assert (a + b)[1..] == a[1..] + b;
      AddEachAppend(g, a[1..], b, fuel);
    }
  }

  /** The loop adds everything reachable from any of the operations it walks. */
  lemma AddEachAddsReachable(g: DependencyGraph, ops: seq<OpId>, fuel: nat, k: nat, x: OpId)
    requires k < |ops| && AddEach(g, ops, fuel).Some? && Reachable(g, ops[k], x)
    ensures x in AddEach(g, ops, fuel).value
  {
    AddEachContains(g, ops, fuel, k);
    EnqueuedExactlyReachable(g, ops[k], fuel);
  }

  /** Nothing is de-duplicated, on any graph: an operation reachable from two distinct
      dependencies of `op` is added at least twice. */
  lemma SharedDependencyAddedTwice(g: DependencyGraph, op: OpId, fuel: nat, i: nat, j: nat, x: OpId)
    requires i < j < |Dependencies(g, op)|
    requires Reachable(g, Dependencies(g, op)[i], x) && Reachable(g, Dependencies(g, op)[j], x)
    requires AddIncludingDependencies(g, op, fuel).Some?
    ensures multiset(AddIncludingDependencies(g, op, fuel).value)[x] >= 2
  {
    var ops := Dependencies(g, op);
    var front, back := ops[..j], ops[j..];
    assert ops == front + back;
    AddEachAppend(g, front, back, fuel - 1);
    var early := AddEach(g, front, fuel - 1).value;
    var late := AddEach(g, back, fuel - 1).value;
    assert x in early by {
      assert front[i] == ops[i];
      AddEachAddsReachable(g, front, fuel - 1, i, x);
    }
    assert x in late by {
      assert back[0] == ops[j];
      AddEachAddsReachable(g, back, fuel - 1, 0, x);
    }
    var all := AddIncludingDependencies(g, op, fuel).value;
    assert all == [op] + (early + late);
    assert multiset(early + late)[x] >= 2 by {
      assert multiset(early + late) == multiset(early) + multiset(late);
    }
  }

  /** The operation graphs the pipeline builds are acyclic, so enqueuing any of their
      operations with its dependencies completes. */
  lemma WellFormedTasksTerminate(tasks: map<OpId, Task>, op: OpId)
    requires WellFormed(tasks)
    ensures AddIncludingDependencies(GraphOf(tasks), op, op + 1).Some?
  {
    var g := GraphOf(tasks);
    var rank := (x: OpId) => x;
    forall a: OpId, d: OpId | d in Dependencies(g, a)
      ensures rank(d) < rank(a)
    {
      assert a in g && a in tasks;
      var i :| 0 <= i < |tasks[a].dependencies| && tasks[a].dependencies[i] == d;
      assert rank(d) == d && rank(a) == a;
    }
    TerminatesWhenRanked(g, rank, op, op + 1);
  }
}
