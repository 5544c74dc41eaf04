/** Which single tasks of a plan can be completed by starting and completing tasks, whatever became of the others. */
module TaskDeadlock {
  import opened DependencyGraph
  import opened Plan
  import opened PlanDeadlock

  ghost predicate Completable(p: Plan, id: Id) {
    exists ops :: StartsAndCompletes(ops) && CompletedAfter(p, ops, id)
  }

  predicate CompletedAfter(p: Plan, ops: seq<Op>, id: Id) {
    var q := Run(p, ops);
    id in q && q[id].status.Completed?
  }

  /** The task itself or one that it depends on through tasks that are not COMPLETED. */
  ghost predicate Needs(p: Plan, id: Id, x: Id) {
    x == id || DependsOn(OpenGraph(p), id, x)
  }

  /** The task exists, and is COMPLETED, or waits or works and does not depend on itself. */
  ghost predicate Doable(p: Plan, x: Id) {
    x in p && (p[x].status.Completed? || (p[x].status in {Pending, Ready, Running} && !DependsOn(OpenGraph(p), x, x)))
  }

  ghost predicate CanComplete(p: Plan, id: Id) {
    forall x :: Needs(p, id, x) ==> Doable(p, x)
  }

  /* ---------- one step ---------- */

  lemma StepKeeps(p: Plan, op: Op)
    requires Sound(p) && (op.StartOp? || op.CompleteOp?)
    ensures var q := After(p, op);
            && Sound(q) && q.Keys == p.Keys && Open(q) <= Open(p)
            && (forall id :: id in p ==> q[id].dependencies == p[id].dependencies)
            && (forall id :: id in Open(p) && id !in Open(q) ==>
                  DependenciesDone(p, p[id]) && p[id].status in {Ready, Running})
            && (forall id :: id in Open(q) ==>
                  (q[id].status in {Pending, Ready, Running} <==> p[id].status in {Pending, Ready, Running}))
  {
    StepKeepsSound(p, op);
  }

  lemma FewerEdges(p: Plan, q: Plan, a: Id, b: Id)
    requires q.Keys == p.Keys && Open(q) <= Open(p) && forall id :: id in p ==> q[id].dependencies == p[id].dependencies
    requires DependsOn(OpenGraph(q), a, b)
    ensures DependsOn(OpenGraph(p), a, b)
  {
    var c :| Path(OpenGraph(q), c) && c[0] == a && c[|c| - 1] == b;
    forall i | 0 <= i < |c| - 1 ensures Edge(OpenGraph(p), c[i], c[i + 1]) {
      assert Edge(OpenGraph(q), c[i], c[i + 1]);
      assert c[i] in Open(q) && c[i] in Open(p);
    }
    assert Path(OpenGraph(p), c);
  }

  lemma InteriorIsSource(g: Graph, c: seq<Id>, i: nat)
    requires Path(g, c) && i < |c| - 1
    ensures c[i] in g
  {
    assert Edge(g, c[i], c[i + 1]);
  }

  /** A dependency that a step removes was on a COMPLETED task. */
  lemma LostDependency(p: Plan, q: Plan, a: Id, b: Id)
    requires q.Keys == p.Keys && Open(q) <= Open(p) && forall id :: id in p ==> q[id].dependencies == p[id].dependencies
    requires forall id :: id in Open(p) && id !in Open(q) ==> DependenciesDone(p, p[id])
    requires DependsOn(OpenGraph(p), a, b)
    ensures DependsOn(OpenGraph(q), a, b) || (b in p && p[b].status.Completed?)
  {
    var c :| Path(OpenGraph(p), c) && c[0] == a && c[|c| - 1] == b;
    if i :| 0 <= i < |c| - 1 && c[i] !in Open(q) {
      assert Edge(OpenGraph(p), c[i], c[i + 1]) && c[i] in Open(p);
      assert c[i + 1] in p && p[c[i + 1]].status.Completed?;
      if i + 1 < |c| - 1 { InteriorIsSource(OpenGraph(p), c, i + 1); }
    } else {
      forall i | 0 <= i < |c| - 1 ensures Edge(OpenGraph(q), c[i], c[i + 1]) {
        assert Edge(OpenGraph(p), c[i], c[i + 1]) && c[i] in Open(q);
      }
      assert Path(OpenGraph(q), c);
    }
  }

  /* ---------- necessary ---------- */

  lemma DoableBefore(p: Plan, op: Op, x: Id)
    requires Sound(p) && (op.StartOp? || op.CompleteOp?) && Doable(After(p, op), x)
    ensures Doable(p, x)
  {
    var q := After(p, op);
    StepKeeps(p, op);
    if DependsOn(OpenGraph(p), x, x) {
      CycleStaysOpen(p, q, x);
      DependsHasSource(OpenGraph(q), x, x);
    }
    if x in Open(q) { assert q[x].status in {Pending, Ready, Running}; } else if x in Open(p) { assert x !in Open(q); }
  }

  lemma {:induction false} CompletedCouldComplete(p: Plan, ops: seq<Op>, id: Id)
    requires Sound(p) && StartsAndCompletes(ops) && CompletedAfter(p, ops, id)
    ensures CanComplete(p, id)
    decreases |ops|
  {
    if ops == [] {
      forall x | Needs(p, id, x) ensures x == id { if x != id { DependsHasSource(OpenGraph(p), id, x); } }
    } else {
      var q := After(p, ops[0]);
      StepKeeps(p, ops[0]);
      CompletedCouldComplete(q, ops[1..], id);
      forall x | Needs(p, id, x) ensures Doable(p, x) {
        if x != id { LostDependency(p, q, id, x); }
        if Needs(q, id, x) { DoableBefore(p, ops[0], x); }
      }
    }
  }

  /* ---------- sufficient ---------- */

  function NeededGraph(p: Plan, s: set<Id>): Graph
    requires s <= Open(p)
  {
    map id | id in s :: p[id].dependencies
  }

  lemma NeededCycle(p: Plan, s: set<Id>, a: Id)
    requires s <= Open(p)
    ensures DependsOn(NeededGraph(p, s), a, a) ==> a in s && DependsOn(OpenGraph(p), a, a)
  {
    if c :| Path(NeededGraph(p, s), c) && c[0] == a && c[|c| - 1] == a {
      forall i | 0 <= i < |c| - 1 ensures Edge(OpenGraph(p), c[i], c[i + 1]) {
        assert Edge(NeededGraph(p, s), c[i], c[i + 1]);
      }
      assert Path(OpenGraph(p), c) && Edge(NeededGraph(p, s), c[0], c[1]);
    }
  }

  lemma NeededIsAcyclic(p: Plan, s: set<Id>)
    requires s <= Open(p) && forall x :: x in s ==> !DependsOn(OpenGraph(p), x, x)
    ensures Acyclic(NeededGraph(p, s))
  {
    forall a ensures !DependsOn(NeededGraph(p, s), a, a) { NeededCycle(p, s, a); }
  }

  lemma NeedsDependency(p: Plan, id: Id, m: Id, d: Id)
    requires Needs(p, id, m) && Edge(OpenGraph(p), m, d)
    ensures Needs(p, id, d)
  {
    EdgeDepends(OpenGraph(p), m, d);
    if m != id { DependsTransitive(OpenGraph(p), id, m, d); }
  }

  /** Some task on the way can be completed now. */
  lemma NextNeeded(p: Plan, id: Id) returns (m: Id)
    requires Sound(p) && CanComplete(p, id) && id in Open(p)
    ensures m in Open(p) && p[m].status in {Ready, Running}
  {
    assert Needs(p, id, id);
    var s := set x | x in Open(p) && Needs(p, id, x);
    forall x | x in s ensures !DependsOn(OpenGraph(p), x, x) { assert Doable(p, x); }
    NeededIsAcyclic(p, s);
    m := MinimalMember(NeededGraph(p, s), s, id);
    forall d | d in p[m].dependencies ensures d in p && p[d].status.Completed? {
      assert Edge(OpenGraph(p), m, d);
      NeedsDependency(p, id, m, d);
      assert Doable(p, d);
      if d in Open(p) { assert Edge(NeededGraph(p, s), m, d) && d in s; }
    }
    assert Doable(p, m) && DependenciesDone(p, p[m]) && TaskSound(p, p[m]);
  }

  lemma CompletionKeepsCanComplete(p: Plan, m: Id, id: Id)
    requires Sound(p) && CanComplete(p, id) && m in Open(p) && p[m].status in {Ready, Running}
    ensures var q := After(p, CompleteOp(m));
            Sound(q) && CanComplete(q, id) && Open(q) < Open(p) && (id in p ==> id in q)
  {
    var q := After(p, CompleteOp(m));
    StepKeeps(p, CompleteOp(m));
    assert m !in Open(q);
    forall x | Needs(q, id, x) ensures Doable(q, x) {
      if x != id { FewerEdges(p, q, id, x); }
      assert Needs(p, id, x) && Doable(p, x);
      if DependsOn(OpenGraph(q), x, x) { FewerEdges(p, q, x, x); DependsHasSource(OpenGraph(q), x, x); }
      if x in Open(q) { assert x in Open(p); }
    }
  }

  lemma {:induction false} CompletingRun(p: Plan, id: Id) returns (ops: seq<Op>)
    requires Sound(p) && CanComplete(p, id)
    ensures StartsAndCompletes(ops) && CompletedAfter(p, ops, id)
    decreases Open(p)
  {
    assert Needs(p, id, id) && Doable(p, id);
    if id in Open(p) {
      var m := NextNeeded(p, id);
      CompletionKeepsCanComplete(p, m, id);
      var rest := CompletingRun(After(p, CompleteOp(m)), id);
      Prepend(p, CompleteOp(m), rest);
      ops := [CompleteOp(m)] + rest;
    } else {
      ops := [];
    }
  }

  /** Some sequence of start and complete calls completes a task of a sound plan if and only if the task and every one
      that it needs exists and is COMPLETED, or is PENDING, READY or RUNNING and does not depend on itself. */
  lemma CompletableIff(p: Plan, id: Id)
    requires Sound(p)
    ensures Completable(p, id) <==> CanComplete(p, id)
  {
    if Completable(p, id) {
      var ops :| StartsAndCompletes(ops) && CompletedAfter(p, ops, id);
      CompletedCouldComplete(p, ops, id);
    }
    if CanComplete(p, id) {
      var ops := CompletingRun(p, id);
    }
  }

  /* ---------- deadlocks of any plan that is not reported ---------- */

  /** The task needs a missing one, or one that depends on itself. */
  ghost predicate Deadlocked(p: Plan, id: Id) {
    exists x :: Needs(p, id, x) && (x !in p || DependsOn(OpenGraph(p), x, x))
  }

  ghost predicate AwaitsReplan(p: Plan, id: Id) {
    exists x :: Needs(p, id, x) && x in p && p[x].status.NeedsReplan?
  }

  /** A task of a sound plan that is not reported as blocked cannot be completed by starting and completing tasks if
      and only if it is deadlocked or waits for a replan. */
  lemma UnreportedDeadlockIff(p: Plan, id: Id)
    requires Sound(p) && !IsBlocked(p)
    ensures !Completable(p, id) <==> Deadlocked(p, id) || AwaitsReplan(p, id)
  {
    CompletableIff(p, id);
    if !CanComplete(p, id) {
      var x :| Needs(p, id, x) && !Doable(p, x);
      if x in p { assert TaskSound(p, p[x]); }
    }
    if x :| Needs(p, id, x) && (x !in p || DependsOn(OpenGraph(p), x, x)) {
      if x in p { DependsHasSource(OpenGraph(p), x, x); }
      assert !Doable(p, x);
    }
    if x :| Needs(p, id, x) && x in p && p[x].status.NeedsReplan? { assert !Doable(p, x); }
  }

  /** A plan with a task that waits for a replan and two others that wait for each other is not reported, and starting
      and completing tasks cannot complete these two, which wait for no replan. */
  lemma DeadlockBesideReplan(id: Id)
    requires id in {"a", "b"}
    ensures var p := Mutual()["c" := Task([], NeedsReplan, 0, 2)];
            Sound(p) && !IsBlocked(p) && !Completable(p, id) && !AwaitsReplan(p, id)
  {
    var p := Mutual()["c" := Task([], NeedsReplan, 0, 2)];
    MutualParts(p);
    UnreportedDeadlockIff(p, id);
    EdgeDepends(OpenGraph(p), "a", "b");
    EdgeDepends(OpenGraph(p), "b", "a");
    DependsTransitive(OpenGraph(p), id, if id == "a" then "b" else "a", id);
    assert Needs(p, id, id) && Deadlocked(p, id);
    forall x | Needs(p, id, x) ensures x in {"a", "b"} {
      if x != id {
        var c :| Path(OpenGraph(p), c) && c[0] == id && c[|c| - 1] == x;
        MutualPath(p, c);
      }
    }
  }

  lemma MutualParts(p: Plan)
    requires p == Mutual()["c" := Task([], NeedsReplan, 0, 2)]
    ensures Sound(p) && !IsBlocked(p)
    ensures forall x, y :: x in {"a", "b"} && Edge(OpenGraph(p), x, y) ==> y in {"a", "b"}
    ensures Edge(OpenGraph(p), "a", "b") && Edge(OpenGraph(p), "b", "a")
  {
    assert "b" in p["a"].dependencies && "a" in p["b"].dependencies;
  }

  lemma {:induction false} MutualPath(p: Plan, c: seq<Id>)
    requires Path(OpenGraph(p), c) && c[0] in {"a", "b"}
    requires forall x, y :: x in {"a", "b"} && Edge(OpenGraph(p), x, y) ==> y in {"a", "b"}
    ensures c[|c| - 1] in {"a", "b"}
    decreases |c|
  {
    assert Edge(OpenGraph(p), c[0], c[1]);
    if |c| > 2 {
      PathTail(OpenGraph(p), c);
      MutualPath(p, c[1..]);
    }
  }
}
