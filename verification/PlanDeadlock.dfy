/** Deadlock: which plans can be finished by starting and completing tasks, and which cannot although no task is
    escalated. */
module PlanDeadlock {
  import opened DependencyGraph
  import opened Plan

  /** No task has failed: every task is PENDING, READY, RUNNING or COMPLETED. */
  predicate NoFailures(p: Plan) {
    forall id :: id in p ==> p[id].status in {Pending, Ready, Running, Completed}
  }

  /** What `is_blocked` reports. */
  predicate IsBlocked(p: Plan) {
    exists id :: id in p && p[id].status.Escalated?
  }

  predicate StartsAndCompletes(ops: seq<Op>) {
    forall i :: 0 <= i < |ops| ==> ops[i].StartOp? || ops[i].CompleteOp?
  }

  ghost predicate Finishable(p: Plan) {
    exists ops :: StartsAndCompletes(ops) && AllCompleted(Run(p, ops))
  }

  function Open(p: Plan): set<Id> {
    set id | id in p && !p[id].status.Completed?
  }

  /** The dependencies of the tasks that are not COMPLETED. */
  function OpenGraph(p: Plan): Graph {
    map id | id in p && !p[id].status.Completed? :: p[id].dependencies
  }

  predicate NothingMissing(p: Plan) {
    forall id, d :: id in p && !p[id].status.Completed? && d in p[id].dependencies ==> d in p
  }

  ghost predicate CanFinish(p: Plan) {
    p != map[] && NothingMissing(p) && Acyclic(OpenGraph(p))
  }

  /* ---------- what starting and completing keep ---------- */

  lemma StepFrame(p: Plan, op: Op)
    requires Sound(p) && NoFailures(p) && (op.StartOp? || op.CompleteOp?)
    ensures var q := After(p, op);
            && Sound(q) && NoFailures(q) && q.Keys == p.Keys
            && (forall id :: id in p ==> q[id].dependencies == p[id].dependencies)
            && Open(q) <= Open(p)
            && (forall id :: id in Open(p) && id !in Open(q) ==> DependenciesDone(p, p[id]))
  {
    StepKeepsSound(p, op);
  }

  /** A cycle among open tasks passes through no task whose dependencies are all COMPLETED. */
  lemma CycleStaysOpen(p: Plan, q: Plan, a: Id)
    requires q.Keys == p.Keys && forall id :: id in p ==> q[id].dependencies == p[id].dependencies
    requires forall id :: id in Open(p) && id !in Open(q) ==> DependenciesDone(p, p[id])
    requires DependsOn(OpenGraph(p), a, a)
    ensures DependsOn(OpenGraph(q), a, a)
  {
    var g, g' := OpenGraph(p), OpenGraph(q);
    var c :| Path(g, c) && c[0] == a && c[|c| - 1] == a;
    forall i | 0 <= i < |c| - 1 ensures Edge(g', c[i], c[i + 1]) {
      assert Edge(g, c[i], c[i + 1]);
      var k := if i + 1 < |c| - 1 then i + 1 else 0;
      assert c[k] == c[i + 1] && Edge(g, c[k], c[k + 1]);
      assert c[i] in Open(p) && c[i + 1] in Open(p);
    }
    assert Path(g', c);
  }

  lemma DependsHasSource(g: Graph, a: Id, b: Id)
    requires DependsOn(g, a, b)
    ensures a in g
  {
    var c :| Path(g, c) && c[0] == a && c[|c| - 1] == b;
    assert Edge(g, c[0], c[1]);
  }

  lemma {:induction false} FinishedCouldFinish(p: Plan, ops: seq<Op>)
    requires Sound(p) && NoFailures(p) && StartsAndCompletes(ops) && AllCompleted(Run(p, ops))
    ensures CanFinish(p)
    decreases |ops|
  {
    if ops == [] {
      forall a | DependsOn(OpenGraph(p), a, a) ensures a in OpenGraph(p) { DependsHasSource(OpenGraph(p), a, a); }
    } else {
      var q := After(p, ops[0]);
      StepFrame(p, ops[0]);
      FinishedCouldFinish(q, ops[1..]);
      forall id, d | id in p && !p[id].status.Completed? && d in p[id].dependencies ensures d in p {
        if id in Open(q) { assert d in q[id].dependencies; } else { assert id in Open(p); }
      }
      forall a | DependsOn(OpenGraph(p), a, a) ensures DependsOn(OpenGraph(q), a, a) { CycleStaysOpen(p, q, a); }
    }
  }

  /* ---------- how to finish ---------- */

  /** A plan that can finish has an open task all of whose dependencies are COMPLETED. */
  lemma NextTask(p: Plan, a: Id) returns (m: Id)
    requires Sound(p) && NoFailures(p) && CanFinish(p) && a in Open(p)
    ensures m in Open(p) && p[m].status in {Ready, Running}
  {
    m := MinimalMember(OpenGraph(p), Open(p), a);
    forall d | d in p[m].dependencies ensures d in p && p[d].status.Completed? {
      assert Edge(OpenGraph(p), m, d);
    }
    assert TaskSound(p, p[m]) && DependenciesDone(p, p[m]);
  }

  lemma SubgraphAcyclic(g: Graph, g': Graph)
    requires Acyclic(g) && forall a, b :: Edge(g', a, b) ==> Edge(g, a, b)
    ensures Acyclic(g')
  {
    forall a | DependsOn(g', a, a) ensures DependsOn(g, a, a) {
      var c :| Path(g', c) && c[0] == a && c[|c| - 1] == a;
      forall i | 0 <= i < |c| - 1 ensures Edge(g, c[i], c[i + 1]) { assert Edge(g', c[i], c[i + 1]); }
      assert Path(g, c);
    }
  }

  lemma CompletionKeepsCanFinish(p: Plan, m: Id)
    requires Sound(p) && NoFailures(p) && CanFinish(p) && m in Open(p) && p[m].status in {Ready, Running}
    ensures var q := After(p, CompleteOp(m));
            Sound(q) && NoFailures(q) && CanFinish(q) && Open(q) < Open(p)
  {
    var q := After(p, CompleteOp(m));
    StepFrame(p, CompleteOp(m));
    assert m !in Open(q);
    forall a, b | Edge(OpenGraph(q), a, b) ensures Edge(OpenGraph(p), a, b) { assert a in Open(q) && a in Open(p); }
    SubgraphAcyclic(OpenGraph(p), OpenGraph(q));
    forall id, d | id in q && !q[id].status.Completed? && d in q[id].dependencies ensures d in q {
      assert id in Open(q) && id in Open(p) && d in p[id].dependencies;
    }
  }

  lemma Prepend(p: Plan, op: Op, rest: seq<Op>)
    requires StartsAndCompletes(rest) && (op.StartOp? || op.CompleteOp?)
    ensures StartsAndCompletes([op] + rest) && Run(p, [op] + rest) == Run(After(p, op), rest)
  {
    assert ([op] + rest)[1..] == rest;
  }

  lemma {:induction false} FinishingRun(p: Plan) returns (ops: seq<Op>)
    requires Sound(p) && NoFailures(p) && CanFinish(p)
    ensures StartsAndCompletes(ops) && AllCompleted(Run(p, ops))
    decreases Open(p)
  {
    if a :| a in Open(p) {
      var m := NextTask(p, a);
      CompletionKeepsCanFinish(p, m);
      var rest := FinishingRun(After(p, CompleteOp(m)));
      Prepend(p, CompleteOp(m), rest);
      ops := [CompleteOp(m)] + rest;
    } else {
      ops := [];
      forall id | id in p ensures p[id].status.Completed? { assert id !in Open(p); }
    }
  }

  /** Some sequence of start and complete calls finishes a plan without failures if and only if the plan is not empty,
      every dependency of a task that is not COMPLETED exists, and no such task depends on itself through such tasks. */
  lemma FinishableIff(p: Plan)
    requires Sound(p) && NoFailures(p)
    ensures Finishable(p) <==> CanFinish(p)
  {
    if Finishable(p) {
      var ops :| StartsAndCompletes(ops) && AllCompleted(Run(p, ops));
      FinishedCouldFinish(p, ops);
    }
    if CanFinish(p) {
      var ops := FinishingRun(p);
    }
  }

  /* ---------- deadlocks that are not reported ---------- */

  /** Work is left, and no start or complete call can succeed. */
  predicate Stuck(p: Plan) {
    p != map[] && !AllCompleted(p) && forall id :: id in p ==> Start(p, id).Err? && Complete(p, id).Err?
  }

  /** A plan without failures is never reported as blocked; yet starting and completing tasks cannot finish it exactly
      if a task that is not COMPLETED names a missing task or such tasks depend on each other in a circle, and every
      plan in which nothing can be started or completed is of this kind. */
  lemma MissedDeadlockIff(p: Plan)
    requires Sound(p) && NoFailures(p) && p != map[]
    ensures !IsBlocked(p)
    ensures !Finishable(p) <==> !NothingMissing(p) || exists a :: DependsOn(OpenGraph(p), a, a)
    ensures Stuck(p) ==> !Finishable(p)
  {
    FinishableIff(p);
    if CanFinish(p) && exists a :: a in Open(p) {
      var a :| a in Open(p);
      var m := NextTask(p, a);
      assert Complete(p, m).Ok?;
    } else if Stuck(p) {
      var a :| a in p && !p[a].status.Completed?;
      assert a in Open(p);
    }
  }

  lemma FinishableBefore(p: Plan, op: Op)
    requires op.StartOp? || op.CompleteOp?
    ensures Finishable(After(p, op)) ==> Finishable(p)
  {
    if Finishable(After(p, op)) {
      var rest :| StartsAndCompletes(rest) && AllCompleted(Run(After(p, op), rest));
      Prepend(p, op, rest);
    }
  }

  /** Doing the work leads into it: a plan that cannot be finished is stuck after some sequence of complete calls. */
  lemma {:induction false} UnfinishableGetsStuck(p: Plan) returns (ops: seq<Op>)
    requires Sound(p) && NoFailures(p) && p != map[] && !Finishable(p)
    ensures StartsAndCompletes(ops) && Stuck(Run(p, ops)) && !IsBlocked(Run(p, ops))
    decreases Open(p)
  {
    if m :| m in p && p[m].status in {Ready, Running} {
      var q := After(p, CompleteOp(m));
      StepFrame(p, CompleteOp(m));
      assert m in Open(p) && m !in Open(q);
      FinishableBefore(p, CompleteOp(m));
      var rest := UnfinishableGetsStuck(q);
      Prepend(p, CompleteOp(m), rest);
      ops := [CompleteOp(m)] + rest;
    } else {
      ops := [];
      if AllCompleted(p) { assert AllCompleted(Run(p, [])) && StartsAndCompletes([]); }
    }
  }

  /** Two tasks that depend on each other. */
  function Mutual(): Plan {
    map["a" := Task(["b"], Pending, 0, 2), "b" := Task(["a"], Pending, 0, 2)]
  }

  lemma MutualIsStuck()
    ensures Sound(Mutual()) && Stuck(Mutual()) && !IsBlocked(Mutual())
  {
    assert "b" in Mutual()["a"].dependencies && "a" in Mutual()["b"].dependencies;
  }

  lemma MutualIsReached()
    ensures Run(map[], [AddOp("a", ["b"], 2), AddOp("b", ["a"], 2)]) == Mutual()
  {
    var p1 := map["a" := Task(["b"], Pending, 0, 2)];
    assert "b" in ["b"] && "a" in ["a"];
    assert After(map[], AddOp("a", ["b"], 2)) == p1;
    assert After(p1, AddOp("b", ["a"], 2)) == Mutual();
    assert Run(p1, [AddOp("b", ["a"], 2)]) == Run(Mutual(), []);
  }

  /** Two added tasks that name each other are stuck at once, and the plan is not reported as blocked. */
  lemma ForwardReferencesCanDeadlock()
    ensures Run(map[], [AddOp("a", ["b"], 2), AddOp("b", ["a"], 2)]) == Mutual()
    ensures Sound(Mutual()) && Stuck(Mutual()) && !IsBlocked(Mutual()) && DependsOn(OpenGraph(Mutual()), "a", "a")
  {
    MutualIsReached();
    MutualIsStuck();
    var p := Mutual();
    assert "b" in p["a"].dependencies && "a" in p["b"].dependencies;
    assert Path(OpenGraph(p), ["a", "b", "a"]);
  }
}
