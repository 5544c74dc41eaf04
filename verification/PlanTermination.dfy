/** Every run of start, complete, fail and replan steps on a plan is finite: a weight that is exponential in the
    replans a task has left decreases at each step. */
module PlanTermination {
  import opened Wrappers
  import opened DependencyGraph
  import opened Plan

  /* ---------- totals of finite maps ---------- */

  ghost function Total(w: map<Id, nat>): nat {
    if w == map[] then 0 else var k :| k in w; w[k] + Total(w - {k})
  }

  lemma {:induction false} TotalRemove(w: map<Id, nat>, k: Id)
    requires k in w
    ensures Total(w) == w[k] + Total(w - {k})
    decreases |w|
  {
    var j :| j in w && Total(w) == w[j] + Total(w - {j});
    if j != k {
      TotalRemove(w - {j}, k);
      TotalRemove(w - {k}, j);
      assert w - {j} - {k} == w - {k} - {j};
    }
  }

  lemma TotalUpdate(w: map<Id, nat>, k: Id, v: nat)
    ensures Total(w[k := v]) == v + Total(w - {k})
    ensures Total(w - {k}) <= Total(w)
  {
    TotalRemove(w[k := v], k);
    assert w[k := v] - {k} == w - {k};
    if k in w { TotalRemove(w, k); } else { assert w - {k} == w; }
  }

  /* ---------- the weight ---------- */

  function ReplansLeft(t: Task): nat {
    if t.replanCount < t.maxReplans then t.maxReplans - t.replanCount else 0
  }

  /** The weight of a task that waits for a replan of at most `b` replacements, with `r` replans left. */
  function ReplanWeight(r: nat, b: nat): nat {
    if r == 0 then 0 else b * (ReplanWeight(r - 1, b) + 2) + 1
  }

  function TaskWeight(t: Task, b: nat): nat {
    var w := ReplanWeight(ReplansLeft(t), b);
    match t.status
    case Pending => w + 2
    case Ready => w + 2
    case Running => w + 1
    case NeedsReplan => w
    case _ => 0
  }

  function Weights(p: Plan, b: nat): map<Id, nat> {
    map id | id in p :: TaskWeight(p[id], b)
  }

  ghost function Weight(p: Plan, b: nat): nat {
    Total(Weights(p, b))
  }

  /** A step that succeeds, other than adding a task or only refreshing; a failure is reported for a PENDING,
      READY or RUNNING task, and a replan brings at most `b` replacements. */
  predicate Progress(p: Plan, op: Op, b: nat) {
    && Step(p, op).Ok?
    && match op
       case AddOp(_, _, _) => false
       case RefreshOp => false
       case StartOp(_) => true
       case CompleteOp(_) => true
       case FailOp(id) => id in p && p[id].status in {Pending, Ready, Running}
       case ReplanOp(_, items) => |items| <= b
  }

  lemma SameWeights(p: Plan, q: Plan, b: nat)
    requires p.Keys == q.Keys && forall id :: id in p ==> TaskWeight(p[id], b) == TaskWeight(q[id], b)
    ensures Weight(p, b) == Weight(q, b)
  {
    assert Weights(p, b) == Weights(q, b);
  }

  lemma RefreshKeepsWeight(p: Plan, b: nat)
    ensures Weight(Refresh(p), b) == Weight(p, b)
  {
    SameWeights(Refresh(p), p, b);
  }

  lemma UpdateWeight(p: Plan, id: Id, t: Task, b: nat)
    requires id in p && TaskWeight(t, b) < TaskWeight(p[id], b)
    ensures Weight(p[id := t], b) < Weight(p, b)
  {
    assert Weights(p[id := t], b) == Weights(p, b)[id := TaskWeight(t, b)];
    TotalUpdate(Weights(p, b), id, TaskWeight(t, b));
    TotalRemove(Weights(p, b), id);
  }

  lemma StoreWeight(p: Plan, id: Id, t: Task, b: nat)
    ensures Weight(p[id := t], b) <= Weight(p, b) + TaskWeight(t, b)
  {
    assert Weights(p[id := t], b) == Weights(p, b)[id := TaskWeight(t, b)];
    TotalUpdate(Weights(p, b), id, TaskWeight(t, b));
  }

  lemma {:induction false} StoredWeight(p: Plan, ids: seq<Id>, ts: seq<Task>, k: nat, b: nat, w: nat)
    requires |ids| == |ts| && k <= |ids| && forall j :: 0 <= j < |ts| ==> TaskWeight(ts[j], b) == w
    ensures Weight(Stored(p, ids, ts, k), b) <= Weight(p, b) + k * w
  {
    if k > 0 {
      StoredWeight(p, ids, ts, k - 1, b, w);
      StoreWeight(Stored(p, ids, ts, k - 1), ids[k - 1], ts[k - 1], b);
      OneMore(k, w);
    }
  }

  lemma OneMore(k: nat, w: nat)
    requires k > 0
    ensures (k - 1) * w + w == k * w
  {
  }

  lemma RewireKeepsWeight(p: Plan, f: Id, ids: seq<Id>, b: nat)
    ensures Weight(Rewired(p, f, ids), b) == Weight(p, b)
  {
    SameWeights(Rewired(p, f, ids), p, b);
  }

  lemma ProductBound(n: nat, b: nat, w: nat)
    requires n <= b
    ensures n * w <= b * w
  {
  }

  lemma ReplanDecreasesWeight(p: Plan, f: Id, items: seq<Replacement>, b: nat)
    requires f in p && p[f].status.NeedsReplan? && p[f].replanCount < p[f].maxReplans && |items| <= b
    ensures Weight(Replanned(p, f, items), b) < Weight(p, b)
  {
    var ids, ts := NewIds(f, p[f].replanCount + 1, items), NewTasks(p[f], f, items);
    var w := ReplanWeight(ReplansLeft(p[f]) - 1, b) + 2;
    assert TaskWeight(p[f], b) == b * w + 1;
    forall j | 0 <= j < |ts| ensures TaskWeight(ts[j], b) == w {
      assert ts[j] == NewTask(p[f], f, items, j);
    }
    StoredWeight(p - {f}, ids, ts, |ids|, b, w);
    assert Weights(p - {f}, b) == Weights(p, b) - {f};
    TotalRemove(Weights(p, b), f);
    ProductBound(|items|, b, w);
    RewireKeepsWeight(Stored(p - {f}, ids, ts, |ids|), f, ids, b);
    RefreshKeepsWeight(Unrefreshed(p, f, items), b);
  }

  lemma ProgressDecreasesWeight(p: Plan, op: Op, b: nat)
    requires CountsSound(p) && Progress(p, op, b)
    ensures Weight(After(p, op), b) < Weight(p, b)
  {
    match op
    case StartOp(id) => UpdateWeight(p, id, p[id].(status := Running), b);
    case CompleteOp(id) =>
      UpdateWeight(p, id, p[id].(status := Completed), b);
      RefreshKeepsWeight(p[id := p[id].(status := Completed)], b);
    case FailOp(id) => UpdateWeight(p, id, FailedTask(p[id]), b);
    case ReplanOp(f, items) => ReplanDecreasesWeight(p, f, items, b);
  }

  /** A reported failure decreases the weight if and only if the task was PENDING, READY or RUNNING; for one that waits
      for a replan the report succeeds and changes nothing. */
  lemma FailureDecreasesIff(p: Plan, id: Id, b: nat)
    requires CountsSound(p) && id in p
    ensures Weight(After(p, FailOp(id)), b) < Weight(p, b) <==> p[id].status in {Pending, Ready, Running}
    ensures p[id].status.NeedsReplan? ==> After(p, FailOp(id)) == p
  {
    UpdateWeightIff(p, id, FailedTask(p[id]), b);
    FailedTaskWeight(p[id], b);
  }

  lemma UpdateWeightIff(p: Plan, id: Id, t: Task, b: nat)
    requires id in p
    ensures Weight(p[id := t], b) < Weight(p, b) <==> TaskWeight(t, b) < TaskWeight(p[id], b)
  {
    assert Weights(p[id := t], b) == Weights(p, b)[id := TaskWeight(t, b)];
    TotalUpdate(Weights(p, b), id, TaskWeight(t, b));
    TotalRemove(Weights(p, b), id);
  }

  lemma FailedTaskWeight(t: Task, b: nat)
    requires t.status.NeedsReplan? ==> t.replanCount < t.maxReplans
    ensures TaskWeight(FailedTask(t), b) < TaskWeight(t, b) <==> t.status in {Pending, Ready, Running}
    ensures t.status.NeedsReplan? ==> FailedTask(t) == t
  {
  }

  predicate ProgressRun(p: Plan, ops: seq<Op>, b: nat)
    decreases |ops|
  {
    ops == [] || (Progress(p, ops[0], b) && ProgressRun(After(p, ops[0]), ops[1..], b))
  }

  /** No run takes more steps than the plan's weight, so every run is finite. */
  lemma {:induction false} RunsAreFinite(p: Plan, ops: seq<Op>, b: nat)
    requires CountsSound(p) && ProgressRun(p, ops, b)
    ensures |ops| <= Weight(p, b)
    decreases |ops|
  {
    if ops != [] {
      ProgressDecreasesWeight(p, ops[0], b);
      StepKeepsCounts(p, ops[0]);
      RunsAreFinite(After(p, ops[0]), ops[1..], b);
    }
  }
}
