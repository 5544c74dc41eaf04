/** The sub-task plan as a value: what each operation of the plan state machine does to it,
    and the properties every run keeps. */
module Plan {
  import opened Wrappers
  import opened DependencyGraph
  import opened Text

  datatype Status = Pending | Ready | Running | Completed | Failed | NeedsReplan | Skipped | Escalated

  datatype Task = Task(dependencies: seq<Id>, status: Status, replanCount: nat, maxReplans: int)

  type Plan = map<Id, Task>

  /** One entry of the list handed to a replan; both fields may be missing. */
  datatype Replacement = Replacement(taskId: Option<Id>, dependencies: Option<seq<Id>>)

  datatype PlanError = AlreadyExists | SelfDependency | NotFound | WrongStatus

  /* ---------- the operations ---------- */

  predicate DependenciesDone(p: Plan, t: Task) {
    forall d :: d in t.dependencies ==> d in p && p[d].status.Completed?
  }

  function RefreshTask(p: Plan, t: Task): Task {
    if t.status.Pending? && DependenciesDone(p, t) then t.(status := Ready) else t
  }

  function Refresh(p: Plan): Plan {
    map id | id in p :: RefreshTask(p, p[id])
  }

  function Add(p: Plan, id: Id, deps: seq<Id>, maxReplans: int): Result<Plan, PlanError> {
    if id in p then Err(AlreadyExists)
    else if id in deps then Err(SelfDependency)
    else Ok(Refresh(p[id := Task(deps, Pending, 0, maxReplans)]))
  }

  function Start(p: Plan, id: Id): Result<Plan, PlanError> {
    if id !in p then Err(NotFound)
    else if p[id].status != Ready then Err(WrongStatus)
    else Ok(p[id := p[id].(status := Running)])
  }

  function Complete(p: Plan, id: Id): Result<Plan, PlanError> {
    if id !in p then Err(NotFound)
    else if p[id].status !in {Running, Ready} then Err(WrongStatus)
    else Ok(Refresh(p[id := p[id].(status := Completed)]))
  }

  function FailedTask(t: Task): Task {
    t.(status := if t.replanCount < t.maxReplans then NeedsReplan else Escalated)
  }

  /** The status of the task is not checked. */
  function Fail(p: Plan, id: Id): Result<Plan, PlanError> {
    if id !in p then Err(NotFound) else Ok(p[id := FailedTask(p[id])])
  }

  function AltId(f: Id, count: nat, idx: nat): Id {
    f + "_alt_" + Decimal(count) + "_" + Decimal(idx + 1)
  }

  function NewId(f: Id, count: nat, items: seq<Replacement>, k: nat): Id
    requires k < |items|
  {
    match items[k].taskId case Some(id) => id case None => AltId(f, count, k)
  }

  function NewIds(f: Id, count: nat, items: seq<Replacement>): (ids: seq<Id>)
    ensures |ids| == |items| && forall k :: 0 <= k < |ids| ==> ids[k] == NewId(f, count, items, k)
  {
    seq(|items|, k requires 0 <= k < |items| => NewId(f, count, items, k))
  }

  /** The task a replacement becomes: the first one inherits the dependencies of the failed task, each later
      one depends on its predecessor, unless the entry names its own dependencies. */
  function NewTask(failed: Task, f: Id, items: seq<Replacement>, k: nat): Task
    requires k < |items|
  {
    var deps := match items[k].dependencies
      case Some(d) => d
      case None => if k == 0 then failed.dependencies else [NewId(f, failed.replanCount + 1, items, k - 1)];
    Task(deps, Pending, failed.replanCount + 1, failed.maxReplans)
  }

  function NewTasks(failed: Task, f: Id, items: seq<Replacement>): (ts: seq<Task>)
    ensures |ts| == |items| && forall k :: 0 <= k < |ts| ==> ts[k] == NewTask(failed, f, items, k)
  {
    seq(|items|, k requires 0 <= k < |items| => NewTask(failed, f, items, k))
  }

  /** Stores the first `k` tasks in order; a later one overwrites an earlier one of the same id. */
  function Stored(p: Plan, ids: seq<Id>, ts: seq<Task>, k: nat): Plan
    requires |ids| == |ts| && k <= |ids|
  {
    if k == 0 then p else Stored(p, ids, ts, k - 1)[ids[k - 1] := ts[k - 1]]
  }

  function RewireTask(t: Task, f: Id, last: Id): Task {
    if f in t.dependencies then t.(dependencies := Substitute(t.dependencies, f, last)) else t
  }

  function Rewired(p: Plan, f: Id, ids: seq<Id>): Plan {
    if |ids| == 0 || ids[|ids| - 1] == "" then p
    else map id | id in p :: if id in ids then p[id] else RewireTask(p[id], f, ids[|ids| - 1])
  }

  function Unrefreshed(p: Plan, f: Id, items: seq<Replacement>): Plan
    requires f in p
  {
    var ids := NewIds(f, p[f].replanCount + 1, items);
    Rewired(Stored(p - {f}, ids, NewTasks(p[f], f, items), |ids|), f, ids)
  }

  function Replanned(p: Plan, f: Id, items: seq<Replacement>): Plan
    requires f in p
  {
    Refresh(Unrefreshed(p, f, items))
  }

  function Replan(p: Plan, f: Id, items: seq<Replacement>): Result<Plan, PlanError> {
    if f !in p then Err(NotFound)
    else if p[f].status != NeedsReplan then Err(WrongStatus)
    else Ok(Replanned(p, f, items))
  }

  predicate AllCompleted(p: Plan) {
    p != map[] && forall id :: id in p ==> p[id].status.Completed?
  }

  function ReadyIds(p: Plan): set<Id> {
    set id | id in p && p[id].status.Ready?
  }

  /* ---------- runs ---------- */

  datatype Op =
    | AddOp(id: Id, deps: seq<Id>, maxReplans: int)
    | RefreshOp
    | StartOp(id: Id)
    | CompleteOp(id: Id)
    | FailOp(id: Id)
    | ReplanOp(id: Id, items: seq<Replacement>)

  function Step(p: Plan, op: Op): Result<Plan, PlanError> {
    match op
    case AddOp(id, deps, m) => Add(p, id, deps, m)
    case RefreshOp => Ok(Refresh(p))
    case StartOp(id) => Start(p, id)
    case CompleteOp(id) => Complete(p, id)
    case FailOp(id) => Fail(p, id)
    case ReplanOp(id, items) => Replan(p, id, items)
  }

  /** A call that raises leaves the plan as it was. */
  function After(p: Plan, op: Op): Plan {
    match Step(p, op) case Ok(q) => q case Err(_) => p
  }

  function Run(p: Plan, ops: seq<Op>): Plan
    decreases |ops|
  {
    if ops == [] then p else Run(After(p, ops[0]), ops[1..])
  }

  /* ---------- what replanning inserts ---------- */

  /** What is stored under one id. */
  lemma {:induction false} StoredOne(p: Plan, ids: seq<Id>, ts: seq<Task>, k: nat, id: Id)
    requires |ids| == |ts| && k <= |ids|
    ensures var r := Stored(p, ids, ts, k);
            && (id in r <==> id in p || id in ids[..k])
            && (id in p && id !in ids[..k] ==> r[id] == p[id])
            && (id in ids[..k] ==> id in r && r[id] in ts)
  {
    if k > 0 {
      StoredOne(p, ids, ts, k - 1, id);
      assert ids[..k] == ids[..k - 1] + [ids[k - 1]];
    }
  }

  lemma {:induction false} StoredDistinct(p: Plan, ids: seq<Id>, ts: seq<Task>, k: nat, j: nat)
    requires |ids| == |ts| && j < k <= |ids| && Distinct(ids)
    ensures ids[j] in Stored(p, ids, ts, k) && Stored(p, ids, ts, k)[ids[j]] == ts[j]
  {
    if j < k - 1 { StoredDistinct(p, ids, ts, k - 1, j); }
  }

  /* ---------- the invariant of every reachable plan ---------- */

  ghost predicate TaskSound(p: Plan, t: Task) {
    && t.status !in {Failed, Skipped}
    && (t.status.Pending? <==> !DependenciesDone(p, t))
    && (t.replanCount == 0 || t.replanCount <= t.maxReplans)
    && (t.status.NeedsReplan? ==> t.replanCount < t.maxReplans)
  }

  /** A task is PENDING exactly while one of its dependencies is not COMPLETED, so every READY,
      RUNNING, COMPLETED, NEEDS_REPLAN or ESCALATED task has all its dependencies COMPLETED; and no
      task was replanned more often than it allows. */
  ghost predicate Sound(p: Plan) {
    forall id :: id in p ==> TaskSound(p, p[id])
  }

  /** The replacement ids name no COMPLETED task of the plan. */
  predicate OverwritesNoCompleted(p: Plan, f: Id, items: seq<Replacement>)
    requires f in p
  {
    forall id :: id in NewIds(f, p[f].replanCount + 1, items) && id in p ==> !p[id].status.Completed?
  }

  /** What the caller must respect: a failure is reported for a task that became READY and is not
      COMPLETED (the documentation says RUNNING), and replacements do not reuse the id of a COMPLETED task. */
  predicate Disciplined(p: Plan, op: Op) {
    match op
    case FailOp(id) => id in p ==> !p[id].status.Pending? && !p[id].status.Completed?
    case ReplanOp(id, items) => id in p && p[id].status.NeedsReplan? ==> OverwritesNoCompleted(p, id, items)
    case _ => true
  }

  predicate DisciplinedRun(p: Plan, ops: seq<Op>)
    decreases |ops|
  {
    ops == [] || (Disciplined(p, ops[0]) && DisciplinedRun(After(p, ops[0]), ops[1..]))
  }

  /** One refresh pass over a plan already reaches the fixpoint. */
  lemma RefreshIdempotent(p: Plan)
    ensures Refresh(Refresh(p)) == Refresh(p)
  {
    forall id | id in p ensures Refresh(Refresh(p))[id] == Refresh(p)[id] {
      assert DependenciesDone(Refresh(p), p[id]) == DependenciesDone(p, p[id]);
    }
  }

  /** Between calls of a sound plan there is nothing to refresh. */
  lemma SoundIsRefreshed(p: Plan)
    requires Sound(p)
    ensures Refresh(p) == p
  {
  }

  ghost predicate SoundUpToRefresh(p: Plan) {
    forall id :: id in p ==>
      && p[id].status !in {Failed, Skipped}
      && (!p[id].status.Pending? ==> DependenciesDone(p, p[id]))
      && (p[id].replanCount == 0 || p[id].replanCount <= p[id].maxReplans)
      && (p[id].status.NeedsReplan? ==> p[id].replanCount < p[id].maxReplans)
  }

  lemma RefreshMakesSound(p: Plan)
    requires SoundUpToRefresh(p)
    ensures Sound(Refresh(p))
  {
    forall id | id in p ensures TaskSound(Refresh(p), Refresh(p)[id]) {
      assert DependenciesDone(Refresh(p), p[id]) == DependenciesDone(p, p[id]);
      assert DependenciesDone(Refresh(p), Refresh(p)[id]) == DependenciesDone(Refresh(p), p[id]);
    }
  }

  /** What a replan makes of one id before the final refresh. */
  lemma UnrefreshedOne(p: Plan, f: Id, items: seq<Replacement>, id: Id)
    requires f in p
    ensures var ids := NewIds(f, p[f].replanCount + 1, items);
            var r := Unrefreshed(p, f, items);
            && (id in r <==> (id in p && id != f) || id in ids)
            && (id in r && id !in ids ==>
                 r[id] == if |ids| > 0 && ids[|ids| - 1] != "" then RewireTask(p[id], f, ids[|ids| - 1]) else p[id])
            && (id in ids ==>
                 id in r && r[id] == Task(r[id].dependencies, Pending, p[f].replanCount + 1, p[f].maxReplans))
  {
    var ids, ts := NewIds(f, p[f].replanCount + 1, items), NewTasks(p[f], f, items);
    StoredOne(p - {f}, ids, ts, |ids|, id);
    assert ids[..|ids|] == ids;
  }

  /** What a replan leaves of each old task, and what it makes of the new ones, before the final refresh. */
  lemma UnrefreshedContents(p: Plan, f: Id, items: seq<Replacement>)
    requires f in p
    ensures var ids := NewIds(f, p[f].replanCount + 1, items);
            var r := Unrefreshed(p, f, items);
            && (forall id :: id in r <==> (id in p && id != f) || id in ids)
            && (forall id :: id in r && id !in ids ==>
                 r[id] == if |ids| > 0 && ids[|ids| - 1] != "" then RewireTask(p[id], f, ids[|ids| - 1]) else p[id])
            && (forall id :: id in ids ==>
                 r[id] == Task(r[id].dependencies, Pending, p[f].replanCount + 1, p[f].maxReplans))
  {
    forall id { UnrefreshedOne(p, f, items, id); }
  }

  lemma UnrefreshedChain(p: Plan, f: Id, items: seq<Replacement>, k: nat)
    requires f in p && k < |items| && Distinct(NewIds(f, p[f].replanCount + 1, items))
    ensures var id, r := NewId(f, p[f].replanCount + 1, items, k), Unrefreshed(p, f, items);
            id in r && r[id] == NewTask(p[f], f, items, k)
  {
    var ids, ts := NewIds(f, p[f].replanCount + 1, items), NewTasks(p[f], f, items);
    StoredDistinct(p - {f}, ids, ts, |ids|, k);
    assert ids[k] == NewId(f, p[f].replanCount + 1, items, k) && ids[k] in ids;
  }

  lemma ReplanKeepsSound(p: Plan, f: Id, items: seq<Replacement>)
    requires Sound(p) && f in p && p[f].status.NeedsReplan? && OverwritesNoCompleted(p, f, items)
    ensures Sound(Replanned(p, f, items))
    ensures forall c :: c in p && p[c].status.Completed? ==>
            c in Replanned(p, f, items) && Replanned(p, f, items)[c] == p[c]
  {
    var ids := NewIds(f, p[f].replanCount + 1, items);
    var r := Unrefreshed(p, f, items);
    UnrefreshedContents(p, f, items);
    forall c | c in p && p[c].status.Completed? ensures c in r && r[c] == p[c] {
      assert f !in p[c].dependencies;
    }
    forall id | id in r && !r[id].status.Pending? ensures DependenciesDone(r, r[id]) {
      assert id !in ids;
      assert DependenciesDone(p, p[id]);
    }
    RefreshMakesSound(r);
  }

  /** Every operation of a disciplined caller keeps the plan sound. */
  lemma StepKeepsSound(p: Plan, op: Op)
    requires Sound(p) && Disciplined(p, op)
    ensures Sound(After(p, op))
    ensures forall c :: c in p && p[c].status.Completed? ==> c in After(p, op) && After(p, op)[c] == p[c]
  {
    match op
    case AddOp(id, deps, m) =>
      if Add(p, id, deps, m).Ok? {
        var q := p[id := Task(deps, Pending, 0, m)];
        forall i | i in q && !q[i].status.Pending? ensures DependenciesDone(q, q[i]) {
          assert DependenciesDone(p, p[i]);
        }
        RefreshMakesSound(q);
      }
    case RefreshOp => SoundIsRefreshed(p);
    case StartOp(id) =>
      if Start(p, id).Ok? { StatusChangeKeepsSound(p, id, p[id].(status := Running)); }
    case CompleteOp(id) =>
      if Complete(p, id).Ok? {
        var q := p[id := p[id].(status := Completed)];
        forall i | i in q && !q[i].status.Pending? ensures DependenciesDone(q, q[i]) {
          assert DependenciesDone(p, p[i]);
        }
        RefreshMakesSound(q);
      }
    case FailOp(id) =>
      if Fail(p, id).Ok? { StatusChangeKeepsSound(p, id, FailedTask(p[id])); }
    case ReplanOp(id, items) =>
      if Replan(p, id, items).Ok? { ReplanKeepsSound(p, id, items); }
  }

  /** Moving a task among the statuses that are neither PENDING nor COMPLETED. */
  lemma StatusChangeKeepsSound(p: Plan, id: Id, t: Task)
    requires Sound(p) && id in p && t == p[id].(status := t.status)
    requires p[id].status !in {Pending, Completed} && t.status in {Running, NeedsReplan, Escalated}
    requires t.status.NeedsReplan? ==> t.replanCount < t.maxReplans
    ensures Sound(p[id := t])
  {
    var q := p[id := t];
    forall i | i in q ensures TaskSound(q, q[i]) {
      assert DependenciesDone(q, q[i]) == DependenciesDone(p, p[i]);
    }
  }

  /** Safety over whole runs: every plan reached by a disciplined caller is sound. */
  lemma {:induction false} RunKeepsSound(p: Plan, ops: seq<Op>)
    requires Sound(p) && DisciplinedRun(p, ops)
    ensures Sound(Run(p, ops))
    decreases |ops|
  {
    if ops != [] {
      StepKeepsSound(p, ops[0]);
      RunKeepsSound(After(p, ops[0]), ops[1..]);
    }
  }

  /** Completed work is never lost or changed by any later step, replans included. */
  lemma {:induction false} RunKeepsCompleted(p: Plan, ops: seq<Op>, c: Id)
    requires Sound(p) && DisciplinedRun(p, ops) && c in p && p[c].status.Completed?
    ensures c in Run(p, ops) && Run(p, ops)[c] == p[c]
    decreases |ops|
  {
    if ops != [] {
      StepKeepsSound(p, ops[0]);
      RunKeepsCompleted(After(p, ops[0]), ops[1..], c);
    }
  }

  /** Replan counters: a task is replanned at most as often as it allows, and waits for a replan only if it has
      one left. */
  ghost predicate CountsSound(p: Plan) {
    forall id :: id in p ==>
      && (p[id].replanCount == 0 || p[id].replanCount <= p[id].maxReplans)
      && (p[id].status.NeedsReplan? ==> p[id].replanCount < p[id].maxReplans)
  }

  lemma ReplanKeepsCounts(p: Plan, f: Id, items: seq<Replacement>)
    requires CountsSound(p) && f in p && p[f].status.NeedsReplan?
    ensures CountsSound(Replanned(p, f, items))
  {
    UnrefreshedContents(p, f, items);
    var r := Unrefreshed(p, f, items);
    assert CountsSound(r);
  }

  lemma StepKeepsCounts(p: Plan, op: Op)
    requires CountsSound(p)
    ensures CountsSound(After(p, op))
  {
    if op.ReplanOp? && Replan(p, op.id, op.items).Ok? { ReplanKeepsCounts(p, op.id, op.items); }
  }

  /** In every run of any calls whatsoever no task's replan count exceeds its maximum. */
  lemma {:induction false} RunKeepsCounts(p: Plan, ops: seq<Op>)
    requires CountsSound(p)
    ensures CountsSound(Run(p, ops))
    decreases |ops|
  {
    if ops != [] {
      StepKeepsCounts(p, ops[0]);
      RunKeepsCounts(After(p, ops[0]), ops[1..]);
    }
  }

  /* ---------- exactly when the caller's discipline is needed ---------- */

  /** A reported failure keeps the plan sound if and only if the task is not PENDING, and, when it was
      COMPLETED, all tasks that depend on it are still PENDING. */
  lemma FailKeepsSoundIff(p: Plan, id: Id)
    requires Sound(p) && id in p
    ensures Sound(Fail(p, id).value) <==>
            && !p[id].status.Pending?
            && (p[id].status.Completed? ==> forall d :: d in p && id in p[d].dependencies ==> p[d].status.Pending?)
  {
    var q := Fail(p, id).value;
    forall i | i in q && i != id ensures DependenciesDone(q, q[i]) <==>
      DependenciesDone(p, p[i]) && !(p[id].status.Completed? && id in p[i].dependencies) {
    }
    assert DependenciesDone(q, q[id]) <==> DependenciesDone(p, p[id]) && id !in p[id].dependencies by {
      if id in p[id].dependencies && DependenciesDone(p, p[id]) { assert p[id].status.Completed?; }
    }
    if Sound(q) { assert TaskSound(q, q[id]); }
  }

  /** A replan keeps all COMPLETED tasks as they are if and only if no replacement takes the id of one. */
  lemma ReplanKeepsCompletedIff(p: Plan, f: Id, items: seq<Replacement>)
    requires Sound(p) && f in p && p[f].status.NeedsReplan?
    ensures (forall c :: c in p && p[c].status.Completed? ==>
            c in Replanned(p, f, items) && Replanned(p, f, items)[c] == p[c])
            <==> OverwritesNoCompleted(p, f, items)
  {
    if OverwritesNoCompleted(p, f, items) {
      ReplanKeepsSound(p, f, items);
    } else {
      UnrefreshedContents(p, f, items);
      var c :| c in NewIds(f, p[f].replanCount + 1, items) && c in p && p[c].status.Completed?;
      assert Replanned(p, f, items)[c] != p[c];
    }
  }

  /** The call is neither a failure reported for a COMPLETED task nor a replan that takes the id of one. */
  predicate SparesCompleted(p: Plan, op: Op) {
    match op
    case FailOp(id) => id in p ==> !p[id].status.Completed?
    case ReplanOp(id, items) => id in p && p[id].status.NeedsReplan? ==> OverwritesNoCompleted(p, id, items)
    case _ => true
  }

  ghost predicate KeepsCompleted(p: Plan, q: Plan) {
    forall c :: c in p && p[c].status.Completed? ==> c in q && q[c] == p[c]
  }

  /** The documented promise, call by call: all COMPLETED tasks stay as they are if and only if the call is neither
      of the two. */
  lemma StepKeepsCompletedIff(p: Plan, op: Op)
    requires Sound(p)
    ensures KeepsCompleted(p, After(p, op)) <==> SparesCompleted(p, op)
  {
    match op
    case FailOp(id) =>
      if id in p && p[id].status.Completed? { assert After(p, op)[id] != p[id]; }
    case ReplanOp(f, items) =>
      if f in p && p[f].status.NeedsReplan? { ReplanKeepsCompletedIff(p, f, items); }
    case _ => StepKeepsSound(p, op);
  }

  /** No task that has all its dependencies done and stays in the plan depends on an id that the replan takes. */
  predicate TakesNoDoneDependency(p: Plan, f: Id, items: seq<Replacement>)
    requires f in p
  {
    var ids := NewIds(f, p[f].replanCount + 1, items);
    forall a, d :: a in p && a != f && a !in ids && !p[a].status.Pending? && d in p[a].dependencies ==> d !in ids
  }

  /** A replan keeps the plan sound if and only if every task that depends on an id it takes is PENDING or is itself
      replaced; overwriting a COMPLETED task on which no other such task depends goes unnoticed. */
  lemma ReplanKeepsSoundIff(p: Plan, f: Id, items: seq<Replacement>)
    requires Sound(p) && f in p && p[f].status.NeedsReplan?
    ensures Sound(Replanned(p, f, items)) <==> TakesNoDoneDependency(p, f, items)
  {
    var ids := NewIds(f, p[f].replanCount + 1, items);
    var r := Unrefreshed(p, f, items);
    UnrefreshedContents(p, f, items);
    forall a | a in p && a != f && a !in ids && !p[a].status.Pending?
      ensures r[a] == p[a] && (DependenciesDone(r, r[a]) <==> forall d :: d in p[a].dependencies ==> d !in ids)
    {
      assert f !in p[a].dependencies;
    }
    if TakesNoDoneDependency(p, f, items) {
      RefreshMakesSound(r);
    } else {
      var a, d :| a in p && a != f && a !in ids && !p[a].status.Pending? && d in p[a].dependencies && d in ids;
      NotDoneStaysNotDone(r, a);
    }
  }

  lemma NotDoneStaysNotDone(r: Plan, a: Id)
    requires a in r && !r[a].status.Pending? && !DependenciesDone(r, r[a])
    ensures !Sound(Refresh(r))
  {
    var q := Refresh(r);
    assert q[a] == r[a];
    assert DependenciesDone(q, r[a]) == DependenciesDone(r, r[a]);
    assert !TaskSound(q, q[a]);
  }

  /** The documented promise that completed work is preserved, and two calls that break it: a failure reported
      for a COMPLETED task, and a replacement that takes the id of a COMPLETED task. */
  lemma CompletedWorkCanBeLost()
    ensures var p: Plan := map["a" := Task([], Completed, 0, 2), "b" := Task([], NeedsReplan, 0, 2)];
            && Sound(p)
            && Fail(p, "a").value["a"].status == NeedsReplan
            && "a" in Replanned(p, "b", [Replacement(Some("a"), None)])
            && Replanned(p, "b", [Replacement(Some("a"), None)])["a"].status != Completed
  {
    var p: Plan := map["a" := Task([], Completed, 0, 2), "b" := Task([], NeedsReplan, 0, 2)];
    ReplacedTaskIsNotCompleted(p, "b", [Replacement(Some("a"), None)], 0);
  }

  lemma ReplacedTaskIsNotCompleted(p: Plan, f: Id, items: seq<Replacement>, k: nat)
    requires f in p && k < |items|
    ensures var id := NewId(f, p[f].replanCount + 1, items, k);
            id in Replanned(p, f, items) && Replanned(p, f, items)[id].status in {Pending, Ready}
  {
    var ids := NewIds(f, p[f].replanCount + 1, items);
    assert ids[k] in ids;
    UnrefreshedOne(p, f, items, ids[k]);
  }

  /* ---------- the dependency graph ---------- */

  function Deps(p: Plan): Graph {
    map id | id in p :: p[id].dependencies
  }

  /** Replacements without dependencies of their own, under fresh distinct ids, the last one not the empty string
      (which the rewiring step skips). */
  ghost predicate ChainOf(p: Plan, f: Id, items: seq<Replacement>)
    requires f in p
  {
    var ids := NewIds(f, p[f].replanCount + 1, items);
    && (forall k :: 0 <= k < |items| ==> items[k].dependencies.None?)
    && FreshFor(Deps(p), f, ids)
  }

  predicate Rewires(p: Plan, f: Id, items: seq<Replacement>)
    requires f in p
  {
    |items| > 0 && NewId(f, p[f].replanCount + 1, items, |items| - 1) != ""
  }

  lemma ReplanNewDeps(p: Plan, f: Id, items: seq<Replacement>, k: nat)
    requires f in p && ChainOf(p, f, items) && k < |items|
    ensures var ids := NewIds(f, p[f].replanCount + 1, items);
            var g' := Deps(Replanned(p, f, items));
            ids[k] in g' && g'[ids[k]] == if k == 0 then p[f].dependencies else [ids[k - 1]]
  {
    UnrefreshedChain(p, f, items, k);
  }

  lemma ReplanOldDeps(p: Plan, f: Id, items: seq<Replacement>, a: Id)
    requires f in p && ChainOf(p, f, items) && a in p && a != f
    ensures var ids := NewIds(f, p[f].replanCount + 1, items);
            var g' := Deps(Replanned(p, f, items));
            a in g' && g'[a] == if Rewires(p, f, items) then Substitute(p[a].dependencies, f, ids[|ids| - 1])
              else p[a].dependencies
  {
    var ids := NewIds(f, p[f].replanCount + 1, items);
    UnrefreshedContents(p, f, items);
    var r := Unrefreshed(p, f, items);
    assert a in Deps(p) && a !in ids && a in r;
    assert Refresh(r)[a].dependencies == r[a].dependencies;
    assert |ids| > 0 && f !in p[a].dependencies ==>
      p[a].dependencies == Substitute(p[a].dependencies, f, ids[|ids| - 1]);
  }

  /** The dependencies after a replan, task by task. */
  lemma ReplanDeps(p: Plan, f: Id, items: seq<Replacement>)
    requires f in p && ChainOf(p, f, items)
    ensures var ids := NewIds(f, p[f].replanCount + 1, items);
            var g, g' := Deps(p), Deps(Replanned(p, f, items));
            && (forall id :: id in g' <==> (id in g && id != f) || id in ids)
            && (|ids| > 0 ==> g'[ids[0]] == g[f])
            && (forall k :: 0 < k < |ids| ==> g'[ids[k]] == [ids[k - 1]])
            && (forall a :: a in g && a != f ==>
                 g'[a] == if Rewires(p, f, items) then Substitute(g[a], f, ids[|ids| - 1]) else g[a])
  {
    UnrefreshedContents(p, f, items);
    if |items| > 0 { ReplanNewDeps(p, f, items, 0); }
    var ids := NewIds(f, p[f].replanCount + 1, items);
    forall k | 0 < k < |ids| ensures Deps(Replanned(p, f, items))[ids[k]] == [ids[k - 1]] {
      ReplanNewDeps(p, f, items, k);
    }
    forall a | a in p && a != f { ReplanOldDeps(p, f, items, a); }
  }

  /** Right after a replan the work can go on: the first replacement is READY, and every later one waits for its
      predecessor. */
  lemma ReplanIsStartable(p: Plan, f: Id, items: seq<Replacement>, k: nat)
    requires Sound(p) && f in p && p[f].status.NeedsReplan? && ChainOf(p, f, items) && k < |items|
    ensures var id := NewId(f, p[f].replanCount + 1, items, k);
            id in Replanned(p, f, items) && Replanned(p, f, items)[id].status == if k == 0 then Ready else Pending
  {
    var r := Unrefreshed(p, f, items);
    UnrefreshedChain(p, f, items, k);
    var deps := NewTask(p[f], f, items, k).dependencies;
    if k == 0 {
      forall d | d in deps ensures d in r && r[d].status.Completed? { InheritedIsDone(p, f, items, d); }
    } else {
      UnrefreshedChain(p, f, items, k - 1);
      assert NewId(f, p[f].replanCount + 1, items, k - 1) in deps;
    }
  }

  lemma InheritedIsDone(p: Plan, f: Id, items: seq<Replacement>, d: Id)
    requires Sound(p) && f in p && p[f].status.NeedsReplan? && ChainOf(p, f, items) && d in p[f].dependencies
    ensures d in Unrefreshed(p, f, items) && Unrefreshed(p, f, items)[d].status.Completed?
  {
    assert DependenciesDone(p, p[f]);
    assert d in Deps(p) && d != f;
    UnrefreshedOne(p, f, items, d);
  }

  lemma ReplanReplacesByChain(p: Plan, f: Id, items: seq<Replacement>)
    requires f in p && ChainOf(p, f, items) && Rewires(p, f, items)
    ensures ChainReplaced(Deps(p), f, NewIds(f, p[f].replanCount + 1, items), Deps(Replanned(p, f, items)))
  {
    ReplanDeps(p, f, items);
  }

  /** The graph theorem for a replan: replacing a failed task by a chain keeps a closed acyclic dependency
      graph closed and acyclic, and two surviving tasks depend on each other after exactly when they did before. */
  lemma ReplanKeepsDag(p: Plan, f: Id, items: seq<Replacement>)
    requires f in p && ChainOf(p, f, items) && Rewires(p, f, items)
    requires Closed(Deps(p)) && Acyclic(Deps(p))
    ensures var q := Replanned(p, f, items);
            && Closed(Deps(q)) && Acyclic(Deps(q))
            && forall a, b :: a in p && b in p && a != f && b != f ==>
                 (DependsOn(Deps(q), a, b) <==> DependsOn(Deps(p), a, b))
  {
    if f in p[f].dependencies { EdgeDepends(Deps(p), f, f); }
    ReplanReplacesByChain(p, f, items);
    ChainReplacement(Deps(p), f, NewIds(f, p[f].replanCount + 1, items), Deps(Replanned(p, f, items)));
  }

  /** A replan keeps the graph closed if and only if it rewires the dependents of the failed task, or that task
      has none, or a replacement takes its id. */
  lemma ReplanClosedIff(p: Plan, f: Id, items: seq<Replacement>)
    requires f in p && ChainOf(p, f, items) && Closed(Deps(p)) && Acyclic(Deps(p))
    ensures Closed(Deps(Replanned(p, f, items))) <==>
            || Rewires(p, f, items)
            || (forall a :: a in p ==> f !in p[a].dependencies)
            || f in NewIds(f, p[f].replanCount + 1, items)
  {
    var ids := NewIds(f, p[f].replanCount + 1, items);
    var g, g' := Deps(p), Deps(Replanned(p, f, items));
    if f in p[f].dependencies { EdgeDepends(g, f, f); }
    ReplanDeps(p, f, items);
    if Rewires(p, f, items) {
      ReplanKeepsDag(p, f, items);
    } else {
      forall x, y | Edge(g', x, y) ensures y in g' || (y == f && x in p && f in p[x].dependencies) {
        if x in ids {
          var k :| 0 <= k < |ids| && ids[k] == x;
          if k == 0 { assert Edge(g, f, y); } else { assert g'[ids[k]] == [ids[k - 1]]; }
        } else {
          assert Edge(g, x, y);
        }
      }
      if a :| a in p && f in p[a].dependencies {
        if f !in ids { assert Edge(g', a, f); }
      }
    }
  }

  /** Ids generated for replacements without one are pairwise distinct, not empty, and never the id of the
      failed task. */
  lemma DefaultIdsDistinct(f: Id, count: nat, items: seq<Replacement>)
    requires forall k :: 0 <= k < |items| ==> items[k].taskId.None?
    ensures Distinct(NewIds(f, count, items)) && f !in NewIds(f, count, items) && "" !in NewIds(f, count, items)
  {
    var ids := NewIds(f, count, items);
    var stem := f + "_alt_" + Decimal(count) + "_";
    forall k | 0 <= k < |ids| ensures ids[k] == stem + Decimal(k + 1) && |ids[k]| > |f| { }
    forall i, j | 0 <= i < j < |ids| ensures ids[i] != ids[j] {
      if ids[i] == ids[j] {
        assert ids[i][|stem|..] == Decimal(i + 1) && ids[j][|stem|..] == Decimal(j + 1);
        DecimalUnique(i + 1, j + 1, "", "");
      }
    }
  }

  /** A caller that adds tasks after their dependencies and replaces by chains. */
  ghost predicate Planned(p: Plan, op: Op) {
    match op
    case AddOp(id, deps, _) => id in p || (forall d :: d in deps ==> d in p)
    case ReplanOp(f, items) => f in p && p[f].status.NeedsReplan? ==> ChainOf(p, f, items) && Rewires(p, f, items)
    case _ => true
  }

  ghost predicate PlannedRun(p: Plan, ops: seq<Op>)
    decreases |ops|
  {
    ops == [] || (Planned(p, ops[0]) && PlannedRun(After(p, ops[0]), ops[1..]))
  }

  ghost predicate Dag(p: Plan) {
    Closed(Deps(p)) && Acyclic(Deps(p))
  }

  lemma EmptyIsDag()
    ensures Dag(map[])
  {
    var g := Deps(map[]);
    forall q ensures !Path(g, q) { assert |q| >= 2 ==> !Edge(g, q[0], q[1]); }
  }

  lemma StepKeepsDag(p: Plan, op: Op)
    requires Dag(p) && Planned(p, op)
    ensures Dag(After(p, op))
  {
    match op
    case AddOp(id, deps, m) =>
      if Add(p, id, deps, m).Ok? {
        AddNode(Deps(p), id, deps);
        assert Deps(After(p, op)) == Deps(p)[id := deps];
      }
    case ReplanOp(f, items) =>
      if Replan(p, f, items).Ok? { ReplanKeepsDag(p, f, items); }
    case _ => assert Deps(After(p, op)) == Deps(p);
  }

  /** The empty plan leads only to closed acyclic plans. */
  lemma {:induction false} RunKeepsDag(p: Plan, ops: seq<Op>)
    requires Dag(p) && PlannedRun(p, ops)
    ensures Dag(Run(p, ops))
    decreases |ops|
  {
    if ops != [] {
      StepKeepsDag(p, ops[0]);
      RunKeepsDag(After(p, ops[0]), ops[1..]);
    }
  }

  /* ---------- no deadlock ---------- */

  /** In a closed acyclic non-empty plan with no task RUNNING, NEEDS_REPLAN or ESCALATED, either all tasks are
      COMPLETED or one refresh pass leaves a READY task. */
  lemma NoDeadlock(p: Plan)
    requires Dag(p) && p != map[]
    requires forall id :: id in p ==> p[id].status in {Pending, Ready, Completed}
    ensures AllCompleted(p) || ReadyIds(Refresh(p)) != {}
  {
    var open := set id | id in p && !p[id].status.Completed?;
    if a :| a in open {
      var m := MinimalMember(Deps(p), open, a);
      forall d | d in p[m].dependencies ensures d in p && p[d].status.Completed? {
        assert Edge(Deps(p), m, d);
      }
      assert m in ReadyIds(Refresh(p));
    } else {
      forall id | id in p ensures p[id].status.Completed? { assert id !in open; }
    }
  }

  lemma SoundDagGoesOn(p: Plan)
    requires Sound(p) && Dag(p)
    ensures p == map[] || AllCompleted(p)
            || exists id :: id in p && p[id].status in {Ready, Running, NeedsReplan, Escalated}
  {
    SoundIsRefreshed(p);
    if p != map[] && forall id :: id in p ==> p[id].status in {Pending, Ready, Completed} {
      NoDeadlock(p);
      if id :| id in ReadyIds(p) { assert p[id].status.Ready?; }
    }
  }

  /** Every plan a disciplined and planned run reaches from the empty plan can go on: it is empty or finished, or some
      task is READY, RUNNING, waiting for a replan or escalated. */
  lemma RunNeverDeadlocks(ops: seq<Op>)
    requires DisciplinedRun(map[], ops) && PlannedRun(map[], ops)
    ensures var p := Run(map[], ops);
            p == map[] || AllCompleted(p)
              || exists id :: id in p && p[id].status in {Ready, Running, NeedsReplan, Escalated}
  {
    RunKeepsSound(map[], ops);
    EmptyIsDag();
    RunKeepsDag(map[], ops);
    SoundDagGoesOn(Run(map[], ops));
  }

  /** Adding a task keeps a closed graph closed if and only if all its dependencies already exist. */
  lemma AddClosedIff(p: Plan, id: Id, deps: seq<Id>, m: int)
    requires Closed(Deps(p)) && Add(p, id, deps, m).Ok?
    ensures Closed(Deps(Add(p, id, deps, m).value)) <==> forall d :: d in deps ==> d in p
  {
    var g := Deps(Add(p, id, deps, m).value);
    assert g == Deps(p)[id := deps];
    forall x, y | Edge(g, x, y) ensures x == id || y in p { if x != id { assert Edge(Deps(p), x, y); } }
    if d :| d in deps && d !in p { assert Edge(g, id, d); }
  }
}
