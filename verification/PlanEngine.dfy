/** The plan state machine over task objects that its methods update in place. Loops over the task dictionary whose
    result does not depend on its order visit the tasks in an arbitrary order. */
module PlanEngine {
  import opened Wrappers
  import opened DependencyGraph
  import opened Plan

  class SubTask {
    const taskId: Id
    const maxReplans: int
    var dependencies: seq<Id>
    var status: Status
    var replanCount: nat

    constructor (taskId: Id, dependencies: seq<Id>, replanCount: nat, maxReplans: int)
      ensures this.taskId == taskId && View() == Task(dependencies, Pending, replanCount, maxReplans)
    {
      this.taskId, this.dependencies, this.maxReplans := taskId, dependencies, maxReplans;
      this.status, this.replanCount := Pending, replanCount;
    }

    function View(): Task
      reads this
    {
      Task(dependencies, status, replanCount, maxReplans)
    }
  }

  /** The plan in the middle of a refresh pass. */
  ghost function PartlyRefreshed(was: Plan, todo: set<Id>): Plan {
    map id | id in was :: if id in todo then was[id] else RefreshTask(was, was[id])
  }

  lemma NextRefresh(was: Plan, todo: set<Id>, id: Id)
    requires id in todo && id in was
    ensures var now := PartlyRefreshed(was, todo);
            now[id := RefreshTask(now, now[id])] == PartlyRefreshed(was, todo - {id})
  {
    var now := PartlyRefreshed(was, todo);
    assert DependenciesDone(now, was[id]) == DependenciesDone(was, was[id]);
  }

  /* ---------- the order of the dictionary ---------- */

  /** A key that is stored anew goes to the end; one that is there keeps its place. */
  function Inserted(order: seq<Id>, id: Id): seq<Id> {
    if id in order then order else order + [id]
  }

  function InsertedAll(order: seq<Id>, ids: seq<Id>): seq<Id> {
    if ids == [] then order else Inserted(InsertedAll(order, ids[..|ids| - 1]), ids[|ids| - 1])
  }

  function Without(order: seq<Id>, f: Id): seq<Id> {
    if order == [] then [] else Without(order[..|order| - 1], f) + if order[|order| - 1] == f
      then [] else [order[|order| - 1]]
  }

  /** The READY ones, in the order given. */
  function Picked(order: seq<Id>, p: Plan): seq<Id> {
    if order == [] then []
    else
      var id := order[|order| - 1];
      Picked(order[..|order| - 1], p) + if id in p && p[id].status.Ready? then [id] else []
  }

  lemma NextInserted(order: seq<Id>, ids: seq<Id>, k: nat)
    requires k < |ids|
    ensures ids[..k + 1] == ids[..k] + [ids[k]]
    ensures InsertedAll(order, ids[..k + 1]) == Inserted(InsertedAll(order, ids[..k]), ids[k])
  {
    assert ids[..k + 1][..k] == ids[..k];
  }

  lemma NextPicked(order: seq<Id>, p: Plan, i: nat)
    requires i < |order|
    ensures Picked(order[..i + 1], p)
            == Picked(order[..i], p) + if order[i] in p && p[order[i]].status.Ready? then [order[i]] else []
  {
    assert order[..i + 1][..i] == order[..i];
  }

  lemma {:induction false} WithoutParts(order: seq<Id>, f: Id)
    requires Distinct(order)
    ensures Distinct(Without(order, f)) && forall id :: id in Without(order, f) <==> id in order && id != f
  {
    if order != [] {
      var front, last := order[..|order| - 1], order[|order| - 1];
      WithoutParts(front, f);
      assert order == front + [last];
      forall i | 0 <= i < |Without(front, f)| ensures Without(front, f)[i] != last {
        assert Without(front, f)[i] in front;
      }
    }
  }

  lemma InsertedParts(order: seq<Id>, id: Id)
    requires Distinct(order)
    ensures Distinct(Inserted(order, id)) && forall x :: x in Inserted(order, id) <==> x in order || x == id
  {
  }

  predicate Before(order: seq<Id>, x: Id, y: Id) {
    exists i, j :: 0 <= i < j < |order| && order[i] == x && order[j] == y
  }

  ghost predicate KeepsOrder(part: seq<Id>, order: seq<Id>) {
    forall i, j :: 0 <= i < j < |part| ==> Before(order, part[i], part[j])
  }

  lemma OneMoreKeepsOrder(part: seq<Id>, front: seq<Id>, last: Id)
    requires KeepsOrder(part, front) && forall id :: id in part ==> id in front
    ensures KeepsOrder(part, front + [last]) && KeepsOrder(part + [last], front + [last])
  {
    var order := front + [last];
    forall i, j | 0 <= i < j < |part| ensures Before(order, part[i], part[j]) {
      assert Before(front, part[i], part[j]);
      var a, b :| 0 <= a < b < |front| && front[a] == part[i] && front[b] == part[j];
      assert order[a] == part[i] && order[b] == part[j];
    }
    forall i | 0 <= i < |part| ensures Before(order, part[i], last) {
      assert part[i] in part;
      var a :| 0 <= a < |front| && front[a] == part[i];
      assert order[a] == part[i] && order[|front|] == last;
    }
  }

  /** Each READY task of an order that names every task once is picked once, and keeps its place among them. */
  lemma {:induction false} PickedParts(order: seq<Id>, p: Plan)
    requires Distinct(order)
    ensures Distinct(Picked(order, p)) && KeepsOrder(Picked(order, p), order)
    ensures forall id :: id in Picked(order, p) <==> id in order && id in p && p[id].status.Ready?
  {
    if order != [] {
      var front, last := order[..|order| - 1], order[|order| - 1];
      PickedParts(front, p);
      assert order == front + [last];
      forall i | 0 <= i < |Picked(front, p)| ensures Picked(front, p)[i] != last {
        assert Picked(front, p)[i] in front;
      }
      OneMoreKeepsOrder(Picked(front, p), front, last);
    }
  }

  class PlanStateMachine {
    var tasks: map<Id, SubTask>
    var order: seq<Id>

    /** The order of the dictionary names every task once. */
    ghost predicate Ordered()
      reads this
    {
      Distinct(order) && forall id :: id in order <==> id in tasks
    }

    ghost predicate Valid()
      reads this
    {
      forall id :: id in tasks ==> tasks[id].taskId == id
    }

    ghost function View(): Plan
      reads this, tasks.Values
    {
      map id | id in tasks :: tasks[id].View()
    }

    constructor ()
      ensures Valid() && View() == map[] && Ordered() && order == []
    {
      tasks, order := map[], [];
    }

    method DependenciesCompleted(t: SubTask) returns (satisfied: bool)
      ensures satisfied == DependenciesDone(View(), t.View())
    {
      satisfied := true;
      ghost var p := View();
      for i := 0 to |t.dependencies|
        invariant satisfied && forall d :: d in t.dependencies[..i] ==> d in p && p[d].status.Completed?
      {
        var d := t.dependencies[i];
        assert d in p ==> p[d] == tasks[d].View();
        if d !in tasks || tasks[d].status != Completed {
          satisfied := false;
          break;
        }
      }
    }

    method RefreshOne(id: Id)
      requires Valid() && id in tasks
      modifies tasks.Values
      ensures Valid() && View() == old(View())[id := RefreshTask(old(View()), old(View())[id])]
    {
      var t := tasks[id];
      if t.status == Pending {
        var satisfied := DependenciesCompleted(t);
        if satisfied { t.status := Ready; }
      }
    }

    /** One pass in any order has the effect of refreshing all tasks at once. */
    method RefreshTaskStates()
      requires Valid()
      modifies tasks.Values
      ensures Valid() && View() == Refresh(old(View()))
    {
      ghost var was := View();
      var todo := tasks.Keys;
      while todo != {}
        invariant Valid() && todo <= tasks.Keys
        invariant View() == PartlyRefreshed(was, todo)
      {
        var id :| id in todo;
        NextRefresh(was, todo, id);
        RefreshOne(id);
        todo := todo - {id};
      }
    }

    method AddTask(id: Id, dependencies: seq<Id>, maxReplans: int) returns (r: Result<SubTask, PlanError>)
      requires Valid()
      modifies this, tasks.Values
      ensures Valid() && fresh(tasks.Values - old(tasks.Values))
      ensures match Add(old(View()), id, dependencies, maxReplans)
              case Ok(q) => r.Ok? && id in tasks && r.value == tasks[id] && View() == q
              case Err(e) => r == Err(e) && View() == old(View())
      ensures old(Ordered()) ==> Ordered()
      ensures order == if r.Ok? then old(order) + [id] else old(order)
    {
      if id in tasks { return Err(AlreadyExists); }
      if id in dependencies { return Err(SelfDependency); }
      var task := new SubTask(id, dependencies, 0, maxReplans);
      tasks, order := tasks[id := task], order + [id];
      assert View() == old(View())[id := Task(dependencies, Pending, 0, maxReplans)];
      RefreshTaskStates();
      return Ok(task);
    }

    /** These are the task objects of the ids, in the same order. */
    ghost predicate Objects(found: seq<SubTask>, ids: seq<Id>)
      reads this
    {
      |found| == |ids| && forall i :: 0 <= i < |ids| ==> ids[i] in tasks && found[i] == tasks[ids[i]]
    }

    lemma NextObject(found: seq<SubTask>, ids: seq<Id>, id: Id)
      requires Objects(found, ids) && id in tasks
      ensures Objects(found + [tasks[id]], ids + [id]) && Objects(found, ids + [])
    {
      assert ids + [] == ids;
    }

    method PickReady() returns (ready: seq<SubTask>)
      requires Ordered()
      ensures Objects(ready, Picked(order, View()))
    {
      ready := [];
      ghost var p := View();
      for i := 0 to |order|
        invariant Objects(ready, Picked(order[..i], p))
      {
        var id := order[i];
        NextPicked(order, p, i);
        NextObject(ready, Picked(order[..i], p), id);
        assert p[id] == tasks[id].View();
        if tasks[id].status == Ready { ready := ready + [tasks[id]]; }
      }
      assert order[..|order|] == order;
    }

    /** The READY tasks after a refresh, in the order of the dictionary. */
    method GetReadyTasks() returns (ready: seq<SubTask>)
      requires Valid() && Ordered()
      modifies tasks.Values
      ensures Valid() && Ordered() && View() == Refresh(old(View()))
      ensures Objects(ready, Picked(order, View()))
    {
      RefreshTaskStates();
      ready := PickReady();
    }

    method StartTask(id: Id) returns (r: Result<SubTask, PlanError>)
      requires Valid()
      modifies tasks.Values
      ensures Valid()
      ensures match Start(old(View()), id)
              case Ok(q) => r == Ok(tasks[id]) && View() == q
              case Err(e) => r == Err(e) && View() == old(View())
    {
      if id !in tasks { return Err(NotFound); }
      var task := tasks[id];
      if task.status != Ready { return Err(WrongStatus); }
      task.status := Running;
      assert View() == old(View())[id := old(View())[id].(status := Running)];
      return Ok(task);
    }

    method MarkCompleted(id: Id) returns (r: Result<SubTask, PlanError>)
      requires Valid()
      modifies tasks.Values
      ensures Valid()
      ensures match Complete(old(View()), id)
              case Ok(q) => r == Ok(tasks[id]) && View() == q
              case Err(e) => r == Err(e) && View() == old(View())
    {
      if id !in tasks { return Err(NotFound); }
      var task := tasks[id];
      if task.status != Running && task.status != Ready { return Err(WrongStatus); }
      task.status := Completed;
      assert View() == old(View())[id := old(View())[id].(status := Completed)];
      RefreshTaskStates();
      return Ok(task);
    }

    method MarkFailed(id: Id) returns (r: Result<SubTask, PlanError>)
      requires Valid()
      modifies tasks.Values
      ensures Valid()
      ensures match Fail(old(View()), id)
              case Ok(q) => r == Ok(tasks[id]) && View() == q
              case Err(e) => r == Err(e) && View() == old(View())
    {
      if id !in tasks { return Err(NotFound); }
      var task := tasks[id];
      if task.replanCount < task.maxReplans {
        task.status := NeedsReplan;
      } else {
        task.status := Escalated;
      }
      assert View() == old(View())[id := FailedTask(old(View())[id])];
      return Ok(task);
    }

    /** Points the tasks that depend on `f` and are not new to the last replacement instead. */
    method Rewire(f: Id, ids: seq<Id>)
      requires Valid()
      modifies tasks.Values
      ensures Valid() && View() == Rewired(old(View()), f, ids)
    {
      if |ids| > 0 && ids[|ids| - 1] != "" {
        var last := ids[|ids| - 1];
        var todo := tasks.Keys;
        while todo != {}
          invariant todo <= tasks.Keys
          invariant forall id :: id in tasks ==>
            tasks[id].View() == if id in todo then old(View())[id] else Rewired(old(View()), f, ids)[id]
        {
          var id :| id in todo;
          var t := tasks[id];
          if t.taskId !in ids && f in t.dependencies {
            t.dependencies := Substitute(t.dependencies, f, last);
          }
          todo := todo - {id};
        }
      }
    }

    /** The task object of the replacement at position `k`, whose predecessor has the id `prev`. */
    method NewSubTask(f: Id, failed: SubTask, ghost was: Task, items: seq<Replacement>, k: nat, prev: Option<Id>)
        returns (task: SubTask)
      requires k < |items| && failed.View() == was.(replanCount := was.replanCount + 1)
      requires prev == if k == 0 then None else Some(NewId(f, was.replanCount + 1, items, k - 1))
      ensures fresh(task) && task.taskId == NewId(f, was.replanCount + 1, items, k)
              && task.View() == NewTask(was, f, items, k)
    {
      var item := items[k];
      var newId := if item.taskId.Some? then item.taskId.value else AltId(f, failed.replanCount, k);
      var inherited := if prev.None? then failed.dependencies else [prev.value];
      var deps := if item.dependencies.Some? then item.dependencies.value else inherited;
      task := new SubTask(newId, deps, failed.replanCount, failed.maxReplans);
    }

    /** Stores the replacement at position `k`. */
    method InsertOne(f: Id, failed: SubTask, ghost was: Task, items: seq<Replacement>, k: nat, prev: Option<Id>)
        returns (id: Id)
      requires Valid() && failed !in tasks.Values
      requires k < |items| && failed.View() == was.(replanCount := was.replanCount + 1)
      requires prev == if k == 0 then None else Some(NewId(f, was.replanCount + 1, items, k - 1))
      modifies this
      ensures Valid() && fresh(tasks.Values - old(tasks.Values)) && failed !in tasks.Values
      ensures id == NewId(f, was.replanCount + 1, items, k) && View() == old(View())[id := NewTask(was, f, items, k)]
      ensures order == Inserted(old(order), id) && (old(Ordered()) ==> Ordered())
    {
      var task := NewSubTask(f, failed, was, items, k, prev);
      Store(task.taskId, task);
      id := task.taskId;
    }

    /** Stores the replacements of a task that was already taken out of the dictionary. */
    method InsertReplacements(f: Id, failed: SubTask, ghost was: Task, items: seq<Replacement>)
        returns (newIds: seq<Id>)
      requires Valid() && failed !in tasks.Values
      requires failed.View() == was.(replanCount := was.replanCount + 1)
      modifies this
      ensures Valid() && fresh(tasks.Values - old(tasks.Values))
      ensures newIds == NewIds(f, was.replanCount + 1, items)
      ensures View() == Stored(old(View()), newIds, NewTasks(was, f, items), |items|)
      ensures order == InsertedAll(old(order), newIds) && (old(Ordered()) ==> Ordered())
    {
      ghost var ids, ts := NewIds(f, was.replanCount + 1, items), NewTasks(was, f, items);
      ghost var before, placed := View(), order;
      newIds := [];
      var prev: Option<Id> := None;
      for k := 0 to |items|
        invariant Valid() && fresh(tasks.Values - old(tasks.Values)) && failed !in tasks.Values
        invariant newIds == ids[..k] && prev == if k == 0 then None else Some(ids[k - 1])
        invariant View() == Stored(before, ids, ts, k)
        invariant order == InsertedAll(placed, ids[..k]) && (old(Ordered()) ==> Ordered())
      {
        var id := InsertOne(f, failed, was, items, k, prev);
        NextInserted(placed, ids, k);
        newIds := newIds + [id];
        prev := Some(id);
      }
      assert ids[..|items|] == ids;
    }

    method Store(id: Id, task: SubTask)
      requires Valid() && task.taskId == id
      modifies this
      ensures Valid() && tasks == old(tasks)[id := task] && View() == old(View())[id := task.View()]
      ensures order == Inserted(old(order), id) && (old(Ordered()) ==> Ordered())
    {
      if Distinct(order) { InsertedParts(order, id); }
      tasks, order := tasks[id := task], Inserted(order, id);
    }

    /** Takes the failed task out of the dictionary and counts the replan. */
    method TakeOut(f: Id, failed: SubTask)
      requires Valid() && f in tasks && failed == tasks[f]
      modifies this, failed`replanCount
      ensures Valid() && tasks == old(tasks) - {f} && failed !in tasks.Values
      ensures View() == old(View()) - {f}
      ensures failed.View() == old(View())[f].(replanCount := old(View())[f].replanCount + 1)
      ensures order == Without(old(order), f) && (old(Ordered()) ==> Ordered())
    {
      if Distinct(order) { WithoutParts(order, f); }
      failed.replanCount := failed.replanCount + 1;
      tasks, order := tasks - {f}, Without(order, f);
      assert failed !in tasks.Values;
      assert View() == old(View()) - {f};
    }

    /** The rest of a replan: new tasks, new dependencies, and a refresh. */
    method Replace(f: Id, failed: SubTask, ghost was: Task, items: seq<Replacement>) returns (newIds: seq<Id>)
      requires Valid() && failed !in tasks.Values && failed.View() == was.(replanCount := was.replanCount + 1)
      modifies this, tasks.Values
      ensures Valid() && fresh(tasks.Values - old(tasks.Values)) && newIds == NewIds(f, was.replanCount + 1, items)
      ensures View() == Refresh(Rewired(Stored(old(View()), newIds, NewTasks(was, f, items), |items|), f, newIds))
      ensures order == InsertedAll(old(order), newIds) && (old(Ordered()) ==> Ordered())
    {
      newIds := InsertReplacements(f, failed, was, items);
      Rewire(f, newIds);
      RefreshTaskStates();
    }

    method PartialReplan(f: Id, items: seq<Replacement>) returns (r: Result<seq<Id>, PlanError>)
      requires Valid()
      modifies this, tasks.Values
      ensures Valid() && fresh(tasks.Values - old(tasks.Values))
      ensures match Replan(old(View()), f, items)
              case Ok(q) => r == Ok(NewIds(f, old(View())[f].replanCount + 1, items)) && View() == q
              case Err(e) => r == Err(e) && View() == old(View())
      ensures order == (if r.Ok? then InsertedAll(Without(old(order), f), r.value) else old(order))
      ensures old(Ordered()) ==> Ordered()
    {
      if f !in tasks { return Err(NotFound); }
      var failed := tasks[f];
      if failed.status != NeedsReplan { return Err(WrongStatus); }
      TakeOut(f, failed);
      var newIds := Replace(f, failed, old(View())[f], items);
      return Ok(newIds);
    }

    method IsAllCompleted() returns (b: bool)
      requires Valid()
      ensures b == AllCompleted(View())
    {
      if tasks == map[] { return false; }
      ghost var p := View();
      assert p != map[] by { var id :| id in tasks; assert id in p; }
      assert forall id :: id in tasks ==> p[id] == tasks[id].View();
      return forall id :: id in tasks ==> tasks[id].status == Completed;
    }

    method IsBlocked() returns (b: bool)
      requires Valid()
      ensures b == exists id :: id in View() && View()[id].status.Escalated?
    {
      ghost var p := View();
      assert forall id :: id in tasks ==> p[id] == tasks[id].View();
      return exists id :: id in tasks && tasks[id].status == Escalated;
    }
  }
}
