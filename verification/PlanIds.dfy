/** Ids generated for replacements: in runs that add each id once, and none containing "_alt_", they never meet an id
    that is in use. */
module PlanIds {
  import opened DependencyGraph
  import opened Plan
  import opened Text

  predicate MarkAt(s: string, i: nat) {
    i + 5 <= |s| && s[i..i + 5] == "_alt_"
  }

  predicate NoMark(s: string) {
    forall i :: 0 <= i <= |s| ==> !MarkAt(s, i)
  }

  /** `y` is generated, directly or through several replans, from `a`: it goes on with the mark and a digit. */
  predicate Branch(a: Id, y: Id) {
    |a| + 5 < |y| && y[..|a|] == a && MarkAt(y, |a|) && IsDigit(y[|a| + 5])
  }

  lemma MarkChars(s: string, i: nat)
    requires MarkAt(s, i)
    ensures s[i] == '_' && s[i + 1] == 'a' && s[i + 2] == 'l' && s[i + 3] == 't' && s[i + 4] == '_'
  {
    var m := s[i..i + 5];
    assert m[0] == s[i] && m[1] == s[i + 1] && m[2] == s[i + 2] && m[3] == s[i + 3] && m[4] == s[i + 4];
  }

  /** The two numerals and the underscore between them, after the mark. */
  function Tail(count: nat, idx: nat): string {
    Decimal(count) + "_" + Decimal(idx + 1)
  }

  lemma AltIdParts(f: Id, count: nat, idx: nat)
    ensures AltId(f, count, idx) == f + "_alt_" + Tail(count, idx)
    ensures Branch(f, AltId(f, count, idx))
    ensures forall i :: 0 <= i < |Tail(count, idx)| ==> Tail(count, idx)[i] != 'a'
  {
    var y := AltId(f, count, idx);
    assert y[|f|..|f| + 5] == "_alt_" && y[|f| + 5] == Decimal(count)[0];
  }

  /** Where an id generated from `f` branches: only at `f` itself and where `f` does. */
  lemma BranchOfAlt(a: Id, f: Id, count: nat, idx: nat)
    requires Branch(a, AltId(f, count, idx))
    ensures a == f || Branch(a, f)
  {
    var y := AltId(f, count, idx);
    AltIdParts(f, count, idx);
    MarkChars(y, |a|);
    assert forall i :: 0 <= i < |f| ==> y[i] == f[i];
    assert y[|f|] == '_' && y[|f| + 1] == 'a' && y[|f| + 2] == 'l' && y[|f| + 3] == 't' && y[|f| + 4] == '_';
    assert forall i :: |f| + 5 <= i < |y| ==> y[i] == Tail(count, idx)[i - |f| - 5];
    if |a| == |f| {
      assert a == y[..|f|] == f;
    } else if |a| < |f| {
      if |a| + 5 < |f| {
        assert f[|a|..|a| + 5] == y[|a|..|a| + 5];
        assert f[..|a|] == y[..|a|];
      }
    }
  }

  lemma PrefixMark(s: string, y: string, i: nat)
    requires s <= y && i + 5 <= |s| && MarkAt(y, i)
    ensures MarkAt(s, i)
  {
    assert s[i..i + 5] == y[i..i + 5];
  }

  lemma ShorterRoot(r: Id, s: Id, y: Id)
    requires Branch(r, y) && Branch(s, y) && NoMark(s) && |r| <= |s|
    ensures r == s
  {
    MarkChars(y, |r|);
    MarkChars(y, |s|);
    if |r| + 5 <= |s| { PrefixMark(s, y, |r|); }
    assert |r| == |s| && r == y[..|r|] && s == y[..|s|];
  }

  /** Every id comes from at most one id without the mark. */
  lemma RootUnique(r: Id, s: Id, y: Id)
    requires NoMark(r) && NoMark(s) && (y == r || Branch(r, y)) && (y == s || Branch(s, y))
    ensures r == s
  {
    if Branch(r, y) && Branch(s, y) {
      if |r| <= |s| { ShorterRoot(r, s, y); } else { ShorterRoot(s, r, y); }
    }
  }

  /** No id of the plan branches from another one, and each comes from an id that was added. */
  ghost predicate Rooted(p: Plan, added: set<Id>) {
    && (forall r :: r in added ==> NoMark(r))
    && (forall a, y :: a in p && y in p ==> !Branch(a, y))
    && (forall y :: y in p ==> exists r :: r in added && (y == r || Branch(r, y)))
  }

  predicate Default(items: seq<Replacement>) {
    forall k :: 0 <= k < |items| ==> items[k].taskId.None? && items[k].dependencies.None?
  }

  /** Replacements without ids of their own are a chain of new tasks, and overwrite none. */
  lemma DefaultsAreFresh(p: Plan, added: set<Id>, f: Id, items: seq<Replacement>)
    requires Rooted(p, added) && f in p && Default(items)
    ensures ChainOf(p, f, items) && OverwritesNoCompleted(p, f, items)
    ensures forall id :: id in NewIds(f, p[f].replanCount + 1, items) ==> id !in p
  {
    var ids := NewIds(f, p[f].replanCount + 1, items);
    DefaultIdsDistinct(f, p[f].replanCount + 1, items);
    forall id | id in ids ensures id !in p {
      var k :| 0 <= k < |ids| && ids[k] == id;
      AltIdParts(f, p[f].replanCount + 1, k);
    }
  }

  /* ---------- runs ---------- */

  /** Tasks are added under ids without the mark that were not added before, and replans generate all their ids. */
  predicate Plain(p: Plan, added: set<Id>, op: Op) {
    match op
    case AddOp(id, _, _) => id in p || (NoMark(id) && id !in added)
    case ReplanOp(_, items) => Default(items)
    case _ => true
  }

  function AddedBy(p: Plan, added: set<Id>, op: Op): set<Id> {
    if op.AddOp? && op.id !in p then added + {op.id} else added
  }

  predicate PlainRun(p: Plan, added: set<Id>, ops: seq<Op>)
    decreases |ops|
  {
    ops == [] || (Plain(p, added, ops[0]) && PlainRun(After(p, ops[0]), AddedBy(p, added, ops[0]), ops[1..]))
  }

  lemma SameIds(p: Plan, q: Plan, added: set<Id>)
    requires Rooted(p, added) && q.Keys <= p.Keys
    ensures Rooted(q, added)
  {
  }

  lemma AddKeepsRooted(p: Plan, added: set<Id>, id: Id, q: Plan)
    requires Rooted(p, added) && NoMark(id) && id !in added && q.Keys == p.Keys + {id}
    ensures Rooted(q, added + {id})
  {
    forall a, y | a in q && y in q ensures !Branch(a, y) {
      if a == id && y in p {
        var r :| r in added && (y == r || Branch(r, y));
        if Branch(id, y) { RootUnique(r, id, y); }
      }
    }
    forall y | y in q ensures exists r :: r in added + {id} && (y == r || Branch(r, y)) {
      if y in p {
        var r :| r in added && (y == r || Branch(r, y));
        assert r in added + {id};
      }
    }
  }

  lemma ReplanKeepsRooted(p: Plan, added: set<Id>, f: Id, items: seq<Replacement>)
    requires Rooted(p, added) && f in p && Default(items)
    ensures Rooted(Replanned(p, f, items), added)
  {
    var count := p[f].replanCount + 1;
    var ids := NewIds(f, count, items);
    var q := Replanned(p, f, items);
    UnrefreshedContents(p, f, items);
    DefaultIdsDistinct(f, count, items);
    forall y | y in q ensures (y in p && y != f) || exists k :: 0 <= k < |items| && y == AltId(f, count, k) {
      if y in ids {
        var k :| 0 <= k < |ids| && ids[k] == y;
        assert y == AltId(f, count, k);
      }
    }
    forall y | y in q ensures exists r :: r in added && (y == r || Branch(r, y)) {
      if y !in p || y == f {
        var k :| 0 <= k < |items| && y == AltId(f, count, k);
        var r :| r in added && (f == r || Branch(r, f));
        AltIdParts(f, count, k);
        if f != r { BranchExtends(r, f, y); }
      }
    }
    forall a, y | a in q && y in q ensures !Branch(a, y) { NewIdsKeepApart(p, added, f, count, items, a, y); }
  }

  /** What branches from an id also branches from the ids that one came from. */
  lemma BranchExtends(a: Id, f: Id, y: Id)
    requires Branch(a, f) && f <= y
    ensures Branch(a, y)
  {
    assert y[..|a|] == f[..|a|] && y[|a|..|a| + 5] == f[|a|..|a| + 5] && y[|a| + 5] == f[|a| + 5];
  }

  /** Where `a` is old or generated from `f`, and so is `y`, neither branches from the other. */
  lemma NewIdsKeepApart(p: Plan, added: set<Id>, f: Id, count: nat, items: seq<Replacement>, a: Id, y: Id)
    requires Rooted(p, added) && f in p
    requires (a in p && a != f) || exists k :: 0 <= k < |items| && a == AltId(f, count, k)
    requires (y in p && y != f) || exists k :: 0 <= k < |items| && y == AltId(f, count, k)
    ensures !Branch(a, y)
  {
    if a in p && a != f {
      if y !in p && Branch(a, y) {
        var k :| 0 <= k < |items| && y == AltId(f, count, k);
        BranchOfAlt(a, f, count, k);
      }
    } else {
      var j :| 0 <= j < |items| && a == AltId(f, count, j);
      AltIdParts(f, count, j);
      if Branch(a, y) {
        assert a <= y;
        BranchExtends(f, a, y);
        if y !in p {
          var k :| 0 <= k < |items| && y == AltId(f, count, k);
          BranchOfAlt(a, f, count, k);
        }
      }
    }
  }

  lemma StepKeepsRooted(p: Plan, added: set<Id>, op: Op)
    requires Rooted(p, added) && Plain(p, added, op)
    ensures Rooted(After(p, op), AddedBy(p, added, op))
  {
    match op
    case AddOp(id, deps, m) =>
      if id !in p {
        if Add(p, id, deps, m).Ok? {
          AddKeepsRooted(p, added, id, After(p, op));
        } else {
          AddKeepsRooted(p, added, id, p[id := Task([], Pending, 0, 0)]);
          SameIds(p[id := Task([], Pending, 0, 0)], p, added + {id});
        }
      }
    case ReplanOp(f, items) =>
      if Replan(p, f, items).Ok? { ReplanKeepsRooted(p, added, f, items); }
    case _ => SameIds(p, After(p, op), added);
  }

  /** Every replan of the run replaces the failed task by a chain under ids that no task of the plan has. */
  ghost predicate ReplansAreFresh(p: Plan, ops: seq<Op>)
    decreases |ops|
  {
    ops != [] ==>
      && (ops[0].ReplanOp? && Replan(p, ops[0].id, ops[0].items).Ok? ==>
            ChainOf(p, ops[0].id, ops[0].items) && OverwritesNoCompleted(p, ops[0].id, ops[0].items))
      && ReplansAreFresh(After(p, ops[0]), ops[1..])
  }

  lemma {:induction false} PlainRunsAreFresh(p: Plan, added: set<Id>, ops: seq<Op>)
    requires Rooted(p, added) && PlainRun(p, added, ops)
    ensures ReplansAreFresh(p, ops)
    decreases |ops|
  {
    if ops != [] {
      if ops[0].ReplanOp? && ops[0].id in p { DefaultsAreFresh(p, added, ops[0].id, ops[0].items); }
      StepKeepsRooted(p, added, ops[0]);
      PlainRunsAreFresh(After(p, ops[0]), AddedBy(p, added, ops[0]), ops[1..]);
    }
  }

  /** In runs from the empty plan that add every id at most once, none containing "_alt_", and generate all ids of
      replacements, each replan is a chain replacement that overwrites nothing. */
  lemma GeneratedIdsAreFresh(ops: seq<Op>)
    requires PlainRun(map[], {}, ops)
    ensures ReplansAreFresh(map[], ops)
  {
    PlainRunsAreFresh(map[], {}, ops);
  }

  /** What is left to the caller of such a run: dependencies are added before their dependents, failures are reported
      for tasks that are neither PENDING nor COMPLETED, and replans bring at least one replacement. */
  predicate Careful(p: Plan, op: Op) {
    match op
    case AddOp(id, deps, _) => id in p || forall d :: d in deps ==> d in p
    case FailOp(id) => id in p ==> !p[id].status.Pending? && !p[id].status.Completed?
    case ReplanOp(_, items) => items != []
    case _ => true
  }

  predicate CarefulRun(p: Plan, ops: seq<Op>)
    decreases |ops|
  {
    ops == [] || (Careful(p, ops[0]) && CarefulRun(After(p, ops[0]), ops[1..]))
  }

  lemma LastIdNotEmpty(p: Plan, f: Id, items: seq<Replacement>)
    requires f in p && Default(items) && items != []
    ensures Rewires(p, f, items)
  {
  }

  lemma {:induction false} CarefulRunsArePlanned(p: Plan, added: set<Id>, ops: seq<Op>)
    requires PlainRun(p, added, ops) && ReplansAreFresh(p, ops) && CarefulRun(p, ops)
    ensures DisciplinedRun(p, ops) && PlannedRun(p, ops)
    decreases |ops|
  {
    if ops != [] {
      if ops[0].ReplanOp? && ops[0].id in p { LastIdNotEmpty(p, ops[0].id, ops[0].items); }
      CarefulRunsArePlanned(After(p, ops[0]), AddedBy(p, added, ops[0]), ops[1..]);
    }
  }

  /** A careful caller of such a run keeps all guarantees: the plans stay sound, closed and acyclic, and never stuck. */
  lemma CarefulRunsSucceed(ops: seq<Op>)
    requires PlainRun(map[], {}, ops) && CarefulRun(map[], ops)
    ensures var p := Run(map[], ops);
            && Sound(p) && Dag(p)
            && (p == map[] || AllCompleted(p)
                || exists id :: id in p && p[id].status in {Ready, Running, NeedsReplan, Escalated})
  {
    GeneratedIdsAreFresh(ops);
    CarefulRunsArePlanned(map[], {}, ops);
    RunKeepsSound(map[], ops);
    EmptyIsDag();
    RunKeepsDag(map[], ops);
    RunNeverDeadlocks(ops);
  }
}
