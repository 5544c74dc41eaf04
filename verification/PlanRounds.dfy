/** Failures and replans of one task: when a failure asks for a replan, and how many rounds a task survives. */
module PlanRounds {
  import opened Wrappers
  import opened DependencyGraph
  import opened Plan
  import opened PlanIds
  import opened Text

  /** Whatever the status of a task, a reported failure makes it wait for a replan if it was replanned less often than
      it allows, and escalates it otherwise; nothing else changes. */
  lemma FailureOutcome(p: Plan, id: Id)
    ensures var q := After(p, FailOp(id));
            && q.Keys == p.Keys
            && (forall x :: x in p && x != id ==> q[x] == p[x])
            && (id in p ==>
                  && q[id].dependencies == p[id].dependencies
                  && q[id].replanCount == p[id].replanCount && q[id].maxReplans == p[id].maxReplans
                  && (p[id].replanCount < p[id].maxReplans ==> q[id].status == NeedsReplan)
                  && (p[id].replanCount >= p[id].maxReplans ==> q[id].status == Escalated))
  {
  }

  /** A new task is PENDING or READY, has its dependencies and its limit, and has not been replanned; it is READY
      exactly if all its dependencies are COMPLETED. A refresh aside, nothing else changes. */
  lemma AddOutcome(p: Plan, id: Id, deps: seq<Id>, m: int)
    ensures var q := After(p, AddOp(id, deps, m));
            && (id in p || id in deps ==> q == p)
            && (id !in p && id !in deps ==>
                  && q.Keys == p.Keys + {id} && q[id].dependencies == deps
                  && q[id].replanCount == 0 && q[id].maxReplans == m
                  && q[id].status
                       == (if forall d :: d in deps ==> d in p && p[d].status.Completed? then Ready else Pending)
                  && forall x :: x in p ==> q[x] == p[x] || q[x] == p[x].(status := Ready))
  {
  }

  /* ---------- rounds ---------- */

  lemma {:induction false} RunAppend(p: Plan, xs: seq<Op>, ys: seq<Op>)
    ensures Run(p, xs + ys) == Run(Run(p, xs), ys)
    decreases |xs|
  {
    if xs == [] {
      assert xs + ys == ys;
    } else {
      assert (xs + ys)[1..] == xs[1..] + ys;
      RunAppend(After(p, xs[0]), xs[1..], ys);
    }
  }

  /** A replacement that leaves everything to the replan. */
  function Anew(): seq<Replacement> {
    [Replacement(None, None)]
  }

  function Attempt(x: Id): seq<Op> {
    [StartOp(x), FailOp(x)]
  }

  function Round(x: Id): seq<Op> {
    [StartOp(x), FailOp(x), ReplanOp(x, Anew())]
  }

  /** The task that stands for `x` after `n` more rounds, when `x` is the result of `c` rounds. */
  function Heir(x: Id, c: nat, n: nat): Id {
    if n == 0 then x else AltId(Heir(x, c, n - 1), c + n, 0)
  }

  function Rounds(x: Id, c: nat, n: nat): seq<Op> {
    if n == 0 then [] else Rounds(x, c, n - 1) + Round(Heir(x, c, n - 1))
  }

  lemma AttemptOutcome(p: Plan, x: Id)
    requires x in p && p[x].status.Ready?
    ensures Run(p, Attempt(x))
            == p[x := p[x].(status := if p[x].replanCount < p[x].maxReplans then NeedsReplan else Escalated)]
  {
    var p1 := After(p, StartOp(x));
    assert p1 == p[x := p[x].(status := Running)];
    FailureOutcome(p1, x);
    var p2 := After(p1, FailOp(x));
    assert p2 == p[x := p2[x]];
    assert Attempt(x)[1..] == [FailOp(x)] && [FailOp(x)][1..] == [];
    assert Run(p2, []) == p2 && Run(p1, [FailOp(x)]) == p2;
  }

  lemma RoundIsAttemptAndReplan(p: Plan, x: Id)
    ensures Run(p, Round(x)) == After(Run(p, Attempt(x)), ReplanOp(x, Anew()))
  {
    var q := Run(p, Attempt(x));
    assert Round(x) == Attempt(x) + [ReplanOp(x, Anew())];
    RunAppend(p, Attempt(x), [ReplanOp(x, Anew())]);
    assert [ReplanOp(x, Anew())][1..] == [];
    assert Run(After(q, ReplanOp(x, Anew())), []) == After(q, ReplanOp(x, Anew()));
  }

  /** A plan of plain runs in which `x` can be tried. */
  ghost predicate CanTry(p: Plan, added: set<Id>, x: Id) {
    Sound(p) && Rooted(p, added) && x in p && p[x].status.Ready?
  }

  lemma NewHeir(p: Plan, x: Id)
    requires x in p
    ensures var (q, y) := (Replanned(p, x, Anew()), AltId(x, p[x].replanCount + 1, 0));
            && y in q && x !in q
            && q[y].replanCount == p[x].replanCount + 1 && q[y].maxReplans == p[x].maxReplans
  {
    var ids := NewIds(x, p[x].replanCount + 1, Anew());
    assert ids[0] == AltId(x, p[x].replanCount + 1, 0) && ids[0] in ids;
    UnrefreshedOne(p, x, Anew(), ids[0]);
    UnrefreshedOne(p, x, Anew(), x);
    DefaultIdsDistinct(x, p[x].replanCount + 1, Anew());
  }

  lemma HeirIsReady(p: Plan, added: set<Id>, x: Id)
    requires Sound(p) && Rooted(p, added) && x in p && p[x].status.NeedsReplan?
    ensures var (q, y) := (Replanned(p, x, Anew()), AltId(x, p[x].replanCount + 1, 0));
            y in q && q[y].status.Ready?
  {
    DefaultsAreFresh(p, added, x, Anew());
    ReplanIsStartable(p, x, Anew(), 0);
    assert NewId(x, p[x].replanCount + 1, Anew(), 0) == AltId(x, p[x].replanCount + 1, 0);
  }

  lemma ReplanKeepsPlain(p: Plan, added: set<Id>, x: Id)
    requires Sound(p) && Rooted(p, added) && x in p && p[x].status.NeedsReplan?
    ensures Sound(Replanned(p, x, Anew())) && Rooted(Replanned(p, x, Anew()), added)
  {
    DefaultsAreFresh(p, added, x, Anew());
    ReplanKeepsSound(p, x, Anew());
    ReplanKeepsRooted(p, added, x, Anew());
  }

  lemma ReplanOpReplans(p: Plan, x: Id)
    requires x in p && p[x].status.NeedsReplan?
    ensures After(p, ReplanOp(x, Anew())) == Replanned(p, x, Anew())
  {
  }

  function Failing(p: Plan, x: Id): Plan
    requires x in p
  {
    p[x := p[x].(status := NeedsReplan)]
  }

  lemma AttemptKeeps(p: Plan, added: set<Id>, x: Id)
    requires CanTry(p, added, x) && p[x].replanCount < p[x].maxReplans
    ensures Sound(Failing(p, x)) && Rooted(Failing(p, x), added)
  {
    StatusChangeKeepsSound(p, x, p[x].(status := NeedsReplan));
    SameIds(p, Failing(p, x), added);
  }

  lemma RoundOutcome(p: Plan, x: Id)
    requires x in p && p[x].status.Ready? && p[x].replanCount < p[x].maxReplans
    ensures Run(p, Round(x)) == Replanned(Failing(p, x), x, Anew())
  {
    AttemptOutcome(p, x);
    RoundIsAttemptAndReplan(p, x);
    ReplanOpReplans(Failing(p, x), x);
  }

  /** `y` carries on for a task with `c` of its `m` replans used. */
  ghost predicate CarriesOn(q: Plan, added: set<Id>, y: Id, c: nat, m: int) {
    CanTry(q, added, y) && q[y].replanCount == c && q[y].maxReplans == m
  }

  lemma HeirCarriesOn(p: Plan, added: set<Id>, x: Id, c: nat, m: int) returns (r: Plan)
    requires Sound(p) && Rooted(p, added) && x in p && p[x].status.NeedsReplan?
    requires p[x].replanCount == c && p[x].maxReplans == m
    ensures r == Replanned(p, x, Anew()) && CarriesOn(r, added, AltId(x, c + 1, 0), c + 1, m)
  {
    r := Replanned(p, x, Anew());
    ReplanKeepsPlain(p, added, x);
    HeirIsReady(p, added, x);
    NewHeir(p, x);
  }

  lemma OneRound(p: Plan, added: set<Id>, x: Id, c: nat, m: int) returns (r: Plan)
    requires CarriesOn(p, added, x, c, m) && c < m
    ensures r == Run(p, Round(x)) && CarriesOn(r, added, AltId(x, c + 1, 0), c + 1, m)
  {
    AttemptKeeps(p, added, x);
    r := HeirCarriesOn(Failing(p, x), added, x, c, m);
    RoundOutcome(p, x);
  }

  lemma {:induction false} ManyRounds(p: Plan, added: set<Id>, x: Id, c: nat, m: int, n: nat) returns (r: Plan)
    requires CarriesOn(p, added, x, c, m) && c + n <= m
    ensures r == Run(p, Rounds(x, c, n)) && CarriesOn(r, added, Heir(x, c, n), c + n, m)
  {
    if n == 0 {
      r := p;
    } else {
      var q := ManyRounds(p, added, x, c, m, n - 1);
      r := OneRound(q, added, Heir(x, c, n - 1), c + n - 1, m);
      RunAppend(p, Rounds(x, c, n - 1), Round(Heir(x, c, n - 1)));
    }
  }

  /** From any plan of a plain run, a READY task survives exactly as many rounds of start, failure and replan as it has
      replans left: after fewer rounds the next failure of its replacement asks for another replan, and after all of
      them it escalates. */
  lemma SurvivesExactly(p: Plan, added: set<Id>, x: Id, n: nat)
    requires CanTry(p, added, x) && p[x].replanCount + n <= p[x].maxReplans
    ensures var y := Heir(x, p[x].replanCount, n);
            var q := Run(p, Rounds(x, p[x].replanCount, n) + Attempt(y));
            y in q && q[y].status == if p[x].replanCount + n < p[x].maxReplans then NeedsReplan else Escalated
  {
    var c := p[x].replanCount;
    var y := Heir(x, c, n);
    var r := ManyRounds(p, added, x, c, p[x].maxReplans, n);
    RunAppend(p, Rounds(x, c, n), Attempt(y));
    AttemptOutcome(r, y);
  }

  /** A task that is added with limit `m` to an empty plan survives exactly `m` rounds. */
  lemma AddedTaskSurvivesExactly(id: Id, m: nat, n: nat)
    requires NoMark(id) && n <= m
    ensures var y := Heir(id, 0, n);
            var q := Run(map[], [AddOp(id, [], m)] + (Rounds(id, 0, n) + Attempt(y)));
            y in q && q[y].status == if n < m then NeedsReplan else Escalated
  {
    var p := After(map[], AddOp(id, [], m));
    AddOutcome(map[], id, [], m);
    StepKeepsSound(map[], AddOp(id, [], m));
    StepKeepsRooted(map[], {}, AddOp(id, [], m));
    assert p == map[id := Task([], Ready, 0, m)];
    var rest := Rounds(id, 0, n) + Attempt(Heir(id, 0, n));
    assert ([AddOp(id, [], m)] + rest)[1..] == rest;
    SurvivesExactly(p, {id}, id, n);
  }
}
