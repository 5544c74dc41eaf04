/** Replans whose replacements name their own dependencies: exactly when the dependency graph stays closed
    and acyclic. */
module PlanReplacement {
  import opened DependencyGraph
  import opened Plan

  /** `g'` is `g` with node `f` replaced by the nodes `ids`, which depend on `deps`; whoever depended on `f` now
      depends on the last of them. */
  ghost predicate NodesReplaced(g: Graph, f: Id, ids: seq<Id>, deps: seq<seq<Id>>, g': Graph)
    requires f in g && |ids| == |deps| > 0
  {
    && (forall id :: id in g' <==> (id in g && id != f) || id in ids)
    && (forall k :: 0 <= k < |ids| ==> g'[ids[k]] == deps[k])
    && (forall a :: a in g && a != f && a !in ids ==> g'[a] == Substitute(g[a], f, ids[|ids| - 1]))
  }

  /** A node that stays. */
  predicate Stays(g: Graph, f: Id, a: Id) {
    a in g && a != f
  }

  /** One of these dependencies leads back to the replaced node, and so to the last of its replacements. */
  ghost predicate LeadsBack(g: Graph, f: Id, deps: seq<Id>) {
    exists d :: d in deps && Stays(g, f, d) && DependsOn(g, d, f)
  }

  /** What the replacements ask of each other: the dependencies that they name, and the last one for those that name a
      node that depended on the replaced one. */
  ghost function Among(g: Graph, f: Id, ids: seq<Id>, g': Graph): Graph
    requires |ids| > 0 && forall id :: id in ids ==> id in g'
  {
    map id | id in ids :: if LeadsBack(g, f, g'[id]) then g'[id] + [ids[|ids| - 1]] else g'[id]
  }

  ghost predicate Setting(g: Graph, f: Id, ids: seq<Id>, deps: seq<seq<Id>>, g': Graph) {
    && f in g && |ids| == |deps| > 0 && FreshFor(g, f, ids) && NodesReplaced(g, f, ids, deps, g')
    && Closed(g) && Acyclic(g)
  }

  lemma OldEdge(g: Graph, f: Id, ids: seq<Id>, deps: seq<seq<Id>>, g': Graph, a: Id, b: Id)
    requires Setting(g, f, ids, deps, g') && Stays(g, f, a) && Edge(g', a, b)
    ensures (Stays(g, f, b) && Edge(g, a, b)) || (b == ids[|ids| - 1] && Edge(g, a, f))
  {
    var i :| 0 <= i < |g'[a]| && g'[a][i] == b;
    assert a !in ids && Edge(g, a, g[a][i]);
  }

  /** A path of the new graph that starts at a node that stays and ends at a replacement comes to the last replacement,
      and the node depended on the replaced one. */
  lemma {:induction false} OldPath(g: Graph, f: Id, ids: seq<Id>, deps: seq<seq<Id>>, g': Graph, p: seq<Id>)
    requires Setting(g, f, ids, deps, g') && Path(g', p) && Stays(g, f, p[0]) && p[|p| - 1] in ids
    ensures DependsOn(g, p[0], f)
    ensures var last := ids[|ids| - 1];
            p[|p| - 1] == last || DependsOn(Among(g, f, ids, g'), last, p[|p| - 1])
    decreases |p|
  {
    assert Edge(g', p[0], p[1]);
    OldEdge(g, f, ids, deps, g', p[0], p[1]);
    if Edge(g, p[0], f) && p[1] == ids[|ids| - 1] {
      EdgeDepends(g, p[0], f);
      if |p| > 2 {
        PathTail(g', p);
        NewPath(g, f, ids, deps, g', p[1..]);
      }
    } else {
      assert p[1] !in ids;
      PathTail(g', p);
      OldPath(g, f, ids, deps, g', p[1..]);
      EdgeDepends(g, p[0], p[1]);
      DependsTransitive(g, p[0], p[1], f);
    }
  }

  /** A path of the new graph between replacements is one among them. */
  lemma {:induction false} NewPath(g: Graph, f: Id, ids: seq<Id>, deps: seq<seq<Id>>, g': Graph, p: seq<Id>)
    requires Setting(g, f, ids, deps, g') && Path(g', p) && p[0] in ids && p[|p| - 1] in ids
    ensures DependsOn(Among(g, f, ids, g'), p[0], p[|p| - 1])
    decreases |p|
  {
    var h, last, z := Among(g, f, ids, g'), ids[|ids| - 1], p[|p| - 1];
    assert Edge(g', p[0], p[1]);
    if p[1] in ids {
      EdgeDepends(h, p[0], p[1]);
      if |p| > 2 {
        PathTail(g', p);
        NewPath(g, f, ids, deps, g', p[1..]);
        DependsTransitive(h, p[0], p[1], z);
      }
    } else {
      PathTail(g', p);
      assert Edge(g', p[1], p[2]);
      OldPath(g, f, ids, deps, g', p[1..]);
      assert LeadsBack(g, f, g'[p[0]]);
      assert h[p[0]][|g'[p[0]]|] == last;
      EdgeDepends(h, p[0], last);
      if z != last { DependsTransitive(h, p[0], last, z); }
    }
  }

  /** A dependency on the replaced node becomes one on the last replacement. */
  lemma {:induction false} DependsOnLast(g: Graph, f: Id, ids: seq<Id>, deps: seq<seq<Id>>, g': Graph, p: seq<Id>)
    requires Setting(g, f, ids, deps, g') && Path(g, p) && Stays(g, f, p[0]) && p[|p| - 1] == f
    ensures DependsOn(g', p[0], ids[|ids| - 1])
    decreases |p|
  {
    assert Edge(g, p[0], p[1]);
    var i :| 0 <= i < |g[p[0]]| && g[p[0]][i] == p[1];
    assert p[0] !in ids && g'[p[0]][i] == if p[1] == f then ids[|ids| - 1] else p[1];
    if p[1] == f {
      EdgeDepends(g', p[0], ids[|ids| - 1]);
    } else {
      PathTail(g, p);
      EdgeDepends(g', p[0], p[1]);
      DependsOnLast(g, f, ids, deps, g', p[1..]);
      DependsTransitive(g', p[0], p[1], ids[|ids| - 1]);
    }
  }

  lemma AmongEdge(g: Graph, f: Id, ids: seq<Id>, deps: seq<seq<Id>>, g': Graph, a: Id, b: Id)
    requires Setting(g, f, ids, deps, g') && Edge(Among(g, f, ids, g'), a, b)
    ensures DependsOn(g', a, b)
  {
    if b in g'[a] {
      EdgeDepends(g', a, b);
    } else {
      var d :| d in g'[a] && Stays(g, f, d) && DependsOn(g, d, f);
      var p :| Path(g, p) && p[0] == d && p[|p| - 1] == f;
      DependsOnLast(g, f, ids, deps, g', p);
      EdgeDepends(g', a, d);
      DependsTransitive(g', a, d, b);
    }
  }

  /** A cycle through no replacement is an old one. */
  lemma OldCycle(g: Graph, f: Id, ids: seq<Id>, deps: seq<seq<Id>>, g': Graph, p: seq<Id>)
    requires Setting(g, f, ids, deps, g') && Path(g', p) && p[0] == p[|p| - 1]
    requires forall i :: 0 <= i < |p| ==> p[i] !in ids
    ensures DependsOn(g, p[0], p[0])
  {
    forall i | 0 <= i < |p| - 1 ensures Edge(g, p[i], p[i + 1]) {
      assert Edge(g', p[i], p[i + 1]);
      OldEdge(g, f, ids, deps, g', p[i], p[i + 1]);
      assert p[i + 1] !in ids && ids[|ids| - 1] in ids;
    }
    assert Path(g, p);
  }

  lemma Rotate(g: Graph, p: seq<Id>, i: nat) returns (q: seq<Id>)
    requires Path(g, p) && p[0] == p[|p| - 1] && i < |p|
    ensures Path(g, q) && q[0] == p[i] && q[|q| - 1] == p[i]
  {
    if i == 0 || i == |p| - 1 {
      q := p;
    } else {
      q := p[i..] + p[1..i + 1];
      forall j | 0 <= j < |q| - 1 ensures Edge(g, q[j], q[j + 1]) {
        var n := |p| - i;
        if j + 1 < n {
          assert Edge(g, p[i + j], p[i + j + 1]);
        } else {
          assert Edge(g, p[j - n + 1], p[j - n + 2]);
          assert q[j] == if j < n then p[|p| - 1] else p[j - n + 1];
        }
      }
    }
  }

  /** Replacing a node of a closed acyclic graph by nodes with any dependencies keeps it closed if and only if these
      exist afterwards, and acyclic if and only if the replacements do not ask for each other in a circle. */
  lemma ReplacementIff(g: Graph, f: Id, ids: seq<Id>, deps: seq<seq<Id>>, g': Graph)
    requires Setting(g, f, ids, deps, g')
    ensures Closed(g') <==> forall k, d :: 0 <= k < |deps| && d in deps[k] ==> Stays(g, f, d) || d in ids
    ensures Acyclic(g') <==> Acyclic(Among(g, f, ids, g'))
  {
    ReplacementClosed(g, f, ids, deps, g');
    forall a | DependsOn(Among(g, f, ids, g'), a, a) ensures DependsOn(g', a, a) {
      forall x, y | Edge(Among(g, f, ids, g'), x, y) ensures DependsOn(g', x, y) {
        AmongEdge(g, f, ids, deps, g', x, y);
      }
      var p :| Path(Among(g, f, ids, g'), p) && p[0] == a && p[|p| - 1] == a;
      MapDepends(Among(g, f, ids, g'), g', x => x, p);
    }
    forall a | DependsOn(g', a, a) ensures exists b :: DependsOn(Among(g, f, ids, g'), b, b) {
      var p :| Path(g', p) && p[0] == a && p[|p| - 1] == a;
      if i :| 0 <= i < |p| && p[i] in ids {
        var q := Rotate(g', p, i);
        NewPath(g, f, ids, deps, g', q);
      } else {
        OldCycle(g, f, ids, deps, g', p);
      }
    }
  }

  lemma ReplacementClosed(g: Graph, f: Id, ids: seq<Id>, deps: seq<seq<Id>>, g': Graph)
    requires Setting(g, f, ids, deps, g')
    ensures Closed(g') <==> forall k, d :: 0 <= k < |deps| && d in deps[k] ==> Stays(g, f, d) || d in ids
  {
    if Closed(g') {
      forall k, d | 0 <= k < |deps| && d in deps[k] ensures Stays(g, f, d) || d in ids {
        assert ids[k] in ids && Edge(g', ids[k], d);
      }
    }
    if forall k, d :: 0 <= k < |deps| && d in deps[k] ==> Stays(g, f, d) || d in ids {
      forall a, b | Edge(g', a, b) ensures b in g' {
        if a in ids {
          var k :| 0 <= k < |ids| && ids[k] == a;
          assert b in deps[k];
        } else {
          OldEdge(g, f, ids, deps, g', a, b);
          assert ids[|ids| - 1] in ids;
        }
      }
    }
  }

  /* ---------- conditions on the named dependencies ---------- */

  /** A replacement names only earlier replacements, and no node that depended on the replaced one. */
  ghost predicate NamesEarlier(g: Graph, f: Id, ids: seq<Id>, deps: seq<seq<Id>>)
    requires |ids| == |deps|
  {
    forall k :: 0 <= k < |ids| ==>
      !LeadsBack(g, f, deps[k]) && forall d :: d in deps[k] && d in ids ==> exists j :: 0 <= j < k && ids[j] == d
  }

  lemma {:induction false} PathGoesEarlier(g: Graph, f: Id, ids: seq<Id>, deps: seq<seq<Id>>, g': Graph, p: seq<Id>,
      k: nat)
    requires Setting(g, f, ids, deps, g') && NamesEarlier(g, f, ids, deps)
    requires Path(Among(g, f, ids, g'), p) && k < |ids| && p[0] == ids[k] && p[|p| - 1] in ids
    ensures exists j :: 0 <= j < k && ids[j] == p[|p| - 1]
    decreases |p|
  {
    var h := Among(g, f, ids, g');
    assert Edge(h, p[0], p[1]) && h[ids[k]] == deps[k];
    if |p| > 2 {
      PathTail(h, p);
      assert Edge(h, p[1], p[2]);
      var j :| 0 <= j < k && ids[j] == p[1];
      PathGoesEarlier(g, f, ids, deps, g', p[1..], j);
    }
  }

  /** Naming only earlier replacements and nodes that did not depend on the replaced one keeps the graph acyclic. */
  lemma NamingEarlierIsEnough(g: Graph, f: Id, ids: seq<Id>, deps: seq<seq<Id>>, g': Graph)
    requires Setting(g, f, ids, deps, g') && NamesEarlier(g, f, ids, deps)
    ensures Acyclic(g')
  {
    var h := Among(g, f, ids, g');
    forall a | DependsOn(h, a, a) ensures exists j, k :: 0 <= j < k < |ids| && ids[j] == ids[k] {
      var p :| Path(h, p) && p[0] == a && p[|p| - 1] == a;
      assert Edge(h, p[0], p[1]);
      var k :| 0 <= k < |ids| && ids[k] == a;
      PathGoesEarlier(g, f, ids, deps, g', p, k);
    }
    ReplacementIff(g, f, ids, deps, g');
  }

  /** If the last replacement names a node that depended on the replaced one, the graph gets a cycle. */
  lemma NamingDependentClosesCycle(g: Graph, f: Id, ids: seq<Id>, deps: seq<seq<Id>>, g': Graph)
    requires Setting(g, f, ids, deps, g') && LeadsBack(g, f, deps[|deps| - 1])
    ensures !Acyclic(g')
  {
    var last, h := ids[|ids| - 1], Among(g, f, ids, g');
    assert g'[last] == deps[|deps| - 1];
    assert h[last][|g'[last]|] == last;
    EdgeDepends(h, last, last);
    ReplacementIff(g, f, ids, deps, g');
  }

  /* ---------- replans ---------- */

  function NewDeps(p: Plan, f: Id, items: seq<Replacement>): (deps: seq<seq<Id>>)
    requires f in p
    ensures |deps| == |items|
    ensures forall k :: 0 <= k < |deps| ==> deps[k] == NewTask(p[f], f, items, k).dependencies
  {
    seq(|items|, k requires 0 <= k < |items| => NewTask(p[f], f, items, k).dependencies)
  }

  lemma ReplanReplacesNodes(p: Plan, f: Id, items: seq<Replacement>)
    requires f in p && FreshFor(Deps(p), f, NewIds(f, p[f].replanCount + 1, items)) && Rewires(p, f, items)
    ensures NodesReplaced(Deps(p), f, NewIds(f, p[f].replanCount + 1, items), NewDeps(p, f, items),
            Deps(Replanned(p, f, items)))
  {
    var ids := NewIds(f, p[f].replanCount + 1, items);
    var g, g' := Deps(p), Deps(Replanned(p, f, items));
    forall id ensures id in g' <==> (id in g && id != f) || id in ids { UnrefreshedOne(p, f, items, id); }
    forall k | 0 <= k < |ids| ensures g'[ids[k]] == NewDeps(p, f, items)[k] { UnrefreshedChain(p, f, items, k); }
    forall a | a in g && a != f && a !in ids ensures g'[a] == Substitute(g[a], f, ids[|ids| - 1]) {
      OldTaskRewired(p, f, items, a);
    }
  }

  lemma OldTaskRewired(p: Plan, f: Id, items: seq<Replacement>, a: Id)
    requires f in p && Rewires(p, f, items) && a in p && a != f && a !in NewIds(f, p[f].replanCount + 1, items)
    ensures var ids := NewIds(f, p[f].replanCount + 1, items);
            var q := Replanned(p, f, items);
            a in q && q[a].dependencies == Substitute(p[a].dependencies, f, ids[|ids| - 1])
  {
    var ids := NewIds(f, p[f].replanCount + 1, items);
    UnrefreshedOne(p, f, items, a);
    assert f !in p[a].dependencies ==> p[a].dependencies == Substitute(p[a].dependencies, f, ids[|ids| - 1]);
  }

  /** A replan of a closed acyclic plan with any dependencies, under fresh distinct ids of which the last is not empty,
      keeps the graph closed if and only if every named dependency exists afterwards, and acyclic if and only if the
      replacements do not ask for each other in a circle. */
  lemma ReplanKeepsDagIff(p: Plan, f: Id, items: seq<Replacement>)
    requires f in p && FreshFor(Deps(p), f, NewIds(f, p[f].replanCount + 1, items)) && Rewires(p, f, items) && Dag(p)
    ensures var ids, deps := NewIds(f, p[f].replanCount + 1, items), NewDeps(p, f, items);
            var g, g' := Deps(p), Deps(Replanned(p, f, items));
            && Setting(g, f, ids, deps, g')
            && (Closed(g') <==> forall k, d :: 0 <= k < |deps| && d in deps[k] ==> Stays(g, f, d) || d in ids)
            && (Acyclic(g') <==> Acyclic(Among(g, f, ids, g')))
            && (NamesEarlier(g, f, ids, deps) ==> Acyclic(g'))
            && (LeadsBack(g, f, deps[|deps| - 1]) ==> !Acyclic(g'))
  {
    var ids, deps := NewIds(f, p[f].replanCount + 1, items), NewDeps(p, f, items);
    var g, g' := Deps(p), Deps(Replanned(p, f, items));
    ReplanReplacesNodes(p, f, items);
    ReplacementIff(g, f, ids, deps, g');
    if NamesEarlier(g, f, ids, deps) { NamingEarlierIsEnough(g, f, ids, deps, g'); }
    if LeadsBack(g, f, deps[|deps| - 1]) { NamingDependentClosesCycle(g, f, ids, deps, g'); }
  }
}
