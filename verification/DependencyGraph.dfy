/** Dependency graphs: paths, transitive dependency, and the replacement of one node by a chain. */
module DependencyGraph {

  type Id = string

  // A node is mapped to the ids it depends on.
  type Graph = map<Id, seq<Id>>

  ghost predicate Edge(g: Graph, a: Id, b: Id) {
    a in g && b in g[a]
  }

  ghost predicate Path(g: Graph, p: seq<Id>) {
    |p| >= 2 && forall i :: 0 <= i < |p| - 1 ==> Edge(g, p[i], p[i + 1])
  }

  /** `a` transitively depends on `b`: there is a non-empty path from `a` to `b`. */
  ghost predicate DependsOn(g: Graph, a: Id, b: Id) {
    exists p :: Path(g, p) && p[0] == a && p[|p| - 1] == b
  }

  ghost predicate Closed(g: Graph) {
    forall a, b :: Edge(g, a, b) ==> b in g
  }

  ghost predicate Acyclic(g: Graph) {
    forall a :: !DependsOn(g, a, a)
  }

  lemma EdgeDepends(g: Graph, a: Id, b: Id)
    requires Edge(g, a, b)
    ensures DependsOn(g, a, b)
  {
    assert Path(g, [a, b]);
  }

  lemma DependsTransitive(g: Graph, a: Id, b: Id, c: Id)
    requires DependsOn(g, a, b) && DependsOn(g, b, c)
    ensures DependsOn(g, a, c)
  {
    var p :| Path(g, p) && p[0] == a && p[|p| - 1] == b;
    var q :| Path(g, q) && q[0] == b && q[|q| - 1] == c;
    var r := p + q[1..];
    forall i | 0 <= i < |r| - 1 ensures Edge(g, r[i], r[i + 1]) {
      if i >= |p| - 1 { assert r[i] == q[i - |p| + 1] && r[i + 1] == q[i - |p| + 2]; }
    }
    assert Path(g, r);
  }

  /** The tail of a path of at least three nodes is a path. */
  lemma PathTail(g: Graph, p: seq<Id>)
    requires Path(g, p) && |p| >= 3
    ensures Path(g, p[1..]) && Edge(g, p[0], p[1])
  {
    var q := p[1..];
    forall i | 0 <= i < |q| - 1 ensures Edge(g, q[i], q[i + 1]) {
      assert q[i] == p[i + 1] && q[i + 1] == p[i + 2];
    }
  }

  /** A map of nodes that turns edges into dependencies turns dependencies into dependencies. */
  lemma MapDepends(g: Graph, g': Graph, m: Id -> Id, p: seq<Id>)
    requires Path(g, p)
    requires forall x, y :: Edge(g, x, y) ==> DependsOn(g', m(x), m(y))
    ensures DependsOn(g', m(p[0]), m(p[|p| - 1]))
    decreases |p|
  {
    assert Edge(g, p[0], p[1]);
    if |p| > 2 {
      PathTail(g, p);
      MapDepends(g, g', m, p[1..]);
      DependsTransitive(g', m(p[0]), m(p[1]), m(p[|p| - 1]));
    }
  }

  ghost function Below(g: Graph, a: Id): set<Id> {
    set b | b in g && DependsOn(g, a, b)
  }

  /** Every non-empty set of nodes of an acyclic graph has a member that depends on no other member. */
  lemma MinimalMember(g: Graph, s: set<Id>, a: Id) returns (m: Id)
    requires Acyclic(g) && s <= g.Keys && a in s
    ensures m in s && forall b :: b in s ==> !Edge(g, m, b)
    decreases Below(g, a)
  {
    if b :| b in s && Edge(g, a, b) {
      EdgeDepends(g, a, b);
      forall c | c in Below(g, b) ensures c in Below(g, a) { DependsTransitive(g, a, b, c); }
      assert b in Below(g, a) && b !in Below(g, b);
      m := MinimalMember(g, s, b);
    } else {
      m := a;
    }
  }

  /* ---------- adding a node ---------- */

  /** A new node whose dependencies already exist keeps the graph closed and acyclic. */
  lemma AddNode(g: Graph, id: Id, deps: seq<Id>)
    requires Closed(g) && Acyclic(g) && id !in g
    requires forall d :: d in deps ==> d in g
    ensures Closed(g[id := deps]) && Acyclic(g[id := deps])
  {
    var g' := g[id := deps];
    forall x, y | Edge(g', x, y) ensures y in g && (x != id ==> Edge(g, x, y)) {
      if x != id { assert Edge(g, x, y); }
    }
    forall a | DependsOn(g', a, a) ensures DependsOn(g, a, a) {
      var p :| Path(g', p) && p[0] == a && p[|p| - 1] == a;
      forall i | 0 <= i < |p| - 1 ensures Edge(g, p[i], p[i + 1]) {
        // a cycle enters each of its nodes, and no edge enters the new one
        var j := if i > 0 then i - 1 else |p| - 2;
        assert Edge(g', p[j], p[j + 1]) && p[j + 1] == p[i];
        assert Edge(g', p[i], p[i + 1]);
      }
      assert Path(g, p);
    }
  }

  /* ---------- replacing a node by a chain ---------- */

  function Substitute(deps: seq<Id>, f: Id, last: Id): (r: seq<Id>)
    ensures |r| == |deps|
    ensures forall i :: 0 <= i < |deps| ==> r[i] == if deps[i] == f then last else deps[i]
  {
    seq(|deps|, i requires 0 <= i < |deps| => if deps[i] == f then last else deps[i])
  }

  ghost predicate Distinct(ids: seq<Id>) {
    forall i, j :: 0 <= i < j < |ids| ==> ids[i] != ids[j]
  }

  /** The ids are pairwise distinct and name no node of `g` other than possibly `f` itself. */
  ghost predicate FreshFor(g: Graph, f: Id, ids: seq<Id>) {
    Distinct(ids) && forall k :: 0 <= k < |ids| ==> ids[k] !in g || ids[k] == f
  }

  /** `g'` is `g` with node `f` replaced by the chain `ids`: the first member inherits the
      dependencies of `f`, each later one depends on its predecessor, and whoever depended
      on `f` now depends on the last one. */
  ghost predicate ChainReplaced(g: Graph, f: Id, ids: seq<Id>, g': Graph)
    requires f in g && |ids| > 0
  {
    && g'.Keys == (g.Keys - {f}) + (set k | 0 <= k < |ids| :: ids[k])
    && g'[ids[0]] == g[f]
    && (forall k :: 0 < k < |ids| ==> g'[ids[k]] == [ids[k - 1]])
    && (forall a :: a in g && a != f ==> a in g' && g'[a] == Substitute(g[a], f, ids[|ids| - 1]))
  }

  ghost predicate Replaceable(g: Graph, f: Id, ids: seq<Id>) {
    f in g && |ids| > 0 && FreshFor(g, f, ids) && Closed(g) && f !in g[f]
  }

  ghost function Collapse(f: Id, ids: seq<Id>): Id -> Id {
    x => if x in ids then f else x
  }

  /** An edge of the rewritten graph is an edge of the old one after collapsing the chain, or
      a step down the chain. */
  lemma ChainEdge(g: Graph, f: Id, ids: seq<Id>, g': Graph, x: Id, y: Id)
    requires Replaceable(g, f, ids) && ChainReplaced(g, f, ids, g') && Edge(g', x, y)
    ensures || Edge(g, Collapse(f, ids)(x), Collapse(f, ids)(y))
            || exists k :: 0 < k < |ids| && x == ids[k] && y == ids[k - 1]
  {
    if x in ids {
      var k :| 0 <= k < |ids| && ids[k] == x;
      if k == 0 { assert Edge(g, f, y); } else { assert g'[ids[k]] == [ids[k - 1]]; }
    } else {
      var i :| 0 <= i < |g'[x]| && g'[x][i] == y;
      assert Edge(g, x, g[x][i]);
    }
  }

  /** A dependency of the rewritten graph is one of the old graph after collapsing the chain,
      or leads strictly down the chain. */
  lemma ChainPath(g: Graph, f: Id, ids: seq<Id>, g': Graph, p: seq<Id>)
    requires Replaceable(g, f, ids) && ChainReplaced(g, f, ids, g') && Path(g', p)
    ensures || DependsOn(g, Collapse(f, ids)(p[0]), Collapse(f, ids)(p[|p| - 1]))
            || exists j, k :: 0 <= j < k < |ids| && p[0] == ids[k] && p[|p| - 1] == ids[j]
    decreases |p|
  {
    var h := Collapse(f, ids);
    var x, y, z := p[0], p[1], p[|p| - 1];
    assert Edge(g', x, y);
    ChainEdge(g, f, ids, g', x, y);
    if Edge(g, h(x), h(y)) { EdgeDepends(g, h(x), h(y)); }
    if |p| > 2 {
      PathTail(g', p);
      ChainPath(g, f, ids, g', p[1..]);
      if DependsOn(g, h(x), h(y)) && DependsOn(g, h(y), h(z)) { DependsTransitive(g, h(x), h(y), h(z)); }
    }
  }

  /** In the rewritten graph every member of the chain depends on all dependencies of `f`. */
  lemma ChainReaches(g: Graph, f: Id, ids: seq<Id>, g': Graph, k: nat, d: Id)
    requires f in g && |ids| > 0 && ChainReplaced(g, f, ids, g') && k < |ids| && d in g[f]
    ensures DependsOn(g', ids[k], d)
  {
    if k == 0 {
      EdgeDepends(g', ids[0], d);
    } else {
      ChainReaches(g, f, ids, g', k - 1, d);
      EdgeDepends(g', ids[k], ids[k - 1]);
      DependsTransitive(g', ids[k], ids[k - 1], d);
    }
  }

  lemma ChainKeepsDependencies(g: Graph, f: Id, ids: seq<Id>, g': Graph, a: Id, b: Id)
    requires Replaceable(g, f, ids) && ChainReplaced(g, f, ids, g') && DependsOn(g, a, b) && a != f && b != f
    ensures DependsOn(g', a, b)
  {
    var last := ids[|ids| - 1];
    var m := (x: Id) => if x == f then last else x;
    forall x, y | Edge(g, x, y) ensures DependsOn(g', m(x), m(y)) {
      if x == f {
        ChainReaches(g, f, ids, g', |ids| - 1, y);
      } else {
        var i :| 0 <= i < |g[x]| && g[x][i] == y;
        assert g'[x][i] == m(y);
        EdgeDepends(g', x, m(y));
      }
    }
    var p :| Path(g, p) && p[0] == a && p[|p| - 1] == b;
    MapDepends(g, g', m, p);
  }

  /** Replacing a node by a chain keeps a closed acyclic graph closed and acyclic, and two
      surviving nodes depend on each other after exactly when they did before. */
  lemma ChainReplacement(g: Graph, f: Id, ids: seq<Id>, g': Graph)
    requires Replaceable(g, f, ids) && ChainReplaced(g, f, ids, g')
    ensures Closed(g')
    ensures Acyclic(g) ==> Acyclic(g')
    ensures forall a, b :: a in g && b in g && a != f && b != f ==> (DependsOn(g', a, b) <==> DependsOn(g, a, b))
  {
    forall x, y | Edge(g', x, y) ensures y in g' {
      ChainEdge(g, f, ids, g', x, y);
      if y !in ids { assert Edge(g, Collapse(f, ids)(x), y); }
    }
    forall a | DependsOn(g', a, a) ensures exists b :: DependsOn(g, b, b) {
      var p :| Path(g', p) && p[0] == a && p[|p| - 1] == a;
      ChainPath(g, f, ids, g', p);
    }
    forall a, b | a in g && b in g && a != f && b != f ensures DependsOn(g', a, b) <==> DependsOn(g, a, b) {
      if DependsOn(g', a, b) {
        var p :| Path(g', p) && p[0] == a && p[|p| - 1] == b;
        ChainPath(g, f, ids, g', p);
      }
      if DependsOn(g, a, b) { ChainKeepsDependencies(g, f, ids, g', a, b); }
    }
  }
}
