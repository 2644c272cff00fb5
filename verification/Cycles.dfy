/** Dependency cycles and the depth-first search that looks for them. */
module Cycles {

  type Node = nat
  type Graph = set<(Node, Node)>

  predicate IsPath(g: Graph, p: seq<Node>) {
    forall i :: 0 <= i < |p| - 1 ==> (p[i], p[i + 1]) in g
  }

  /** Some path comes back to where it began. */
  ghost predicate HasCycle(g: Graph) {
    exists p: seq<Node> :: |p| >= 2 && IsPath(g, p) && p[0] == p[|p| - 1]
  }

  /** A path from one of the nodes ends in one of its earlier nodes. */
  ghost predicate CycleFrom(g: Graph, nodes: set<Node>) {
    exists p: seq<Node>, i: nat :: IsLasso(g, nodes, p, i)
  }

  predicate IsLasso(g: Graph, nodes: set<Node>, p: seq<Node>, i: nat) {
    i < |p| - 1 && IsPath(g, p) && p[0] in nodes && p[i] == p[|p| - 1]
  }

  predicate NoRepeats(s: seq<Node>) {
    forall i, j :: 0 <= i < j < |s| ==> s[i] != s[j]
  }

  /** Every edge from a listed node leads to a node listed before it. */
  ghost predicate Settled(g: Graph, done: seq<Node>) {
    NoRepeats(done) && forall j, y :: 0 <= j < |done| && (done[j], y) in g ==> y in done[..j]
  }

  function Ends(g: Graph): set<Node> {
    (set e | e in g :: e.0) + (set e | e in g :: e.1)
  }

  /** The search, with the nodes visited and those on the current path. */
  class Search {
    const g: Graph
    const nodes: set<Node>
    var visited: set<Node>
    var inStack: set<Node>
    ghost var path: seq<Node>
    ghost var done: seq<Node>

    ghost predicate Valid()
      reads this
    {
      && IsPath(g, path) && (path != [] ==> path[0] in nodes)
      && (forall x :: x in inStack <==> x in path)
      && Settled(g, done)
      && (forall x :: x in visited <==> x in path || x in done)
      && (forall x :: x in path ==> x !in done)
    }

    constructor (g: Graph, nodes: set<Node>)
      ensures Valid() && this.g == g && this.nodes == nodes && path == [] && done == []
    {
      this.g, this.nodes := g, nodes;
      visited, inStack, path, done := {}, {}, [], [];
    }

    /** Search from a node that follows the current path. */
    method Dfs(current: Node) returns (found: bool)
      requires Valid()
      requires if path == [] then current in nodes else (path[|path| - 1], current) in g
      modifies this
      ensures found ==> CycleFrom(g, nodes)
      ensures !found ==> Valid() && path == old(path) && current in done && old(done) <= done
      ensures !found ==> old(visited) <= visited
      decreases nodes + Ends(g) - visited
    {
      if current in inStack {
        LassoFound(g, nodes, path, current);
        return true;
      }
      if current in visited { return false; }
      assert current in nodes + Ends(g) by {
        if path != [] { assert (path[|path| - 1], current).1 in Ends(g); }
      }
      visited := visited + {current};
      inStack := inStack + {current};
      ghost var before, above := done, path;
      path := path + [current];
      assert forall x :: x in path <==> x in above || x == current;
      ghost var next := set e | e in g && e.0 == current :: e.1;
      var rest := set e | e in g && e.0 == current :: e.1;
      while rest != {}
        invariant rest <= next && Valid() && path == above + [current] && before <= done
        invariant old(visited) + {current} <= visited
        invariant forall y :: y in next && y !in rest ==> y in done
        decreases rest
      {
        var y :| y in rest;
        assert (path[|path| - 1], y) in g;
        found := Dfs(y);
        if found { return true; }
        rest := rest - {y};
      }
      inStack := inStack - {current};
      Settle(g, done, current);
      path := above;
      done := done + [current];
      assert current in done;
      return false;
    }
  }

  /** A node whose successors are all settled can be settled next. */
  lemma Settle(g: Graph, done: seq<Node>, x: Node)
    requires Settled(g, done) && x !in done
    requires forall y :: (x, y) in g ==> y in done
    ensures Settled(g, done + [x])
  {
    var after := done + [x];
    forall j, y | 0 <= j < |after| && (after[j], y) in g ensures y in after[..j] {
      assert after[..j] == done[..j];
    }
  }

  lemma LassoFound(g: Graph, nodes: set<Node>, path: seq<Node>, x: Node)
    requires IsPath(g, path) && x in path && path[0] in nodes && (path[|path| - 1], x) in g
    ensures CycleFrom(g, nodes)
  {
    var i :| 0 <= i < |path| && path[i] == x;
    assert IsLasso(g, nodes, path + [x], i);
  }

  /** From a settled node every path descends the list, so it never meets a node twice. */
  lemma {:induction false} PathsDescend(g: Graph, done: seq<Node>, p: seq<Node>, k: nat)
    requires Settled(g, done) && IsPath(g, p) && p != [] && k < |done| && p[0] == done[k]
    ensures forall i :: 0 < i < |p| ==> p[i] in done[..k]
  {
    if |p| > 1 {
      var m :| 0 <= m < k && done[m] == p[1];
      PathsDescend(g, done, p[1..], m);
      forall i | 1 < i < |p| ensures p[i] in done[..k] {
        assert p[i] == p[1..][i - 1];
      }
    }
  }

  lemma NoLasso(g: Graph, done: seq<Node>, p: seq<Node>, i: nat)
    requires Settled(g, done) && IsPath(g, p) && i < |p| - 1 && p[0] in done
    ensures p[i] != p[|p| - 1]
  {
    var k :| 0 <= k < |done| && done[k] == p[0];
    PathsDescend(g, done, p, k);
    var m :| 0 <= m < |done| && done[m] == p[i];
    PathsDescend(g, done, p[i..], m);
    assert p[i..][|p| - 1 - i] == p[|p| - 1];
  }

  /** The search from all nodes, in any order, finds a cycle exactly when one can be reached from them. */
  method FindsCycle(g: Graph, nodes: set<Node>) returns (found: bool)
    ensures found <==> CycleFrom(g, nodes)
  {
    var search := new Search(g, nodes);
    var rest := nodes;
    while rest != {}
      invariant rest <= nodes && search.Valid() && search.g == g && search.nodes == nodes
      invariant search.path == [] && forall x <- nodes :: x !in rest ==> x in search.done
    {
      var start :| start in rest;
      found := search.Dfs(start);
      if found { return true; }
      rest := rest - {start};
    }
    forall p: seq<Node>, i: nat | IsPath(g, p) && i < |p| - 1 && p[0] in nodes ensures p[i] != p[|p| - 1] {
      NoLasso(g, search.done, p, i);
    }
    return false;
  }

  // ----- cycles of the whole graph -----

  /** A cycle passes through sources of edges only; when all of them are searched, no cycle is missed. */
  lemma CyclesAreReached(g: Graph, nodes: set<Node>)
    requires forall e <- g :: e.0 in nodes
    ensures HasCycle(g) <==> CycleFrom(g, nodes)
  {
    if HasCycle(g) {
      var p: seq<Node> :| |p| >= 2 && IsPath(g, p) && p[0] == p[|p| - 1];
      assert (p[0], p[1]) in g;
      assert IsLasso(g, nodes, p, 0);
    }
    if CycleFrom(g, nodes) {
      var p: seq<Node>, i: nat :| IsLasso(g, nodes, p, i);
      var q := p[i..];
      assert IsPath(g, q) && q[0] == q[|q| - 1];
    }
  }

  lemma FewerEdges(g: Graph, h: Graph)
    requires h <= g && HasCycle(h)
    ensures HasCycle(g)
  {
    var p: seq<Node> :| |p| >= 2 && IsPath(h, p) && p[0] == p[|p| - 1];
    assert IsPath(g, p);
  }

  /** A node no edge leads to is on no cycle: if the edges from it are new, a cycle was there before. */
  lemma NoWayBack(g: Graph, h: Graph, x: Node)
    requires (forall e <- h :: e.1 != x) && (forall e <- h :: e.0 != x ==> e in g) && HasCycle(h)
    ensures HasCycle(g)
  {
    var p: seq<Node> :| |p| >= 2 && IsPath(h, p) && p[0] == p[|p| - 1];
    forall i | 0 <= i < |p| - 1 ensures (p[i], p[i + 1]) in g {
      assert (p[i], p[i + 1]) in h;
      if i > 0 { assert (p[i - 1], p[i]) in h; } else { assert (p[|p| - 2], p[|p| - 1]) in h; }
    }
  }
}
