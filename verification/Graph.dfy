/**
 Dependency graphs: paths, reachability, cycles and dependency-first orders.

 An edge goes from a target to one of its dependencies.  Everything the engine
 says about "closure", "reverse closure", "blocked" and "cycle" is stated here
 with paths, independently of the loops that compute it.
 */
module Graph {
  /** A target's name, interned: names are only ever compared. */
  type Name = nat

  type Graph = map<Name, set<Name>>

  predicate Edge(g: Graph, a: Name, b: Name) {
    a in g && b in g[a]
  }

  /** No edge leaves the graph. */
  ghost predicate Closed(g: Graph) {
    forall a, b :: Edge(g, a, b) ==> b in g
  }

  /** The `i`-th step of a sequence of targets follows an edge. */
  predicate Step(g: Graph, p: seq<Name>, i: nat)
    requires i + 1 < |p|
  {
    Edge(g, p[i], p[i + 1])
  }

  ghost predicate Walk(g: Graph, p: seq<Name>) {
    forall i :: 0 <= i < |p| - 1 ==> Step(g, p, i)
  }

  ghost predicate IsPath(g: Graph, p: seq<Name>, a: Name, b: Name) {
    |p| >= 1 && p[0] == a && p[|p| - 1] == b && Walk(g, p)
  }

  /** `b` is `a` itself or one of its transitive dependencies. */
  ghost predicate Reach(g: Graph, a: Name, b: Name) {
    exists p :: IsPath(g, p, a, b)
  }

  /** `b` is reached from `a` by at least one edge. */
  ghost predicate StrictReach(g: Graph, a: Name, b: Name) {
    exists p :: |p| >= 2 && IsPath(g, p, a, b)
  }

  ghost predicate Acyclic(g: Graph) {
    forall n :: !StrictReach(g, n, n)
  }

  ghost predicate ReachesCycle(g: Graph, n: Name) {
    exists m :: Reach(g, n, m) && StrictReach(g, m, m)
  }

  /** The dependency graph restricted to a set of targets. */
  function Induced(g: Graph, s: set<Name>): Graph {
    map n | n in s && n in g :: g[n] * s
  }

  // ----- reachability ------------------------------------------------------

  lemma ReachRefl(g: Graph, a: Name)
    ensures Reach(g, a, a)
  {
    assert IsPath(g, [a], a, a);
  }

  lemma StrictIsReach(g: Graph, a: Name, b: Name)
    requires StrictReach(g, a, b)
    ensures Reach(g, a, b)
  {
  }

  lemma EdgeStrict(g: Graph, a: Name, b: Name)
    requires Edge(g, a, b)
    ensures StrictReach(g, a, b)
  {
    assert Step(g, [a, b], 0);
    assert IsPath(g, [a, b], a, b);
  }

  lemma WalkJoin(g: Graph, p: seq<Name>, q: seq<Name>)
    requires |p| >= 1 && |q| >= 1 && p[|p| - 1] == q[0]
    requires Walk(g, p) && Walk(g, q)
    ensures Walk(g, p + q[1..])
  {
    var r := p + q[1..];
    forall i | 0 <= i < |r| - 1
      ensures Step(g, r, i)
    {
      if i >= |p| - 1 {
        assert Step(g, q, i - (|p| - 1));
      } else {
        assert Step(g, p, i);
      }
    }
  }

  lemma WalkPrefix(g: Graph, p: seq<Name>, k: nat)
    requires Walk(g, p) && k <= |p|
    ensures Walk(g, p[..k])
  {
    var q := p[..k];
    forall i | 0 <= i < |q| - 1 ensures Step(g, q, i) {
      assert Step(g, p, i);
    }
  }

  lemma WalkAppend(g: Graph, p: seq<Name>, n: Name)
    requires Walk(g, p) && (|p| > 0 ==> Edge(g, p[|p| - 1], n))
    ensures Walk(g, p + [n])
  {
    var q := p + [n];
    forall i | 0 <= i < |q| - 1 ensures Step(g, q, i) {
      if i < |p| - 1 {
        assert Step(g, p, i);
      }
    }
  }

  lemma ReachTrans(g: Graph, a: Name, b: Name, c: Name)
    requires Reach(g, a, b) && Reach(g, b, c)
    ensures Reach(g, a, c)
    ensures StrictReach(g, a, b) || StrictReach(g, b, c) ==> StrictReach(g, a, c)
  {
    var p :| IsPath(g, p, a, b);
    var q :| IsPath(g, q, b, c);
    WalkJoin(g, p, q);
    assert IsPath(g, p + q[1..], a, c);
    if StrictReach(g, a, b) {
      var p2 :| |p2| >= 2 && IsPath(g, p2, a, b);
      WalkJoin(g, p2, q);
      assert IsPath(g, p2 + q[1..], a, c);
    }
    if StrictReach(g, b, c) {
      var q2 :| |q2| >= 2 && IsPath(g, q2, b, c);
      WalkJoin(g, p, q2);
      assert IsPath(g, p + q2[1..], a, c);
    }
  }

  lemma EdgeThenReach(g: Graph, a: Name, b: Name, c: Name)
    requires Edge(g, a, b) && Reach(g, b, c)
    ensures StrictReach(g, a, c) && Reach(g, a, c)
  {
    EdgeStrict(g, a, b);
    StrictIsReach(g, a, b);
    ReachTrans(g, a, b, c);
  }

  lemma StrictTrans(g: Graph, a: Name, b: Name, c: Name)
    requires StrictReach(g, a, b) && StrictReach(g, b, c)
    ensures StrictReach(g, a, c)
  {
    StrictIsReach(g, a, b);
    StrictIsReach(g, b, c);
    ReachTrans(g, a, b, c);
  }

  lemma ReachThenEdge(g: Graph, a: Name, b: Name, c: Name)
    requires Reach(g, a, b) && Edge(g, b, c)
    ensures StrictReach(g, a, c) && Reach(g, a, c)
  {
    EdgeStrict(g, b, c);
    StrictIsReach(g, b, c);
    ReachTrans(g, a, b, c);
  }

  lemma FirstEdge(g: Graph, a: Name, c: Name) returns (b: Name)
    requires StrictReach(g, a, c)
    ensures Edge(g, a, b) && Reach(g, b, c)
  {
    var p :| |p| >= 2 && IsPath(g, p, a, c);
    b := p[1];
    assert Step(g, p, 0);
    assert IsPath(g, p[1..], b, c) by {
      forall i | 0 <= i < |p[1..]| - 1 ensures Step(g, p[1..], i) {
        assert Step(g, p, i + 1);
      }
    }
  }

  lemma LastEdge(g: Graph, a: Name, c: Name) returns (b: Name)
    requires StrictReach(g, a, c)
    ensures Reach(g, a, b) && Edge(g, b, c)
  {
    var p :| |p| >= 2 && IsPath(g, p, a, c);
    b := p[|p| - 2];
    assert Step(g, p, |p| - 2);
    WalkPrefix(g, p, |p| - 1);
    assert IsPath(g, p[..|p| - 1], a, b);
  }

  lemma ReachIsEqOrStrict(g: Graph, a: Name, b: Name)
    requires Reach(g, a, b)
    ensures a == b || StrictReach(g, a, b)
  {
    var p :| IsPath(g, p, a, b);
    if |p| == 1 {
      assert a == b;
    }
  }

  ghost predicate EdgeClosed(g: Graph, s: set<Name>) {
    forall a, b :: a in s && Edge(g, a, b) ==> b in s
  }

  /** Nothing outside an edge-closed set is reachable from inside it. */
  lemma EdgeClosedReach(g: Graph, s: set<Name>, a: Name, b: Name)
    requires EdgeClosed(g, s) && a in s && Reach(g, a, b)
    ensures b in s
  {
    var p :| IsPath(g, p, a, b);
    EdgeClosedWalk(g, s, p, |p| - 1);
  }

  lemma {:induction false} EdgeClosedWalk(g: Graph, s: set<Name>, p: seq<Name>, i: nat)
    requires EdgeClosed(g, s) && Walk(g, p) && i < |p| && p[0] in s
    ensures p[i] in s
  {
    if i > 0 {
      EdgeClosedWalk(g, s, p, i - 1);
      assert Step(g, p, i - 1);
    }
  }

  /** The nodes a set of roots reaches. */
  ghost function ReachSet(g: Graph, roots: set<Name>): set<Name>
    requires Closed(g) && roots <= g.Keys
  {
    set n | n in g && exists r :: r in roots && Reach(g, r, n)
  }

  lemma ReachSetIsClosed(g: Graph, roots: set<Name>)
    requires Closed(g) && roots <= g.Keys
    ensures roots <= ReachSet(g, roots) && EdgeClosed(g, ReachSet(g, roots))
  {
    hide Reach;
    forall r | r in roots ensures r in ReachSet(g, roots) { ReachRefl(g, r); }
    forall a, b | a in ReachSet(g, roots) && Edge(g, a, b) ensures b in ReachSet(g, roots) {
      var r :| r in roots && Reach(g, r, a);
      ReachThenEdge(g, r, a, b);
    }
  }

  /** The nodes that reach some member of a set. */
  ghost function CoReachSet(g: Graph, roots: set<Name>): set<Name> {
    set n | n in g.Keys + roots && exists r :: r in roots && Reach(g, n, r)
  }

  lemma ReachStays(g: Graph, a: Name, b: Name)
    requires Closed(g) && a in g && Reach(g, a, b)
    ensures b in g
  {
    EdgeClosedReach(g, g.Keys, a, b);
  }

  // ----- cycles ------------------------------------------------------------

  ghost predicate NoDup<T(!new)>(s: seq<T>) {
    forall i, j :: 0 <= i < j < |s| ==> s[i] != s[j]
  }

  function Elems<T>(s: seq<T>): set<T> {
    set x | x in s
  }

  lemma {:induction false} NoDupLength<T(!new)>(s: seq<T>, u: set<T>)
    requires NoDup(s) && Elems(s) <= u
    ensures |s| <= |u|
  {
    if |s| > 0 {
      var x, t := s[|s| - 1], s[..|s| - 1];
      assert x in u;
      assert Elems(t) <= u - {x};
      NoDupLength(t, u - {x});
    }
  }

  ghost predicate HasSuccessorIn(g: Graph, s: set<Name>, a: Name) {
    exists b :: b in s && Edge(g, a, b)
  }

  /** A walk of any length inside a set in which every node has a successor. */
  lemma {:induction false} LongWalk(g: Graph, s: set<Name>, n: Name, k: nat) returns (p: seq<Name>)
    requires n in s
    requires forall a {:trigger HasSuccessorIn(g, s, a)} :: a in s ==> HasSuccessorIn(g, s, a)
    ensures |p| == k + 1 && p[0] == n && Walk(g, p) && Elems(p) <= s
  {
    if k == 0 {
      p := [n];
    } else {
      var q := LongWalk(g, s, n, k - 1);
      var a := q[|q| - 1];
      assert a in Elems(q) && HasSuccessorIn(g, s, a);
      var b :| b in s && Edge(g, a, b);
      p := q + [b];
      WalkAppend(g, q, b);
    }
  }

  lemma SubWalk(g: Graph, p: seq<Name>, i: nat, j: nat)
    requires Walk(g, p) && i <= j < |p|
    ensures IsPath(g, p[i..j + 1], p[i], p[j])
  {
    var q := p[i..j + 1];
    forall k | 0 <= k < |q| - 1 ensures Step(g, q, k) {
      assert Step(g, p, i + k);
    }
  }

  /** A finite set without a sink leads into a cycle. */
  lemma NoSinkReachesCycle(g: Graph, s: set<Name>, n: Name)
    requires n in s
    requires forall a {:trigger HasSuccessorIn(g, s, a)} :: a in s ==> HasSuccessorIn(g, s, a)
    ensures ReachesCycle(g, n)
  {
    var p := LongWalk(g, s, n, |s|);
    if NoDup(p) {
      NoDupLength(p, s);
    }
    var i, j :| 0 <= i < j < |p| && p[i] == p[j];
    SubWalk(g, p, 0, i);
    SubWalk(g, p, i, j);
    assert |p[i..j + 1]| >= 2;
    assert Reach(g, n, p[i]) && StrictReach(g, p[i], p[i]);
  }

  // ----- dependency-first orders --------------------------------------------

  /** The dependencies of the `i`-th element come before it. */
  ghost predicate Placed(g: Graph, order: seq<Name>, i: nat)
    requires i < |order|
  {
    order[i] in g && g[order[i]] <= Elems(order[..i])
  }

  /** Each element comes after all of its dependencies. */
  ghost predicate DepFirst(g: Graph, order: seq<Name>) {
    forall i :: 0 <= i < |order| ==> Placed(g, order, i)
  }

  /** `order` lists `s` once each, dependencies first. */
  ghost predicate IsSchedule(g: Graph, s: set<Name>, order: seq<Name>) {
    NoDup(order) && Elems(order) == s && DepFirst(g, order)
  }

  lemma DepFirstClosed(g: Graph, order: seq<Name>)
    requires DepFirst(g, order)
    ensures EdgeClosed(g, Elems(order))
  {
    forall a, b | a in Elems(order) && Edge(g, a, b)
      ensures b in Elems(order)
    {
      var i :| 0 <= i < |order| && order[i] == a;
      assert Placed(g, order, i);
      assert b in order[..i];
    }
  }

  /** A path out of `order[i]` only visits positions up to `i`, and strictly earlier ones after a step. */
  lemma {:induction false} DepFirstDescends(g: Graph, order: seq<Name>, p: seq<Name>, i: nat) returns (j: nat)
    requires NoDup(order) && DepFirst(g, order) && i < |order|
    requires |p| >= 1 && Walk(g, p) && p[0] == order[i]
    ensures j < |order| && order[j] == p[|p| - 1] && j <= i && (|p| >= 2 ==> j < i)
    decreases |p|
  {
    if |p| == 1 {
      j := i;
    } else {
      assert Step(g, p, 0);
      assert Placed(g, order, i);
      assert p[1] in Elems(order[..i]);
      var k :| 0 <= k < i && order[..i][k] == p[1];
      SubWalk(g, p, 1, |p| - 1);
      assert p[1..|p| - 1 + 1] == p[1..];
      j := DepFirstDescends(g, order, p[1..], k);
    }
  }

  /** Nothing in a dependency-first order reaches a cycle. */
  lemma DepFirstNoCycle(g: Graph, order: seq<Name>, n: Name)
    requires NoDup(order) && DepFirst(g, order) && n in order
    ensures !ReachesCycle(g, n)
  {
    if ReachesCycle(g, n) {
      var m :| Reach(g, n, m) && StrictReach(g, m, m);
      DepFirstClosed(g, order);
      EdgeClosedReach(g, Elems(order), n, m);
      var i :| 0 <= i < |order| && order[i] == m;
      var p :| |p| >= 2 && IsPath(g, p, m, m);
      var j := DepFirstDescends(g, order, p, i);
    }
  }

  lemma CycleNodesInGraph(g: Graph, n: Name)
    requires StrictReach(g, n, n)
    ensures n in g
  {
    var b := FirstEdge(g, n, n);
  }

  /** The induced subgraph is acyclic exactly when no member of it reaches a cycle. */
  lemma AcyclicIffNoCycleReached(g: Graph)
    ensures Acyclic(g) <==> forall n :: n in g ==> !ReachesCycle(g, n)
  {
    if !Acyclic(g) {
      var n :| StrictReach(g, n, n);
      CycleNodesInGraph(g, n);
      ReachRefl(g, n);
      assert ReachesCycle(g, n);
    }
  }

  function Users(g: Graph, n: Name): set<Name> {
    set p | p in g && n in g[p]
  }

  lemma ElemsAppend(a: seq<Name>, b: seq<Name>)
    ensures Elems(a + b) == Elems(a) + Elems(b)
  {
  }

  lemma {:induction false} NoDupCard(s: seq<Name>)
    requires NoDup(s)
    ensures |Elems(s)| == |s|
  {
    if |s| > 0 {
      var t, x := s[..|s| - 1], s[|s| - 1];
      assert s == t + [x];
      ElemsAppend(t, [x]);
      assert Elems([x]) == {x};
      NoDupCard(t);
      assert x !in Elems(t);
    } else {
      assert Elems(s) == {};
    }
  }

  // ----- the least name of a set ------------------------------------------------

  predicate IsLeast(x: Name, s: set<Name>) {
    x in s && forall y :: y in s ==> x <= y
  }

  lemma {:induction false} LeastExists(s: set<Name>)
    requires s != {}
    ensures exists x :: IsLeast(x, s)
  {
    var a :| a in s;
    var rest := s - {a};
    assert forall y :: y in s ==> y == a || y in rest;
    if rest == {} {
      assert IsLeast(a, s);
    } else {
      LeastExists(rest);
      var z :| IsLeast(z, rest);
      assert IsLeast(if z < a then z else a, s);
    }
  }

  /** The first name of `sorted(s)`. */
  ghost function Least(s: set<Name>): (x: Name)
    requires s != {}
    ensures IsLeast(x, s)
  {
    LeastExists(s);
    var x :| IsLeast(x, s);
    x
  }
}
