/**
 The graph traversals of `Workspace`: the recursive `target_closure`, the
 worklist `reverse_closure`, and `topo_sort` with its two marker sets.
 */
module Traversals {
  import opened Graph
  import opened Scheduler

  /** `target_closure`: `seen` is the variable the nested `visit` updates. */
  class ClosureVisitor {
    const g: Graph
    var seen: set<Name>

    constructor (g: Graph)
      ensures this.g == g && seen == {}
    {
      this.g := g;
      seen := {};
    }

    /** Visiting adds only what `n` reaches, and leaves every node it adds with all its dependencies seen. */
    method Visit(n: Name)
      requires Closed(g) && n in g && seen <= g.Keys
      modifies this
      ensures old(seen) <= seen <= g.Keys && n in seen
      ensures forall a :: a in seen - old(seen) ==> g[a] <= seen && Reach(g, n, a)
      decreases g.Keys - seen
    {
      if n in seen {
        return;
      }
      ghost var before := seen;
      seen := seen + {n};
      ReachRefl(g, n);
      var rest := g[n];
      while rest != {}
        invariant rest <= g[n] && g[n] - rest <= seen
        invariant before + {n} <= seen <= g.Keys
        invariant forall a :: a in seen - before - {n} ==> g[a] <= seen
        invariant forall a :: a in seen - before ==> Reach(g, n, a)
        decreases rest
      {
        var d :| d in rest;
        assert Edge(g, n, d);
        ghost var s0 := seen;
        Visit(d);
        forall a | a in seen - s0 ensures Reach(g, n, a) {
          EdgeThenReach(g, n, d, a);
        }
        rest := rest - {d};
      }
    }
  }

  method TargetClosure(g: Graph, roots: set<Name>) returns (closure: set<Name>)
    requires Closed(g) && roots <= g.Keys
    ensures closure == ReachSet(g, roots)
  {
    var v := new ClosureVisitor(g);
    var rest := roots;
    while rest != {}
      invariant rest <= roots && roots - rest <= v.seen <= g.Keys
      invariant EdgeClosed(g, v.seen)
      invariant forall a :: a in v.seen ==> exists r :: r in roots && Reach(g, r, a)
      decreases rest
    {
      var r :| r in rest;
      v.Visit(r);
      rest := rest - {r};
    }
    closure := v.seen;
    forall n | n in ReachSet(g, roots) ensures n in closure {
      var r :| r in roots && Reach(g, r, n);
      EdgeClosedReach(g, closure, r, n);
    }
  }

  /** `reverse_deps`: an entry for each target that has a user. */
  function ReverseDeps(g: Graph): map<Name, set<Name>> {
    map d | d in AllDeps(g) :: Users(g, d)
  }

  function AllDeps(g: Graph): set<Name> {
    set a, d | a in g && d in g[a] :: d
  }

  function UsersIn(rev: map<Name, set<Name>>, n: Name): set<Name> {
    if n in rev then rev[n] else {}
  }

  lemma ReverseDepsGivesUsers(g: Graph, n: Name)
    ensures UsersIn(ReverseDeps(g), n) == Users(g, n)
  {
    assert Users(g, n) != {} ==> n in AllDeps(g);
  }

  /** The inner loop of the search: unseen parents are marked and queued. */
  method Enqueue(seen: set<Name>, q: seq<Name>, parents: set<Name>) returns (seen': set<Name>, q': seq<Name>)
    ensures seen' == seen + parents
    ensures q <= q' && Elems(q') == Elems(q) + (parents - seen)
    ensures parents <= seen ==> q' == q
  {
    seen', q' := seen, q;
    var rest := parents;
    while rest != {}
      invariant rest <= parents && seen' == seen + (parents - rest)
      invariant q <= q' && Elems(q') == Elems(q) + (parents - rest - seen)
      invariant parents <= seen ==> q' == q
      decreases rest
    {
      var p :| p in rest;
      if p !in seen' {
        ElemsAppend(q', [p]);
        assert Elems([p]) == {p};
        seen' := seen' + {p};
        q' := q' + [p];
      }
      rest := rest - {p};
    }
  }

  lemma CoReachUsers(g: Graph, roots: set<Name>, n: Name)
    requires n in CoReachSet(g, roots)
    ensures Users(g, n) <= CoReachSet(g, roots)
  {
    var r :| r in roots && Reach(g, n, r);
    forall p | p in Users(g, n) ensures p in CoReachSet(g, roots) {
      assert Edge(g, p, n);
      EdgeThenReach(g, p, n, r);
    }
  }

  lemma RootsCoReach(g: Graph, roots: set<Name>)
    ensures roots <= CoReachSet(g, roots)
  {
    forall r | r in roots ensures Reach(g, r, r) { ReachRefl(g, r); }
  }

  /** A set that holds the roots and every user of a member holds the reverse closure. */
  lemma CoReachIsLeast(g: Graph, roots: set<Name>, s: set<Name>)
    requires roots <= s && forall a :: a in s ==> Users(g, a) <= s
    ensures CoReachSet(g, roots) <= s
  {
    forall n | n in CoReachSet(g, roots) ensures n in s {
      var r :| r in roots && Reach(g, n, r);
      ClosedUnderUsers(g, s, n, r);
    }
  }

  /**
   The queue loop shared by `reverse_closure` and `catalog_reverse_closure`:
   given an index of users, it returns everything that reaches a root.
   */
  method ReverseClosure(ghost g: Graph, rev: map<Name, set<Name>>, roots: set<Name>,
          queue: seq<Name>) returns (seen: set<Name>)
    requires rev == ReverseDeps(g) && Elems(queue) == roots
    ensures seen == CoReachSet(g, roots)
  {
    hide CoReachSet, Users;
    seen := roots;
    var q := queue;
    RootsCoReach(g, roots);
    while q != []
      invariant Elems(q) <= seen && roots <= seen <= CoReachSet(g, roots)
      invariant forall a :: a in seen - Elems(q) ==> Users(g, a) <= seen
      decreases CoReachSet(g, roots) - seen, |q|
    {
      var n := q[0];
      assert q == [n] + q[1..];
      ElemsAppend([n], q[1..]);
      assert Elems([n]) == {n};
      ReverseDepsGivesUsers(g, n);
      CoReachUsers(g, roots, n);
      seen, q := Enqueue(seen, q[1..], UsersIn(rev, n));
    }
    CoReachIsLeast(g, roots, seen);
  }

  lemma {:induction false} WalkBack(g: Graph, s: set<Name>, p: seq<Name>)
    requires Walk(g, p) && |p| >= 1 && p[|p| - 1] in s
    requires forall a :: a in s ==> Users(g, a) <= s
    ensures p[0] in s
    decreases |p|
  {
    if |p| > 1 {
      assert Step(g, p, |p| - 2);
      assert p[|p| - 2] in Users(g, p[|p| - 1]);
      WalkPrefix(g, p, |p| - 1);
      WalkBack(g, s, p[..|p| - 1]);
    }
  }

  lemma ClosedUnderUsers(g: Graph, s: set<Name>, n: Name, r: Name)
    requires Reach(g, n, r) && r in s
    requires forall a :: a in s ==> Users(g, a) <= s
    ensures n in s
  {
    var p :| IsPath(g, p, n, r);
    WalkBack(g, s, p);
  }

  /** `n` is in the reverse closure of `r` exactly when `r` is in the closure of `n`. */
  lemma {:induction false} ClosureDuality(g: Graph, n: Name, r: Name)
    requires Closed(g) && n in g && r in g
    ensures n in CoReachSet(g, {r}) <==> r in ReachSet(g, {n})
  {
    assert r in {r} && n in {n};
  }

  // ----- topo_sort -------------------------------------------------------------

  datatype Sorted = Order(order: seq<Name>) | Cycle(at: Name)

  /** The nested `visit` of `topo_sort`: `temp` marks the call stack, `perm` the finished targets. */
  class TopoSorter {
    const deps: Graph
    const subset: set<Name>
    var temp: set<Name>
    var perm: set<Name>
    var order: seq<Name>

    constructor (deps: Graph, subset: set<Name>)
      ensures this.deps == deps && this.subset == subset
      ensures temp == {} && perm == {} && order == []
    {
      this.deps, this.subset := deps, subset;
      temp, perm, order := {}, {}, [];
    }

    ghost function G(): Graph {
      Induced(deps, subset)
    }

    ghost predicate Valid()
      reads this
    {
      && Closed(deps) && subset <= deps.Keys
      && perm == Elems(order) && perm <= subset && temp <= subset && temp !! perm
      && NoDup(order) && DepFirst(G(), order)
    }

    /** `stack` is the chain of pending calls; it explains a reported cycle. */
    method Visit(n: Name, ghost stack: seq<Name>) returns (ok: bool, at: Name)
      requires Valid() && n in subset
      requires Elems(stack) == temp && Walk(G(), stack + [n])
      modifies this
      ensures ok ==> Valid() && temp == old(temp) && n in perm && old(perm) <= perm
      ensures !ok ==> at in subset && StrictReach(G(), at, at)
      decreases subset - temp
    {
      if n in perm {
        return true, n;
      }
      if n in temp {
        assert n in stack;
        ghost var i :| 0 <= i < |stack| && stack[i] == n;
        ghost var w := stack + [n];
        SubWalk(G(), w, i, |stack|);
        assert |w[i..|stack| + 1]| >= 2 && w[|stack|] == n;
        return false, n;
      }
      temp := temp + {n};
      ghost var deeper := stack + [n];
      ElemsAppend(stack, [n]);
      assert Elems([n]) == {n};
      var rest := deps[n];
      while rest != {}
        invariant Valid() && temp == old(temp) + {n} && old(perm) <= perm
        invariant rest <= deps[n] && (deps[n] - rest) * subset <= perm
        decreases rest
      {
        var d :| d in rest;
        if d in subset {
          assert Edge(G(), n, d);
          WalkAppend(G(), deeper, d);
          var fine, where := Visit(d, deeper);
          if !fine {
            return false, where;
          }
        }
        rest := rest - {d};
      }
      temp := temp - {n};
      perm := perm + {n};
      ElemsAppend(order, [n]);
      assert n !in Elems(order);
      assert G()[n] == deps[n] * subset;
      SucceedOrder(G(), order, n);
      order := order + [n];
      return true, n;
    }
  }

  lemma AcyclicIfSorted(g: Graph, order: seq<Name>)
    requires IsSchedule(g, g.Keys, order)
    ensures Acyclic(g)
  {
    forall n | n in g ensures !ReachesCycle(g, n) {
      assert n in Elems(order);
      DepFirstNoCycle(g, order, n);
    }
    AcyclicIffNoCycleReached(g);
  }

  /** A dependency-first order is returned exactly when the induced subgraph has no cycle. */
  method TopoSort(deps: Graph, subset: set<Name>) returns (r: Sorted)
    requires Closed(deps) && subset <= deps.Keys
    ensures r.Order? <==> Acyclic(Induced(deps, subset))
    ensures r.Order? ==> IsSchedule(Induced(deps, subset), subset, r.order)
    ensures r.Cycle? ==> r.at in subset && StrictReach(Induced(deps, subset), r.at, r.at)
  {
    var t := new TopoSorter(deps, subset);
    var rest := subset;
    while rest != {}
      invariant t.deps == deps && t.subset == subset && fresh(t)
      invariant t.Valid() && t.temp == {} && rest <= subset && subset - rest <= t.perm
      decreases rest
    {
      var n :| n in rest;
      assert Walk(t.G(), [] + [n]);
      var ok, at := t.Visit(n, []);
      if !ok {
        return Cycle(at);
      }
      rest := rest - {n};
    }
    assert Induced(deps, subset).Keys == subset;
    AcyclicIfSorted(Induced(deps, subset), t.order);
    return Order(t.order);
  }

  /**
   `topo_sort` and the scheduler agree on what is buildable: a finished run
   without failures misses nothing exactly when the subset can be sorted.
   */
  lemma RunCompletesIffSortable(g: Graph, jobs: nat, first: seq<Name>, es: seq<Event>, s: State)
    requires Closed(g) && Reached(g, {}, jobs, first, es, s) && Finished(s)
    ensures Elems(s.completed) == g.Keys <==> Acyclic(g)
    ensures Acyclic(g) <==> exists order :: IsSchedule(g, g.Keys, order)
  {
    MissingIffReachesCycle(g, jobs, first, es, s);
    ScheduleIndependence(g, {}, jobs, first, es, s);
    AcyclicIffNoCycleReached(g);
    if Acyclic(g) {
      assert Elems(s.completed) == g.Keys;
      assert IsSchedule(g, g.Keys, s.completed);
    }
    forall order | IsSchedule(g, g.Keys, order) ensures Acyclic(g) {
      AcyclicIfSorted(g, order);
    }
  }

  lemma InducedClosed(g: Graph, s: set<Name>)
    requires s <= g.Keys
    ensures Closed(Induced(g, s)) && Induced(g, s).Keys == s
  {
  }

  lemma InducedWalk(g: Graph, s: set<Name>, p: seq<Name>)
    requires Walk(Induced(g, s), p)
    ensures Walk(g, p)
  {
    forall i | 0 <= i < |p| - 1 ensures Step(g, p, i) {
      assert Step(Induced(g, s), p, i);
    }
  }

  lemma InducedAcyclic(g: Graph, s: set<Name>)
    requires Acyclic(g)
    ensures Acyclic(Induced(g, s))
  {
    forall n, p | |p| >= 2 && IsPath(Induced(g, s), p, n, n) ensures StrictReach(g, n, n) {
      InducedWalk(g, s, p);
      assert IsPath(g, p, n, n);
    }
  }

  lemma NoEdgesAcyclic(g: Graph)
    requires forall n :: n in g ==> g[n] == {}
    ensures Acyclic(g)
  {
    forall n ensures !StrictReach(g, n, n) {
      if StrictReach(g, n, n) {
        var _ := FirstEdge(g, n, n);
      }
    }
  }
}
