/**
 The generated benchmark graphs: joining any number of children with a tree of
 bounded fan-out, and the node lists built on it.
 */
module FanIn {
  /** A generated name; the printed forms (`node00012`, `leafjoin1_00003`, the prefix itself, `all`) are distinct. */
  datatype Name = Leaf(index: nat) | Join(layer: nat, index: nat) | Top | All

  datatype Node = Node(name: Name, deps: seq<Name>)

  const FANOUT: nat := 32

  function Names(nodes: seq<Node>): (r: seq<Name>)
    ensures |r| == |nodes| && forall i :: 0 <= i < |nodes| ==> r[i] == nodes[i].name
  {
    seq(|nodes|, i requires 0 <= i < |nodes| => nodes[i].name)
  }

  /** Everything the nodes read, in order. */
  function Reads(nodes: seq<Node>): seq<Name> {
    if nodes == [] then [] else Reads(nodes[..|nodes| - 1]) + nodes[|nodes| - 1].deps
  }

  lemma {:induction false} ReadsAppend(a: seq<Node>, b: seq<Node>)
    ensures Reads(a + b) == Reads(a) + Reads(b)
  {
    if b == [] {
      assert a + b == a;
    } else {
      assert (a + b)[..|a + b| - 1] == a + b[..|b| - 1];
      ReadsAppend(a, b[..|b| - 1]);
    }
  }

  predicate Distinct(names: seq<Name>) {
    forall i, j :: 0 <= i < j < |names| ==> names[i] != names[j]
  }

  predicate NoneEmpty(nodes: seq<Node>) {
    forall i :: 0 <= i < |nodes| ==> nodes[i].deps != []
  }

  predicate Bounded(nodes: seq<Node>, width: nat) {
    forall i :: 0 <= i < |nodes| ==> |nodes[i].deps| <= width
  }

  /** Every dependency is one of `given` or an earlier node. */
  predicate Ordered(given: seq<Name>, nodes: seq<Node>) {
    forall i, d :: 0 <= i < |nodes| && d in nodes[i].deps ==> d in given || d in Names(nodes[..i])
  }

  // ----- the loops ---------------------------------------------------------------------

  /**
   One layer of groups of at most `width`: it reads exactly the level below, in
   order.  The next level is shorter exactly when groups have more than one
   member, which is why the loops below need a fan-out of two.
   */
  method GroupLayer(level: seq<Name>, width: nat, layer: nat) returns (nodes: seq<Node>, next: seq<Name>)
    requires width >= 1 && |level| > 0
    ensures Reads(nodes) == level && Names(nodes) == next && Bounded(nodes, width)
    ensures forall k :: 0 <= k < |next| ==> next[k] == Join(layer, k)
    ensures NoneEmpty(nodes)
    ensures |next| > 0 && (|level| > 1 ==> (|next| < |level| <==> width >= 2))
  {
    hide Reads;
    NoGroups();
    nodes, next := [], [];
    var start := 0;
    while start < |level|
      invariant start == |next| * width && (|next| > 0 ==> start < |level| + width)
      invariant Names(nodes) == next && Bounded(nodes, width)
      invariant forall k :: 0 <= k < |next| ==> next[k] == Join(layer, k)
      invariant NoneEmpty(nodes)
      invariant Reads(nodes) == level[..if start < |level| then start else |level|]
      decreases |level| - start
    {
      var end := if start + width < |level| then start + width else |level|;
      var node := Node(Join(layer, |next|), level[start..end]);
      OneMoreGroup(level, nodes, start, end, node);
      nodes, next := nodes + [node], next + [node.name];
      start := start + width;
    }
    assert level[..|level|] == level;
    Shrinks(|next|, width, |level|);
  }

  lemma {:induction false} NoGroups()
    ensures Reads([]) == []
  {}

  lemma {:induction false} OneMoreGroup(level: seq<Name>, nodes: seq<Node>, start: nat, end: nat, node: Node)
    requires start <= end <= |level| && Reads(nodes) == level[..start] && node.deps == level[start..end]
    ensures Reads(nodes + [node]) == level[..end]
    ensures Names(nodes + [node]) == Names(nodes) + [node.name]
  {
    assert (nodes + [node])[..|nodes|] == nodes;
    assert level[..start] + level[start..end] == level[..end];
  }

  lemma {:induction false} Shrinks(k: nat, width: nat, n: nat)
    requires width >= 1 && k >= 1 && n <= k * width < n + width
    ensures n > 1 ==> (k < n <==> width >= 2)
  {
    assert (k - 1) * width < n;
    if width >= 2 && n > 1 {
      assert 2 * (k - 1) <= (k - 1) * width;
    }
    if width == 1 {
      assert k * width == k;
    }
  }

  /**
   The nodes below a level: they and the given children are read once each, except the level itself,
   which nothing reads yet.
   */
  ghost predicate Half(children: seq<Name>, nodes: seq<Node>, level: seq<Name>, layer: nat) {
    && Reads(nodes) + level == children + Names(nodes)
    && Ordered(children, nodes) && Distinct(Names(nodes))
    && (forall i :: 0 <= i < |nodes| ==> nodes[i].name.Join? && nodes[i].name.layer < layer && nodes[i].deps != [])
    && (nodes == [] ==> level == children)
    && (nodes != [] ==> |level| > 0 && level[|level| - 1] == nodes[|nodes| - 1].name)
  }

  lemma {:induction false} HalfGrows(children: seq<Name>, nodes: seq<Node>, level: seq<Name>, layer: nat,
          more: seq<Node>, next: seq<Name>)
    requires Half(children, nodes, level, layer) && Reads(more) == level && Names(more) == next && |next| > 0
    requires forall k :: 0 <= k < |next| ==> next[k] == Join(layer, k)
    requires NoneEmpty(more)
    ensures Half(children, nodes + more, next, layer + 1)
  {
    hide Reads;
    ReadsAppend(nodes, more);
    assert Names(nodes + more) == Names(nodes) + next;
    assert Reads(nodes + more) + next == children + Names(nodes + more);
    OrderedGrows(children, nodes, level, more);
    assert Distinct(Names(nodes) + next);
  }

  /** Nodes that read only the level above `nodes` may follow them. */
  lemma {:induction false} OrderedGrows(children: seq<Name>, nodes: seq<Node>, level: seq<Name>, more: seq<Node>)
    requires Ordered(children, nodes) && Reads(nodes) + level == children + Names(nodes) && Reads(more) == level
    ensures Ordered(children, nodes + more)
  {
    hide Reads;
    var all := nodes + more;
    forall i, d | 0 <= i < |all| && d in all[i].deps ensures d in children || d in Names(all[..i]) {
      if i < |nodes| {
        assert all[..i] == nodes[..i];
      } else {
        ReadsHolds(more, i - |nodes|, d);
        assert d in Reads(nodes) + level;
        assert d in children + Names(nodes);
        assert forall k :: 0 <= k < |nodes| ==> Names(nodes)[k] == Names(all[..i])[k];
      }
    }
  }

  lemma {:induction false} ReadsHolds(nodes: seq<Node>, i: nat, d: Name)
    requires i < |nodes| && d in nodes[i].deps
    ensures d in Reads(nodes)
  {
    if i < |nodes| - 1 {
      ReadsHolds(nodes[..|nodes| - 1], i, d);
    }
  }

  /**
   A fan-in tree over `children`: everything given or built is read exactly
   once, in order, except the root, which is last and read by nothing.
   */
  ghost predicate IsFanIn(children: seq<Name>, nodes: seq<Node>, root: Name) {
    && Reads(nodes) + [root] == children + Names(nodes)
    && Ordered(children, nodes) && Distinct(Names(nodes))
    && (nodes != [] ==> root == nodes[|nodes| - 1].name)
  }

  lemma {:induction false} HalfStarts(children: seq<Name>, width: nat)
    ensures Half(children, [], children, 0) && Bounded([], width)
  {}

  lemma {:induction false} BoundedSingle(node: Node, width: nat)
    requires |node.deps| <= width
    ensures Bounded([node], width)
  {}

  lemma {:induction false} BoundedAppend(a: seq<Node>, b: seq<Node>, width: nat)
    requires Bounded(a, width) && Bounded(b, width)
    ensures Bounded(a + b, width)
  {}

  lemma {:induction false} HalfEnds(children: seq<Name>, nodes: seq<Node>, level: seq<Name>, layer: nat)
    requires Half(children, nodes, level, layer) && |level| == 1
    ensures IsFanIn(children, nodes, level[0])
    ensures forall i :: 0 <= i < |nodes| ==> nodes[i].name.Join? && nodes[i].deps != []
  {
    assert level == [level[0]];
  }

  /** `_bench_fanin`: a tree above the children, or the only child itself. */
  method BenchFanIn(children: seq<Name>, fanout: nat) returns (added: seq<Node>, root: Name)
    requires children != [] && fanout >= 2
    ensures IsFanIn(children, added, root) && Bounded(added, fanout)
    ensures forall i :: 0 <= i < |added| ==> added[i].name.Join? && added[i].deps != []
  {
    hide Half, Reads, IsFanIn, Bounded;
    added := [];
    HalfStarts(children, fanout);
    var level := children;
    var layer := 0;
    while |level| > 1
      invariant |level| > 0 && Half(children, added, level, layer) && Bounded(added, fanout)
      decreases |level|
    {
      var nodes, next := GroupLayer(level, fanout, layer);
      HalfGrows(children, added, level, layer, nodes, next);
      BoundedAppend(added, nodes, fanout);
      added := added + nodes;
      level := next;
      layer := layer + 1;
    }
    root := level[0];
    HalfEnds(children, added, level, layer);
  }

  /** `_fan_in`: the last aggregator carries the prefix itself, and there always is one. */
  method ScaleFanIn(children: seq<Name>, fanout: int) returns (made: seq<Node>, root: Name)
    ensures IsFanIn(children, made, root) && root == Top
    ensures Bounded(made, if fanout >= 2 then fanout else if |children| > 2 then |children| else 2)
    ensures fanout < 2 ==> |made| == 1
  {
    var width: nat := if fanout >= 2 then fanout else if |children| > 2 then |children| else 2;
    hide Half, Reads, IsFanIn, Bounded;
    made := [];
    HalfStarts(children, width);
    var level := children;
    var layer := 0;
    while |level| > width
      invariant Half(children, made, level, layer) && Bounded(made, width)
      invariant fanout < 2 ==> made == [] && level == children
      decreases |level|
    {
      var nodes, next := GroupLayer(level, width, layer);
      HalfGrows(children, made, level, layer, nodes, next);
      BoundedAppend(made, nodes, width);
      made := made + nodes;
      level := next;
      layer := layer + 1;
    }
    root := Top;
    var last := Node(Top, level);
    TopClosesTree(children, made, level, layer);
    BoundedSingle(last, width);
    BoundedAppend(made, [last], width);
    made := made + [last];
  }

  lemma {:induction false} TopClosesTree(children: seq<Name>, nodes: seq<Node>, level: seq<Name>, layer: nat)
    requires Half(children, nodes, level, layer)
    ensures IsFanIn(children, nodes + [Node(Top, level)], Top)
  {
    var top := [Node(Top, level)];
    var all := nodes + top;
    assert top[..0] == [] && all[..|nodes|] == nodes;
    assert Reads(top) == level by {
      assert [] + level == level;
    }
    assert Names(all) == Names(nodes) + [Top];
    assert Reads(all) + [Top] == children + Names(all);
    OrderedGrows(children, nodes, level, top);
  }

  // ----- paths ----------------------------------------------------------------------------------

  predicate Uses(nodes: seq<Node>, a: Name, b: Name) {
    exists i :: 0 <= i < |nodes| && nodes[i].name == a && b in nodes[i].deps
  }

  ghost predicate IsPath(nodes: seq<Node>, path: seq<Name>, from: Name, to: Name) {
    && path != [] && path[0] == from && path[|path| - 1] == to
    && forall i :: 0 < i < |path| ==> Uses(nodes, path[i - 1], path[i])
  }

  /** Something read once is read by one node only. */
  lemma {:induction false} OneReader(nodes: seq<Node>, i: nat, j: nat, d: Name)
    requires i < j < |nodes| && d in nodes[i].deps && d in nodes[j].deps
    ensures !Distinct(Reads(nodes))
  {
    var most, last := nodes[..|nodes| - 1], nodes[|nodes| - 1];
    if j < |most| {
      OneReader(most, i, j, d);
      var a, b :| 0 <= a < b < |Reads(most)| && Reads(most)[a] == Reads(most)[b];
      assert Reads(nodes)[a] == Reads(nodes)[b];
    } else {
      ReadsHolds(most, i, d);
      var a :| 0 <= a < |Reads(most)| && Reads(most)[a] == d;
      var b :| 0 <= b < |last.deps| && last.deps[b] == d;
      assert Reads(nodes)[a] == d && Reads(nodes)[|Reads(most)| + b] == d;
    }
  }

  lemma {:induction false} ReadsFrom(nodes: seq<Node>, d: Name)
    requires d in Reads(nodes)
    ensures exists i :: 0 <= i < |nodes| && d in nodes[i].deps
  {
    if d !in nodes[|nodes| - 1].deps {
      ReadsFrom(nodes[..|nodes| - 1], d);
      var i :| 0 <= i < |nodes| - 1 && d in nodes[..|nodes| - 1][i].deps;
      assert d in nodes[i].deps;
    }
  }

  lemma {:induction false} RootUnread(children: seq<Name>, nodes: seq<Node>, root: Name)
    requires IsFanIn(children, nodes, root) && Distinct(children + Names(nodes))
    ensures Distinct(Reads(nodes)) && root !in Reads(nodes)
    ensures forall x :: x in children + Names(nodes) && x != root ==> x in Reads(nodes)
  {
    var all := Reads(nodes) + [root];
    assert Distinct(all);
    assert forall i :: 0 <= i < |Reads(nodes)| ==> Reads(nodes)[i] == all[i] && all[i] != all[|all| - 1];
    forall x | x in children + Names(nodes) && x != root ensures x in Reads(nodes) {
      assert x in all;
    }
  }

  /** In a fan-in over distinct names the root has no user and anything else has exactly one. */
  lemma {:induction false} UniqueUser(children: seq<Name>, nodes: seq<Node>, root: Name, a: Name, b: Name, x: Name)
    requires IsFanIn(children, nodes, root) && Distinct(children + Names(nodes))
    ensures !Uses(nodes, a, root)
    ensures Uses(nodes, a, x) && Uses(nodes, b, x) ==> a == b
    ensures x in children + Names(nodes) && x != root ==> exists u :: Uses(nodes, u, x)
  {
    RootUnread(children, nodes, root);
    hide IsFanIn, Reads, Distinct;
    if Uses(nodes, a, root) {
      var i :| 0 <= i < |nodes| && nodes[i].name == a && root in nodes[i].deps;
      ReadsHolds(nodes, i, root);
    }
    if Uses(nodes, a, x) && Uses(nodes, b, x) {
      var i :| 0 <= i < |nodes| && nodes[i].name == a && x in nodes[i].deps;
      var j :| 0 <= j < |nodes| && nodes[j].name == b && x in nodes[j].deps;
      if i < j {
        OneReader(nodes, i, j, x);
      } else if j < i {
        OneReader(nodes, j, i, x);
      }
    }
    if x in children + Names(nodes) && x != root {
      ReadsFrom(nodes, x);
      var i :| 0 <= i < |nodes| && x in nodes[i].deps;
      assert Uses(nodes, nodes[i].name, x);
    }
  }

  /** Where a name comes from: a child, or the position of its node. */
  function Position(nodes: seq<Node>, x: Name): (k: nat)
    ensures k <= |nodes|
    ensures k > 0 ==> nodes[k - 1].name == x
    ensures k == 0 ==> x !in Names(nodes)
  {
    if nodes == [] then 0
    else if nodes[|nodes| - 1].name == x then |nodes|
    else Position(nodes[..|nodes| - 1], x)
  }

  /** Climbing from a name to its user moves on in the list, so it ends at the root. */
  lemma {:induction false} PathExists(children: seq<Name>, nodes: seq<Node>, root: Name,
          x: Name) returns (path: seq<Name>)
    requires IsFanIn(children, nodes, root) && Distinct(children + Names(nodes)) && x in children + Names(nodes)
    ensures IsPath(nodes, path, root, x)
    decreases |nodes| - Position(nodes, x)
  {
    if x == root {
      return [x];
    }
    UniqueUser(children, nodes, root, x, x, x);
    var u :| Uses(nodes, u, x);
    UserIsLater(children, nodes, u, x);
    var up := PathExists(children, nodes, root, u);
    path := up + [x];
  }

  /** Distinct names: a node is found by its name, and no child is one. */
  lemma {:induction false} NameFinds(children: seq<Name>, nodes: seq<Node>, i: nat)
    requires Distinct(children + Names(nodes)) && i < |nodes|
    ensures Position(nodes, nodes[i].name) == i + 1 && nodes[i].name !in children
  {
    var all, x := children + Names(nodes), nodes[i].name;
    var m := Position(nodes, x);
    assert x == Names(nodes)[i];
    assert all[|children| + i] == x && all[|children| + (m - 1)] == x;
    assert forall c :: 0 <= c < |children| ==> all[c] == children[c] && all[c] != all[|children| + i];
  }

  lemma {:induction false} UserIsLater(children: seq<Name>, nodes: seq<Node>, u: Name, x: Name)
    requires Ordered(children, nodes) && Distinct(children + Names(nodes)) && Uses(nodes, u, x)
    ensures Position(nodes, x) < Position(nodes, u) && u in Names(nodes)
  {
    var i: nat :| 0 <= i < |nodes| && nodes[i].name == u && x in nodes[i].deps;
    NameFinds(children, nodes, i);
    assert u == Names(nodes)[i];
    var k := Position(nodes, x);
    if k > 0 {
      NameFinds(children, nodes, k - 1);
      assert x in Names(nodes[..i]);
      var j: nat :| 0 <= j < i && Names(nodes[..i])[j] == x;
      NameFinds(children, nodes, j);
    }
  }

  lemma {:induction false} PathUnique(children: seq<Name>, nodes: seq<Node>, root: Name, x: Name, p: seq<Name>,
          q: seq<Name>)
    requires IsFanIn(children, nodes, root) && Distinct(children + Names(nodes))
    requires IsPath(nodes, p, root, x) && IsPath(nodes, q, root, x)
    ensures p == q
    decreases |p|
  {
    if |p| > 1 {
      assert Uses(nodes, p[|p| - 2], x);
    }
    if |q| > 1 {
      assert Uses(nodes, q[|q| - 2], x);
    }
    var a, b := if |p| > 1 then p[|p| - 2] else x, if |q| > 1 then q[|q| - 2] else x;
    UniqueUser(children, nodes, root, a, b, x);
    UniqueUser(children, nodes, root, b, a, x);
    if |p| > 1 && |q| > 1 {
      assert IsPath(nodes, p[..|p| - 1], root, a);
      assert IsPath(nodes, q[..|q| - 1], root, a);
      PathUnique(children, nodes, root, a, p[..|p| - 1], q[..|q| - 1]);
      assert p == p[..|p| - 1] + [x] && q == q[..|q| - 1] + [x];
    }
  }

  /** Each child, and each aggregator, is reached from the root by exactly one path. */
  lemma {:induction false} ExactlyOnePath(children: seq<Name>, nodes: seq<Node>, root: Name, x: Name)
    requires IsFanIn(children, nodes, root) && Distinct(children + Names(nodes)) && x in children + Names(nodes)
    ensures exists path :: IsPath(nodes, path, root, x)
    ensures forall p, q :: IsPath(nodes, p, root, x) && IsPath(nodes, q, root, x) ==> p == q
  {
    var path := PathExists(children, nodes, root, x);
    forall p, q | IsPath(nodes, p, root, x) && IsPath(nodes, q, root, x) ensures p == q {
      PathUnique(children, nodes, root, x, p, q);
    }
  }

  // ----- the node lists ----------------------------------------------------------------------------------

  datatype Shape = Wide | Packages

  ghost predicate Reaches(nodes: seq<Node>, from: Name, to: Name) {
    exists path :: IsPath(nodes, path, from, to)
  }

  /** The nodes of one leaf each: named in order, and either free or reading the leaf before. */
  ghost predicate IsLeafList(leaves: seq<Node>, chained: bool) {
    forall i :: 0 <= i < |leaves| ==> leaves[i] == LeafNode(i, chained)
  }

  function LeafNode(i: nat, chained: bool): Node {
    Node(Leaf(i), if chained && i > 0 then [Leaf(i - 1)] else [])
  }

  /** The nodes of one package, the first of them reading the tail of the package before. */
  method OnePackage(nodes: seq<Node>, count: nat, tail: seq<Name>) returns (nodes': seq<Node>)
    requires IsLeafList(nodes, true) && tail == LeafNode(|nodes|, true).deps
    ensures |nodes'| == |nodes| + count && IsLeafList(nodes', true)
  {
    nodes' := nodes;
    var previous: seq<Name> := tail;
    var k := 0;
    while k < count
      invariant 0 <= k <= count && |nodes'| == |nodes| + k
      invariant IsLeafList(nodes', true) && previous == LeafNode(|nodes'|, true).deps
    {
      var name := Leaf(|nodes'|);
      nodes' := nodes' + [Node(name, previous)];
      previous := [name];
      k := k + 1;
    }
  }

  /** The per-package loops: packages of nearly equal size, each node reading the one before, across packages too. */
  method PackageNodes(size: nat) returns (nodes: seq<Node>, tails: seq<Name>)
    requires size >= 1
    ensures |nodes| == size && IsLeafList(nodes, true)
    ensures tails != [] && tails[|tails| - 1] == Leaf(size - 1) && Distinct(tails)
    ensures forall k :: 0 <= k < |tails| ==> tails[k].Leaf? && tails[k].index < size
  {
    hide PackageStart, LeafNode;
    var packages: nat := if size < 8 then size else 8;
    var base, extra := size / packages, size % packages;
    PackageSizes(size, packages, base, extra);
    nodes, tails := [], [];
    var package := 0;
    while package < packages
      invariant 0 <= package <= packages && |tails| == package
      invariant |nodes| == PackageStart(package, base, extra) && IsLeafList(nodes, true)
      invariant |nodes| == 0 <==> package == 0
      invariant package > 0 ==> tails[package - 1] == Leaf(|nodes| - 1)
      invariant Distinct(tails) && forall k :: 0 <= k < |tails| ==> tails[k].Leaf? && tails[k].index < |nodes|
    {
      var count := base + if package < extra then 1 else 0;
      LeafNodeDeps(|nodes|);
      nodes := OnePackage(nodes, count, if package > 0 then [tails[|tails| - 1]] else []);
      tails := tails + [Leaf(|nodes| - 1)];
      package := package + 1;
    }
  }

  lemma {:induction false} LeafNodeDeps(i: nat)
    ensures LeafNode(i, true).deps == if i > 0 then [Leaf(i - 1)] else []
  {}

  /** How many nodes the packages before `package` have: `base` each, one more for the first `extra`. */
  function PackageStart(package: nat, base: nat, extra: nat): nat {
    package * base + if package < extra then package else extra
  }

  lemma {:induction false} PackageSizes(size: nat, packages: nat, base: nat, extra: nat)
    requires 0 < packages <= size && base == size / packages && extra == size % packages
    ensures base >= 1 && PackageStart(0, base, extra) == 0 && PackageStart(packages, base, extra) == size
    ensures forall k: nat :: PackageStart(k + 1, base, extra)
                          == PackageStart(k, base, extra) + (base + if k < extra then 1 else 0)
  {
    forall k: nat ensures PackageStart(k + 1, base, extra)
                          == PackageStart(k, base, extra) + (base + if k < extra then 1 else 0)
    {
      assert (k + 1) * base == k * base + base;
    }
  }

  /**
   `bench_graph_nodes`: in every generated graph names are distinct,
   dependencies precede their users, no node reads more than the fan-out, and
   every node is reachable from `all`, the last one.
   */
  method BenchGraphNodes(shape: Shape, size: nat) returns (nodes: seq<Node>)
    requires size >= 1
    ensures |nodes| > size && forall i :: 0 <= i < size ==> nodes[i] == LeafNode(i, shape.Packages?)
    ensures nodes[|nodes| - 1].name == All
    ensures Distinct(Names(nodes)) && Ordered([], nodes) && Bounded(nodes, 32)
    ensures forall i :: 0 <= i < |nodes| ==> Reaches(nodes, All, nodes[i].name)
  {
    var tails: seq<Name>;
    if shape.Wide? {
      nodes := seq(size, i requires 0 <= i < size => LeafNode(i, false));
      tails := Names(nodes);
    } else {
      nodes, tails := PackageNodes(size);
    }
    ghost var leaves := nodes;
    var joins, root := BenchFanIn(tails, FANOUT);
    nodes := nodes + joins;
    nodes := nodes + [Node(All, [root])];
    AssembledInOrder(leaves, shape.Packages?, tails, joins, root);
    assert nodes == leaves + joins + [Node(All, [root])];
    forall i | 0 <= i < |nodes| ensures Reaches(nodes, All, nodes[i].name) {
      AssembledReaches(leaves, shape.Packages?, tails, joins, root, i);
    }
  }

  /** What the two shapes hand to the fan-in: some leaves, the last of them included, or all of them. */
  ghost predicate Assembled(leaves: seq<Node>, chained: bool, tails: seq<Name>, joins: seq<Node>, root: Name) {
    && leaves != [] && IsLeafList(leaves, chained) && IsFanIn(tails, joins, root) && Distinct(tails) && tails != []
    && (forall t :: t in tails ==> t.Leaf? && t.index < |leaves|)
    && (forall i :: 0 <= i < |joins| ==> joins[i].name.Join?)
    && (if chained then tails[|tails| - 1] == Leaf(|leaves| - 1) else tails == Names(leaves))
  }

  lemma {:induction false} AssembledInOrder(leaves: seq<Node>, chained: bool, tails: seq<Name>, joins: seq<Node>,
          root: Name)
    requires Assembled(leaves, chained, tails, joins, root)
    ensures var nodes := leaves + joins + [Node(All, [root])]; Distinct(Names(nodes)) && Ordered([], nodes)
  {
    var nodes := leaves + joins + [Node(All, [root])];
    hide IsFanIn;
    FanInOrdered(tails, joins, root);
    forall i, j | 0 <= i < j < |nodes| ensures Names(nodes)[i] != Names(nodes)[j] {
      if |leaves| <= i && j < |leaves| + |joins| {
        assert Names(joins)[i - |leaves|] != Names(joins)[j - |leaves|];
      }
    }
    forall i, d | 0 <= i < |nodes| && d in nodes[i].deps ensures d in Names(nodes[..i]) {
      if i < |leaves| {
        assert Names(nodes[..i])[i - 1] == d;
      } else {
        var k := if i < |leaves| + |joins| then i - |leaves| else |joins|;
        assert d in tails || d in Names(joins[..k]);
        AssembledPlace(leaves, chained, tails, joins, root, i, d);
      }
    }
  }

  lemma {:induction false} FanInOrdered(children: seq<Name>, nodes: seq<Node>, root: Name)
    requires IsFanIn(children, nodes, root)
    ensures Ordered(children, nodes) && Distinct(Names(nodes))
    ensures root in children || root in Names(nodes[..|nodes|])
  {
    assert nodes[..|nodes|] == nodes;
    assert (Reads(nodes) + [root])[|Reads(nodes)|] == root;
    assert root in children + Names(nodes);
  }

  /** A leaf, or an aggregator made before, stands earlier in the whole list. */
  lemma {:induction false} AssembledPlace(leaves: seq<Node>, chained: bool, tails: seq<Name>, joins: seq<Node>,
          root: Name, i: nat, d: Name)
    requires Assembled(leaves, chained, tails, joins, root) && |leaves| <= i <= |leaves| + |joins|
    requires d in tails || d in Names(joins[..i - |leaves|])
    ensures d in Names((leaves + joins + [Node(All, [root])])[..i])
  {
    var before := (leaves + joins + [Node(All, [root])])[..i];
    if d in tails {
      assert Names(before)[d.index] == d;
    } else {
      var k: nat :| 0 <= k < i - |leaves| && Names(joins[..i - |leaves|])[k] == d;
      assert Names(before)[|leaves| + k] == d;
    }
  }

  lemma {:induction false} PathThen(nodes: seq<Node>, a: Name, b: Name, c: Name)
    requires Reaches(nodes, a, b) && Uses(nodes, b, c)
    ensures Reaches(nodes, a, c)
  {
    var p :| IsPath(nodes, p, a, b);
    assert IsPath(nodes, p + [c], a, c);
  }

  /** Going down the chain of leaves. */
  lemma {:induction false} DownTheChain(nodes: seq<Node>, from: Name, n: nat, i: nat)
    requires i <= n < |nodes| && (forall k :: 0 <= k <= n ==> nodes[k] == LeafNode(k, true))
    requires Reaches(nodes, from, Leaf(n))
    ensures Reaches(nodes, from, Leaf(i))
    decreases n - i
  {
    if i < n {
      DownTheChain(nodes, from, n, i + 1);
      assert nodes[i + 1].name == Leaf(i + 1) && Leaf(i) in nodes[i + 1].deps;
      PathThen(nodes, from, Leaf(i + 1), Leaf(i));
    }
  }

  /** Everything in the fan-in tree is below `all`. */
  lemma {:induction false} TreeReached(leaves: seq<Node>, chained: bool, tails: seq<Name>, joins: seq<Node>,
          root: Name, x: Name)
    requires Assembled(leaves, chained, tails, joins, root) && x in tails + Names(joins)
    ensures Reaches(leaves + joins + [Node(All, [root])], All, x)
  {
    var nodes := leaves + joins + [Node(All, [root])];
    assert forall i :: 0 <= i < |joins| ==> Names(joins)[i].Join?;
    assert Distinct(tails + Names(joins));
    var p := PathExists(tails, joins, root, x);
    forall a, b | Uses(joins, a, b) ensures Uses(nodes, a, b) {
      var i :| 0 <= i < |joins| && joins[i].name == a && b in joins[i].deps;
      assert nodes[|leaves| + i] == joins[i];
    }
    assert nodes[|nodes| - 1] == Node(All, [root]) && Uses(nodes, All, root);
    var q := [All] + p;
    forall i | 0 < i < |q| ensures Uses(nodes, q[i - 1], q[i]) {
      if i > 1 {
        assert Uses(joins, p[i - 2], p[i - 1]);
      }
    }
    assert IsPath(nodes, q, All, x);
  }

  lemma {:induction false} AssembledReaches(leaves: seq<Node>, chained: bool, tails: seq<Name>, joins: seq<Node>,
          root: Name, i: nat)
    requires Assembled(leaves, chained, tails, joins, root) && i <= |leaves| + |joins|
    ensures var nodes := leaves + joins + [Node(All, [root])]; Reaches(nodes, All, nodes[i].name)
  {
    var nodes := leaves + joins + [Node(All, [root])];
    if i == |leaves| + |joins| {
      assert IsPath(nodes, [All], All, All);
    } else if i >= |leaves| {
      assert Names(joins)[i - |leaves|] == nodes[i].name;
      TreeReached(leaves, chained, tails, joins, root, nodes[i].name);
    } else if chained {
      TreeReached(leaves, chained, tails, joins, root, Leaf(|leaves| - 1));
      DownTheChain(nodes, All, |leaves| - 1, i);
    } else {
      assert Names(leaves)[i] == Leaf(i);
      TreeReached(leaves, chained, tails, joins, root, Leaf(i));
    }
  }
}
