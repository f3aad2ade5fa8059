/**
 What a manifest must satisfy for incremental builds to equal clean ones.

 The loader accepts manifests in which two targets write the same file, or one
 target's source is another's output.  The promise holds exactly when outputs are
 distinct, and whoever reads a generated source depends, directly or not, on a
 reader of it that lists the writer as a dependency.  A dependency that merely
 orders the two is not enough: when the generated file is lost, only listed
 dependencies are repaired.
 */
module Manifests {
  import opened Graph
  import opened Traversals
  import opened Actions
  import opened Planner
  import opened Settling
  import opened Incremental
  import opened PartialBuilds
  import opened Letters
  import opened SourceText
  import opened Wrappers

  // ----- an order for everything ------------------------------------------------------

  /** Some target left over has all of its dependencies in the order already. */
  lemma NextInOrder(g: Graph, order: seq<Name>) returns (n: Name)
    requires Closed(g) && Acyclic(g) && Elems(order) < g.Keys
    ensures n in g && n !in Elems(order) && g[n] <= Elems(order)
  {
    var rest := g.Keys - Elems(order);
    var m :| m in g.Keys && m !in Elems(order);
    assert m in rest;
    AcyclicIffNoCycleReached(g);
    if forall a {:trigger HasSuccessorIn(g, rest, a)} :: a in rest ==> HasSuccessorIn(g, rest, a) {
      NoSinkReachesCycle(g, rest, m);
      n := m;
    } else {
      n :| n in rest && !HasSuccessorIn(g, rest, n);
      forall b | b in g[n] ensures b in Elems(order) {
        assert Edge(g, n, b);
      }
    }
  }

  lemma {:induction false} FullOrder(g: Graph, before: seq<Name>) returns (order: seq<Name>)
    requires Closed(g) && Acyclic(g) && NoDup(before) && DepFirst(g, before) && Elems(before) <= g.Keys
    ensures IsSchedule(g, g.Keys, order) && before <= order
    decreases g.Keys - Elems(before)
  {
    if Elems(before) == g.Keys {
      order := before;
    } else {
      var n := NextInOrder(g, before);
      var longer := before + [n];
      ElemsAppend(before, [n]);
      assert Elems([n]) == {n};
      forall i | 0 <= i < |longer| ensures Placed(g, longer, i) {
        assert longer[..i] == before[..i];
        if i < |before| {
          assert Placed(g, before, i);
        } else {
          assert before[..i] == before;
        }
      }
      order := FullOrder(g, longer);
    }
  }

  // ----- actions that tell when they ran --------------------------------------------------

  /** Every action prints `x`, but `a` prints whether it had a source (`f`) or none (`e`). */
  function Probe(a: Name): Payload -> string {
    (p: Payload) => if p.target != a then "x" else if p.srcHash.data == "\n" then "e" else "f"
  }

  ghost predicate AllLetters(files: Files) {
    forall p :: p in files ==> Letter(files[p])
  }

  lemma ProbePrints(ws: Workspace, a: Name, n: Name, text: Option<string>, depData: seq<string>)
    requires ws.render == Probe(a) && n in ws.targets && |depData| == |ws.targets[n].deps|
    requires text.Some? ==> Letter(text.value)
    ensures ActionOutput(ws, n, text, depData) == if n != a then "x" else if text.None? then "e" else "f"
  {
    EmptyText();
    if text.Some? {
      LetterText(text.value);
    }
  }

  lemma ProbeRuns(ws: Workspace, a: Name, files: Files, n: Name)
    requires ws.render == Probe(a) && AllLetters(files) && KnownDeps(ws, n) && DepsPresent(ws, files, n)
    ensures RunAction(ws, files, n) == Ran(if n != a then "x" else if ws.targets[n].src !in files then "e" else "f")
  {
    var src := ws.targets[n].src;
    if src in files {
      LetterText(files[src]);
    }
    hide AsksToFail, Letter, ActionOutput;
    ProbePrints(ws, a, n, Read(files, src), DepData(ws, files, n));
  }

  ghost predicate OutsPresent(ws: Workspace, files: Files, done: set<Name>) {
    forall n :: n in ws.targets && n in done ==> ws.targets[n].out in files
  }

  /** A run of probes in progress: nothing has failed, and no file has gone. */
  ghost predicate Probing(ws: Workspace, w: World, order: seq<Name>) {
    && Known(ws, order) && RunAll(ws, w, CACHED, order).Some?
    && var v := RunAll(ws, w, CACHED, order).value;
    && ValidStore(ws, v) && AllLetters(v.files) && w.files.Keys <= v.files.Keys
    && OutsPresent(ws, v.files, Elems(order))
  }

  lemma ProbeStep(ws: Workspace, a: Name, v: World, n: Name)
    requires ws.render == Probe(a) && ValidStore(ws, v) && AllLetters(v.files)
    requires KnownDeps(ws, n) && DepsPresent(ws, v.files, n)
    ensures var (next, status) := ExecuteAction(ws, v, CACHED, n);
      && Succeeds(status) && ValidStore(ws, next) && AllLetters(next.files)
      && next.files == v.files[ws.targets[n].out :=
        if n != a then "x" else if ws.targets[n].src !in v.files then "e" else "f"]
  {
    hide ValidStore, RunAction, IsHit, ExecuteAction;
    ProbeRuns(ws, a, v.files, n);
    ActionEffect(ws, v, CACHED, n);
  }

  lemma ProbeNext(ws: Workspace, a: Name, w: World, sel: set<Name>, before: seq<Name>, n: Name)
    requires Closed(DepGraph(ws)) && ws.render == Probe(a) && Probing(ws, w, before) && RepairClosed(ws, w.files, sel)
    requires DepFirstIn(ws, sel, before + [n])
    ensures Probing(ws, w, before + [n]) && n in ws.targets
    ensures RunAll(ws, w, CACHED, before + [n]).value.files ==
      RunAll(ws, w, CACHED, before).value.files[ws.targets[n].out :=
        if n != a then "x"
        else if ws.targets[n].src !in RunAll(ws, w, CACHED, before).value.files then "e" else "f"]
  {
    var order := before + [n];
    var v := RunAll(ws, w, CACHED, before).value;
    assert order[|order| - 1] == n && order[..|order| - 1] == before;
    LastIsPlaced(ws, sel, order);
    DepEdge(ws, n);
    assert DepsPresent(ws, v.files, n) by {
      forall d | d in ws.targets[n].deps ensures ws.targets[d].out in v.files {
        assert d in sel ==> d in Induced(DepGraph(ws), sel)[n];
      }
    }
    hide ValidStore, AllLetters, DepFirstIn, RunAll, ExecuteAction, RepairClosed;
    ProbeStep(ws, a, v, n);
    RunAllNext(ws, w, CACHED, before, n);
    ElemsAppend(before, [n]);
    assert Elems([n]) == {n};
  }

  lemma {:induction false} ProbeRun(ws: Workspace, a: Name, w: World, sel: set<Name>, order: seq<Name>)
    requires Closed(DepGraph(ws)) && ws.render == Probe(a) && ValidStore(ws, w) && AllLetters(w.files)
    requires RepairClosed(ws, w.files, sel) && DepFirstIn(ws, sel, order)
    ensures Probing(ws, w, order)
    decreases |order|
  {
    if |order| == 0 {
      assert Elems(order) == {};
    } else {
      hide Probing, ValidStore, AllLetters, RepairClosed, Closed;
      var before, n := order[..|order| - 1], order[|order| - 1];
      DepFirstInPrefix(ws, sel, order);
      assert before + [n] == order;
      hide DepFirstIn;
      ProbeRun(ws, a, w, sel, before);
      ProbeNext(ws, a, w, sel, before, n);
    }
  }

  /** Run first, without a source, `a` prints `e`; nothing after it writes its output again. */
  lemma {:induction false} ProbeFirst(ws: Workspace, a: Name, w: World, sel: set<Name>, order: seq<Name>)
    requires ValidManifest(ws) && ws.render == Probe(a) && ValidStore(ws, w) && AllLetters(w.files)
    requires RepairClosed(ws, w.files, sel) && DepFirstIn(ws, sel, order)
    requires |order| > 0 && order[0] == a && a in ws.targets && ws.targets[a].src !in w.files
    ensures Probing(ws, w, order)
    ensures var files := RunAll(ws, w, CACHED, order).value.files;
      ws.targets[a].out in files && files[ws.targets[a].out] == "e"
    decreases |order|
  {
    hide Probing, ValidStore, AllLetters, RepairClosed, DepFirstIn, RunAll;
    var before, n := order[..|order| - 1], order[|order| - 1];
    DepFirstInPrefix(ws, sel, order);
    assert before + [n] == order;
    ProbeRun(ws, a, w, sel, order);
    ProbeRun(ws, a, w, sel, before);
    ProbeNext(ws, a, w, sel, before, n);
    if |order| == 1 {
      RunNone(ws, w);
      assert before == [];
    } else {
      ProbeFirst(ws, a, w, sel, before);
      FirstIsOnce(ws, sel, order);
      assert ws.targets[n].out != ws.targets[a].out;
    }
  }

  lemma RunNone(ws: Workspace, w: World)
    ensures Known(ws, []) && RunAll(ws, w, CACHED, []) == Some(w)
  {
  }

  lemma FirstIsOnce(ws: Workspace, sel: set<Name>, order: seq<Name>)
    requires DepFirstIn(ws, sel, order) && |order| > 1
    ensures order[0] != order[|order| - 1]
  {
  }

  /** What a clean build of probes gives, where it gives anything. */
  lemma ProbeClean(ws: Workspace, a: Name, files: Files, n: Name)
    requires Closed(DepGraph(ws)) && ws.render == Probe(a) && n in ws.targets && Clean(ws, files, n).Ran?
    ensures n != a ==> Clean(ws, files, n).data == "x"
    ensures n == a ==> Clean(ws, files, n).data in {"e", "f"}
    ensures n == a && WriterOf(ws, a).Some? ==> Clean(ws, files, n).data == "f"
  {
    var all := ws.targets.Keys;
    ProbeCleanUnfold(ws, a, files, n);
    match WriterOf(ws, n)
    case None =>
    case Some(b) =>
      assert b in ReadGraph(ws)[n];
      RanReads(ws, files, all, n, b);
      if n == a {
        NotOwnWriter(ws, n, b);
        ProbeCleanUnfold(ws, a, files, b);
        assert Letter("x");
        LetterText("x");
      }
  }

  lemma ProbeCleanUnfold(ws: Workspace, a: Name, files: Files, n: Name)
    requires Closed(DepGraph(ws)) && ws.render == Probe(a) && n in ws.targets && Clean(ws, files, n).Ran?
    ensures !ReachesCycle(Reads(ws, ws.targets.Keys), n) && TextOf(ws, files, ws.targets.Keys, n).Some?
    ensures var text := TextOf(ws, files, ws.targets.Keys, n).value;
      Clean(ws, files, n).data ==
      if n != a then "x" else if Semantic(if text.Some? then Universal(text.value) else "") == "\n" then "e" else "f"
  {
    if ReachesCycle(Reads(ws, ws.targets.Keys), n) {
      CycleCrashes(ws, files, ws.targets.Keys, n);
    }
    SettleUnfold(ws, files, ws.targets.Keys, n);
  }

  lemma NotOwnWriter(ws: Workspace, n: Name, b: Name)
    requires n in ws.targets && WriterOf(ws, n) == Some(b) && !ReachesCycle(Reads(ws, ws.targets.Keys), n)
    ensures b != n
  {
    if b == n {
      assert Edge(Reads(ws, ws.targets.Keys), n, n);
      EdgeStrict(Reads(ws, ws.targets.Keys), n, n);
      ReachRefl(Reads(ws, ws.targets.Keys), n);
    }
  }

  // ----- two builds, and a lost file between them ----------------------------------------------

  function FullRequest(ws: Workspace): Request {
    Request(ws.targets.Keys, set n | n in ws.targets :: ws.targets[n].kind, {}, false)
  }

  function BareWorld(): World {
    World(map[], map[], map[], None, map[])
  }

  lemma FullRequestIsFull(ws: Workspace)
    requires Closed(DepGraph(ws))
    ensures FullScope(ws, FullRequest(ws))
  {
    ReachSetIsClosed(DepGraph(ws), ws.targets.Keys);
  }

  /** A workspace just after a successful build of everything. */
  ghost predicate JustBuilt(ws: Workspace, w: World) {
    && ValidStore(ws, w) && AllLetters(w.files) && OutsPresent(ws, w.files, ws.targets.Keys)
    && w.saved == Some(SourceHashes(ws, w))
  }

  lemma ProbeBuild(ws: Workspace, a: Name, w: World, sel: set<Name>, order: seq<Name>) returns (w': World)
    requires Closed(DepGraph(ws)) && ws.render == Probe(a) && ValidStore(ws, w) && AllLetters(w.files)
    requires sel <= ws.targets.Keys && sel != {} && RepairClosed(ws, w.files, sel)
    requires IsSchedule(Induced(DepGraph(ws), sel), sel, order)
    ensures DepFirstIn(ws, sel, order) && Probing(ws, w, order)
    ensures SuccessfulBuild(ws, w, sel, CACHED, order, {}, w')
    ensures w' == SaveState(ws, RunAll(ws, w, CACHED, order).value, {})
    ensures sel == ws.targets.Keys ==> JustBuilt(ws, w')
  {
    hide ValidStore, AllLetters, RepairClosed, RunAll;
    assert IsSchedule(Induced(DepGraph(ws), sel), sel, order);
    ScheduleIsDepFirstIn(ws, sel, sel, order);
    ProbeRun(ws, a, w, sel, order);
    w' := SaveState(ws, RunAll(ws, w, CACHED, order).value, {});
    SavedStore(ws, RunAll(ws, w, CACHED, order).value);
  }

  lemma SavedStore(ws: Workspace, v: World)
    requires ValidStore(ws, v)
    ensures ValidStore(ws, SaveState(ws, v, {}))
    ensures SaveState(ws, v, {}).saved == Some(SourceHashes(ws, SaveState(ws, v, {})))
  {
  }

  lemma FirstProbe(ws: Workspace, a: Name) returns (e: Change, w: World)
    requires Closed(DepGraph(ws)) && Acyclic(DepGraph(ws)) && ws.render == Probe(a) && ws.targets.Keys != {}
    ensures e.Build? && Next(ws, BareWorld(), e, w) && JustBuilt(ws, w)
  {
    hide SuccessfulBuild, PlanOf, FullScope, Acyclic, JustBuilt, IsSchedule, Probing, DepFirstIn, RunAll;
    var all, none := ws.targets.Keys, [];
    InducedClosed(DepGraph(ws), all);
    InducedAcyclic(DepGraph(ws), all);
    NothingFirst(Induced(DepGraph(ws), all));
    var order := FullOrder(Induced(DepGraph(ws), all), none);
    EmptyStoreIsValid(ws, map[], None, map[]);
    AllIsRepaired(ws, map[]);
    w := ProbeBuild(ws, a, BareWorld(), all, order);
    FullRequestIsFull(ws);
    FirstPlanIsAll(ws, BareWorld(), FullRequest(ws), None);
    e := Build(FullRequest(ws), None, ws, false, CACHED, order, {});
  }

  lemma NothingFirst(g: Graph)
    ensures NoDup<Name>([]) && DepFirst(g, []) && Elems<Name>([]) == {}
  {
  }

  /** A reader of the source of `a`, below `a` or itself, with no other reader of it below. */
  lemma LowestReader(ws: Workspace, a: Name) returns (u: Name)
    requires Closed(DepGraph(ws)) && Acyclic(DepGraph(ws)) && a in ws.targets
    ensures u in ws.targets && Reach(DepGraph(ws), a, u) && ws.targets[u].src == ws.targets[a].src
    ensures forall m :: m in ws.targets && StrictReach(DepGraph(ws), u, m) ==> ws.targets[m].src != ws.targets[a].src
    decreases Below(DepGraph(ws), a)
  {
    var g := DepGraph(ws);
    if m :| m in ws.targets && StrictReach(g, a, m) && ws.targets[m].src == ws.targets[a].src {
      BelowLess(g, a, m);
      u := LowestReader(ws, m);
      StrictIsReach(g, a, m);
      ReachTrans(g, a, m, u);
    } else {
      u := a;
      ReachRefl(g, a);
    }
  }

  lemma BelowLess(g: Graph, a: Name, m: Name)
    requires Acyclic(g) && m in g && StrictReach(g, a, m)
    ensures Below(g, m) < Below(g, a)
  {
    forall x | x in Below(g, m) ensures x in Below(g, a) {
      StrictTrans(g, a, m, x);
    }
    assert m in Below(g, a) && m !in Below(g, m);
  }

  /** The lost file of `b`, which `a` reads, is the only change. */
  lemma LostIsChanged(ws: Workspace, w: World, b: Name, a: Name)
    requires JustBuilt(ws, w) && b in ws.targets && a in ws.targets && ws.targets[a].src == ws.targets[b].out
    ensures var w2 := w.(files := w.files - {ws.targets[b].out});
      !Cold(w2) && ChangedSources(ws, w2, {}) == {ws.targets[b].out}
  {
    var gen := ws.targets[b].out;
    var w2 := w.(files := w.files - {gen});
    assert gen in PrimarySources(ws) && gen in AllSources(ws, w.dynamic) && gen in w.files;
    assert gen in w2.saved.value && w2.saved.value[gen] == HashOf(w.files, gen);
    forall p | p in AllSources(ws, w2.dynamic) && p != gen ensures p !in ChangedSources(ws, w2, {}) {
      assert w2.saved.value[p] == HashOf(w.files, p);
    }
  }

  /**
   With the catalog, a lost generated source selects what depends on its readers, and its writer only as
   a repair.  A lowest reader that does not list the writer has nothing selected below it.
   */
  lemma LostPlan(ws: Workspace, w: World, b: Name, a: Name)
    requires ValidManifest(ws) && JustBuilt(ws, w) && b in ws.targets && a in ws.targets
    requires ws.targets[a].src == ws.targets[b].out && b !in ws.targets[a].deps
    requires forall m :: m in ws.targets && StrictReach(DepGraph(ws), a, m) ==> ws.targets[m].src != ws.targets[a].src
    ensures var w2 := w.(files := w.files - {ws.targets[b].out});
      var s := PlanOf(ws, w2, FullRequest(ws), Some(BuildCatalog(ws))).selected;
      a in s && s <= ws.targets.Keys && RepairClosed(ws, w2.files, s) && Induced(DepGraph(ws), s)[a] == {}
  {
    hide ChangedTargets, PlanOf, BuildCatalog, JustBuilt, Repaired, ReachSet, CoReachSet, StrictReach, Affected;
    var gen, r, c := ws.targets[b].out, FullRequest(ws), Some(BuildCatalog(ws));
    var w2 := w.(files := w.files - {gen});
    LostTargets(ws, w, b, a);
    ChangedRootSelected(ws, w2, r, c, a);
    PlanParts(ws, w2, r, c);
    var above := CoReachSet(DepGraph(ws), PrimaryUsers(ws, {gen}));
    LostAffected(ws, w2, r, c, gen);
    LostRepair(ws, w, b, ws.targets.Keys * above + {b});
    PlanIsLeast(ws, w2, r, c, ws.targets.Keys * above + {b});
    forall d | d in ws.targets[a].deps ensures d !in ws.targets.Keys * above + {b} {
      NoReaderBelow(ws, gen, a, b, d);
    }
  }

  lemma LostTargets(ws: Workspace, w: World, b: Name, a: Name)
    requires JustBuilt(ws, w) && b in ws.targets && a in ws.targets && ws.targets[a].src == ws.targets[b].out
    ensures var w2 := w.(files := w.files - {ws.targets[b].out});
      && w2.saved.Some?
      && ChangedTargets(ws, w2, FullRequest(ws), Some(BuildCatalog(ws))) == PrimaryUsers(ws, {ws.targets[b].out})
  {
    LostIsChanged(ws, w, b, a);
    FreshCatalogAgrees(ws, ws, {ws.targets[b].out});
  }

  lemma LostAffected(ws: Workspace, w: World, r: Request, c: Option<Catalog>, gen: Path)
    requires Closed(DepGraph(ws)) && r.roots <= ws.targets.Keys && !r.force && w.saved.Some?
    requires ChangedTargets(ws, w, r, c) == PrimaryUsers(ws, {gen})
    ensures PlanOf(ws, w, r, c).affected <= CoReachSet(DepGraph(ws), PrimaryUsers(ws, {gen}))
  {
  }

  lemma LostRepair(ws: Workspace, w: World, b: Name, s: set<Name>)
    requires DistinctOuts(ws) && JustBuilt(ws, w) && b in ws.targets && b in s
    ensures RepairClosed(ws, w.files - {ws.targets[b].out}, s)
  {
    OthersPresent(ws, w, b);
  }

  lemma OthersPresent(ws: Workspace, w: World, b: Name)
    requires DistinctOuts(ws) && JustBuilt(ws, w) && b in ws.targets
    ensures forall n :: n in ws.targets && n != b ==> ws.targets[n].out in w.files - {ws.targets[b].out}
  {
  }

  lemma NoReaderBelow(ws: Workspace, gen: Path, a: Name, b: Name, d: Name)
    requires Closed(DepGraph(ws)) && a in ws.targets && ws.targets[a].src == gen && d in ws.targets[a].deps
    requires b !in ws.targets[a].deps
    requires forall m :: m in ws.targets && StrictReach(DepGraph(ws), a, m) ==> ws.targets[m].src != gen
    ensures d !in CoReachSet(DepGraph(ws), PrimaryUsers(ws, {gen})) && d != b
  {
    var g := DepGraph(ws);
    if d in CoReachSet(g, PrimaryUsers(ws, {gen})) {
      var m :| m in PrimaryUsers(ws, {gen}) && Reach(g, d, m);
      assert Edge(g, a, d);
      EdgeThenReach(g, a, d, m);
    }
  }

  /** The build after the loss runs the reader first, without its source. */
  lemma LostBuild(ws: Workspace, w: World, b: Name, a: Name) returns (e: Change, w3: World)
    requires ValidManifest(ws) && Acyclic(DepGraph(ws)) && ws.render == Probe(a) && JustBuilt(ws, w)
    requires b in ws.targets && a in ws.targets && ws.targets[a].src == ws.targets[b].out && b !in ws.targets[a].deps
    requires forall m :: m in ws.targets && StrictReach(DepGraph(ws), a, m) ==> ws.targets[m].src != ws.targets[a].src
    ensures e.Build? && Next(ws, w.(files := w.files - {ws.targets[b].out}), e, w3)
    ensures ws.targets[a].out in w3.files && w3.files[ws.targets[a].out] == "e"
  {
    hide PlanOf, FullScope, Acyclic, SuccessfulBuild, Probing, IsSchedule, DepFirstIn, RunAll, SourceHashes,
        BuildCatalog, JustBuilt;
    var w2 := w.(files := w.files - {ws.targets[b].out});
    var s := PlanOf(ws, w2, FullRequest(ws), Some(BuildCatalog(ws))).selected;
    LostPlan(ws, w, b, a);
    var g := Induced(DepGraph(ws), s);
    InducedClosed(DepGraph(ws), s);
    InducedAcyclic(DepGraph(ws), s);
    LeafFirst(g, a);
    var order := FullOrder(g, [a]);
    assert order[0] == [a][0];
    LostStore(ws, w, ws.targets[b].out);
    w3 := ProbeBuild(ws, a, w2, s, order);
    ProbeFirst(ws, a, w2, s, order);
    FullRequestIsFull(ws);
    e := Build(FullRequest(ws), Some(BuildCatalog(ws)), ws, false, CACHED, order, {});
  }

  lemma LostStore(ws: Workspace, w: World, p: Path)
    requires JustBuilt(ws, w)
    ensures ValidStore(ws, w.(files := w.files - {p})) && AllLetters(w.files - {p})
  {
  }

  lemma LeafFirst(g: Graph, a: Name)
    requires a in g && g[a] == {}
    ensures NoDup([a]) && DepFirst(g, [a]) && Elems([a]) <= g.Keys
  {
    assert Placed(g, [a], 0);
  }

  // ----- the exact condition -------------------------------------------------------------------

  function Rendering(ws: Workspace, render: Payload -> string): Workspace {
    ws.(render := render)
  }

  predicate NeverBuilt(w: World) {
    w.cache == map[] && w.cas == map[] && w.saved == None
  }

  /**
   After every build of every history that starts unbuilt, outputs are what a
   from-scratch build gives, as long as no source changed at an abort is put back.
   */
  ghost predicate EveryBuildIsClean(ws: Workspace)
    requires Closed(DepGraph(ws))
  {
    forall worlds: seq<World>, es: seq<Change>, i: nat ::
      History(ws, worlds, es) && Heeded(ws, worlds, es) && NeverBuilt(worlds[0]) && i < |es| && es[i].Build? ==>
        UpToDate(ws, worlds[i + 1].files)
  }

  lemma RenderingKeeps(ws: Workspace, render: Payload -> string)
    ensures var vs := Rendering(ws, render);
      && DepGraph(vs) == DepGraph(ws) && (DistinctOuts(ws) <==> DistinctOuts(vs))
      && (DeclaredWriters(ws) <==> DeclaredWriters(vs))
  {
    assert DepGraph(ws) == DepGraph(Rendering(ws, render));
    if DeclaredWriters(ws) {
      SameTargetsDeclare(ws, Rendering(ws, render));
    }
    if DeclaredWriters(Rendering(ws, render)) {
      SameTargetsDeclare(Rendering(ws, render), ws);
    }
  }

  lemma SameTargetsDeclare(ws: Workspace, vs: Workspace)
    requires ws.targets == vs.targets && DepGraph(ws) == DepGraph(vs) && DeclaredWriters(ws)
    ensures DeclaredWriters(vs)
  {
    hide Declares, DepGraph;
    forall a, b | a in vs.targets && b in vs.targets && vs.targets[a].src == vs.targets[b].out
      ensures Declares(vs, a, b)
    {
      SameDeclares(ws, vs, a, b);
    }
  }

  lemma SameDeclares(ws: Workspace, vs: Workspace, a: Name, b: Name)
    requires ws.targets == vs.targets && DepGraph(ws) == DepGraph(vs) && a in ws.targets && Declares(ws, a, b)
    ensures Declares(vs, a, b)
  {
    hide Reach, DepGraph;
    var u :| Lister(ws, a, b, u);
    assert Lister(vs, a, b, u);
  }

  /** Declared writers and distinct outputs are enough, for manifests with cycles too: those are never built. */
  lemma DeclaredIsClean(ws: Workspace)
    requires ValidManifest(ws) && DeclaredWriters(ws)
    ensures EveryBuildIsClean(ws)
  {
    forall worlds: seq<World>, es: seq<Change>, i: nat |
      History(ws, worlds, es) && Heeded(ws, worlds, es) && NeverBuilt(worlds[0]) && i < |es| && es[i].Build?
      ensures UpToDate(ws, worlds[i + 1].files)
    {
      IncrementalEqualsClean(ws, worlds, es, i);
    }
  }

  /** Two targets that write one file: the first build of probes already is not clean. */
  lemma SharedOutBreaks(ws: Workspace, a: Name, b: Name)
    requires Closed(DepGraph(ws)) && Acyclic(DepGraph(ws)) && ws.render == Probe(a)
    requires a in ws.targets && b in ws.targets && a != b && ws.targets[a].out == ws.targets[b].out
    ensures !EveryBuildIsClean(ws)
  {
    hide Next, EveryBuildIsClean, Clean, Acyclic, ValidStore, AllLetters;
    var e, w := FirstProbe(ws, a);
    if EveryBuildIsClean(ws) {
      LastIsClean(ws, [BareWorld(), w], [e]);
      assert ws.targets[a].out in w.files;
      ProbeClean(ws, a, w.files, a);
      ProbeClean(ws, a, w.files, b);
    }
  }

  lemma LastIsClean(ws: Workspace, worlds: seq<World>, es: seq<Change>)
    requires Closed(DepGraph(ws)) && EveryBuildIsClean(ws) && |worlds| == |es| + 1 && |es| > 0
    requires worlds[0] == BareWorld() && es[|es| - 1].Build? && forall i :: 0 <= i < |es| ==> !es[i].Abort?
    requires forall i :: 0 <= i < |es| ==> Next(ws, worlds[i], es[i], worlds[i + 1])
    ensures UpToDate(ws, worlds[|es|].files)
  {
    hide Next, UpToDate, Unreverted;
    forall i | 0 <= i < |es| ensures Tainted(ws, worlds, es, i) == {} {
      NoAbortNoTaint(ws, worlds, es, i);
    }
    forall i | 0 <= i < |es| ensures Unreverted(ws, worlds[i], {}) {
      NothingReverted(ws, worlds[i]);
    }
    assert Heeded(ws, worlds, es) && History(ws, worlds, es);
    assert es[|es| - 1].Build? && worlds[|es| - 1 + 1] == worlds[|es|];
  }

  lemma NothingReverted(ws: Workspace, w: World)
    ensures Unreverted(ws, w, {})
  {
  }

  /**
   A generated source whose reader is not tied to the writer as `DeclaredWriters`
   asks: build everything, lose the generated file, build again.
   */
  lemma UndeclaredBreaks(ws: Workspace, a: Name, b: Name)
    requires ValidManifest(ws) && Acyclic(DepGraph(ws)) && a in ws.targets && b in ws.targets
    requires ws.targets[a].src == ws.targets[b].out && forall u :: !Lister(ws, a, b, u)
    ensures exists u :: !EveryBuildIsClean(Rendering(ws, Probe(u)))
  {
    var u := LowestReader(ws, a);
    assert !Lister(ws, a, b, u);
    var vs := Rendering(ws, Probe(u));
    RenderingKeeps(ws, Probe(u));
    LowestBreaks(vs, u, b);
  }

  lemma LowestBreaks(ws: Workspace, a: Name, b: Name)
    requires ValidManifest(ws) && Acyclic(DepGraph(ws)) && ws.render == Probe(a)
    requires b in ws.targets && a in ws.targets && ws.targets[a].src == ws.targets[b].out && b !in ws.targets[a].deps
    requires forall m :: m in ws.targets && StrictReach(DepGraph(ws), a, m) ==> ws.targets[m].src != ws.targets[a].src
    ensures !EveryBuildIsClean(ws)
  {
    hide Next, EveryBuildIsClean, Clean, Acyclic, JustBuilt, StrictReach;
    var e1, w1 := FirstProbe(ws, a);
    var w2 := w1.(files := w1.files - {ws.targets[b].out});
    DropIsNext(ws, w1, b);
    var e3, w3 := LostBuild(ws, w1, b, a);
    if EveryBuildIsClean(ws) {
      var worlds, es := [BareWorld(), w1, w2, w3], [e1, DropOutput(b), e3];
      forall i | 0 <= i < |es| ensures Next(ws, worlds[i], es[i], worlds[i + 1]) {
        assert i == 0 || i == 1 || i == 2;
      }
      LastIsClean(ws, worlds, es);
      ProbeClean(ws, a, w3.files, a);
    }
  }

  lemma DropIsNext(ws: Workspace, w: World, b: Name)
    requires Closed(DepGraph(ws)) && b in ws.targets
    ensures Next(ws, w, DropOutput(b), w.(files := w.files - {ws.targets[b].out}))
  {
  }

  /**
   Exactly which manifests keep the promise, over every way actions may print and
   every history: those with distinct outputs in which whoever reads a generated
   source depends on a reader of it that lists the writer.
   */
  lemma CleanBuildsExact(ws: Workspace)
    requires Closed(DepGraph(ws)) && Acyclic(DepGraph(ws))
    ensures forall render :: Closed(DepGraph(Rendering(ws, render)))
    ensures DistinctOuts(ws) && DeclaredWriters(ws) <==> forall render :: EveryBuildIsClean(Rendering(ws, render))
  {
    hide EveryBuildIsClean, DeclaredWriters, Acyclic, Closed;
    forall render ensures Closed(DepGraph(Rendering(ws, render))) {
      RenderingKeeps(ws, render);
    }
    if !DistinctOuts(ws) {
      var a, b :| a in ws.targets && b in ws.targets && ws.targets[a].out == ws.targets[b].out && a != b;
      RenderingKeeps(ws, Probe(a));
      SharedOutBreaks(Rendering(ws, Probe(a)), a, b);
    } else if !DeclaredWriters(ws) {
      var a, b := Undeclared(ws);
      UndeclaredBreaks(ws, a, b);
    } else {
      forall render ensures EveryBuildIsClean(Rendering(ws, render)) {
        RenderingKeeps(ws, render);
        DeclaredIsClean(Rendering(ws, render));
      }
    }
  }

  lemma Undeclared(ws: Workspace) returns (a: Name, b: Name)
    requires !DeclaredWriters(ws)
    ensures a in ws.targets && b in ws.targets && ws.targets[a].src == ws.targets[b].out
    ensures forall u :: !Lister(ws, a, b, u)
  {
    a, b :| a in ws.targets && b in ws.targets && ws.targets[a].src == ws.targets[b].out && !Declares(ws, a, b);
  }

  /** A manifest with a cycle never sees a full-scope build succeed. */
  lemma CyclicIsNeverBuilt(ws: Workspace, worlds: seq<World>, es: seq<Change>, i: nat)
    requires Closed(DepGraph(ws)) && !Acyclic(DepGraph(ws)) && History(ws, worlds, es) && worlds[0].saved.None?
    requires i < |es|
    ensures !es[i].Build?
  {
    assert Next(ws, worlds[i], es[i], worlds[i + 1]);
    SavedIsAcyclic(ws, worlds, es, i);
    if es[i].Build? {
      FirstBuildIsAcyclic(ws, worlds[i], es[i], worlds[i + 1]);
    }
  }

  // ----- a chain of three ------------------------------------------------------------------------

  /** Target 0 writes the source of target 2, which depends on it only through target 1. */
  function Chain(middle: Path): Workspace {
    Workspace(map[0 := Target("build", "s", [], "gen", {}, true, []),
                  1 := Target("build", middle, [0], "o1", {}, true, []),
                  2 := Target("build", "gen", [1], "o2", {}, true, [])], "toolchain", {}, Probe(0), NoReads)
  }

  /** Such a chain keeps the promise exactly when the target in the middle reads the generated source too. */
  lemma ChainNeedsReader(middle: Path)
    requires middle != "o1" && middle != "o2"
    ensures DistinctOuts(Chain(middle)) && !ListedWriters(Chain(middle))
    ensures DeclaredWriters(Chain(middle)) <==> middle == "gen"
  {
    ChainFacts(middle);
    assert Chain(middle).targets[2].src == Chain(middle).targets[0].out;
    if middle == "gen" {
      ChainDeclares(middle);
    } else {
      ChainMisses(middle);
    }
  }

  lemma ChainDeclares(middle: Path)
    requires middle == "gen"
    ensures DeclaredWriters(Chain(middle))
  {
    hide Reach, DepGraph;
    var ws := Chain(middle);
    ChainFacts(middle);
    forall a, b | a in ws.targets && b in ws.targets && ws.targets[a].src == ws.targets[b].out
      ensures Declares(ws, a, b)
    {
      assert Lister(ws, a, b, 1);
    }
  }

  lemma ChainMisses(middle: Path)
    requires middle != "gen"
    ensures !DeclaredWriters(Chain(middle))
  {
    var ws := Chain(middle);
    assert ws.targets[2].src == ws.targets[0].out;
    assert !Declares(ws, 2, 0);
  }

  lemma ChainFacts(middle: Path)
    ensures Reach(DepGraph(Chain(middle)), 2, 1) && Reach(DepGraph(Chain(middle)), 1, 1)
    ensures "gen" != "o1" && "gen" != "o2" && "o1" != "o2" && "s" != "gen" && "s" != "o1" && "s" != "o2"
  {
    assert Edge(DepGraph(Chain(middle)), 2, 1);
    EdgeStrict(DepGraph(Chain(middle)), 2, 1);
    StrictIsReach(DepGraph(Chain(middle)), 2, 1);
    ReachRefl(DepGraph(Chain(middle)), 1);
    assert |"gen"| == 3 && |"o1"| == |"o2"| == 2 && "o1"[1] != "o2"[1] && |"s"| == 1;
  }
}
