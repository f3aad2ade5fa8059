/**
 A workspace on which builds forget: two independent targets that print their
 source, built, edited, and then built in part, or aborted half way.
 */
module Witnesses {
  import opened Graph
  import opened SourceText
  import opened Scheduler
  import opened Traversals
  import opened Actions
  import opened Planner
  import opened Settling
  import opened Incremental
  import opened PartialBuilds
  import opened Engine
  import opened Letters
  import opened Wrappers

  /** Actions that print the semantic text of their source. */
  function Echo(): Payload -> string {
    (p: Payload) => p.srcHash.data
  }

  lemma EchoRuns(ws: Workspace, files: Files, n: Name)
    requires n in ws.targets && ws.targets[n].deps == [] && ws.render == Echo()
    ensures KnownDeps(ws, n)
    ensures var src := Read(files, ws.targets[n].src);
      RunAction(ws, files, n) ==
      if SourceFails(ws, files, n) then Failed
      else Ran(Semantic(if src.Some? then Universal(src.value) else ""))
  {
  }

  function TwoCopies(): Workspace {
    Workspace(map[0 := Target("build", "a", [], "oa", {}, true, []), 1 := Target("build", "b", [], "ob", {}, true, [])],
      "toolchain", {}, Echo(), NoReads)
  }

  /** Its four paths are distinct, it has no dependencies and no generated sources. */
  lemma TwoCopiesFacts()
    ensures ValidManifest(TwoCopies()) && ListedWriters(TwoCopies()) && Acyclic(DepGraph(TwoCopies()))
    ensures Buildable(TwoCopies())
    ensures "a" != "b" && "a" != "oa" && "a" != "ob" && "b" != "oa" && "b" != "ob" && "oa" != "ob"
    ensures forall n :: n in TwoCopies().targets ==> WriterOf(TwoCopies(), n).None?
  {
    PathsDiffer();
    NothingWritten();
    NoDeps();
    hide StrictReach, TwoCopies, DeclaredWriters, ReadGraph, DepGraph;
    NoEdgesAcyclic(DepGraph(TwoCopies()));
    ListedIsDeclared(TwoCopies());
    DeclaredIsBuildable(TwoCopies());
  }

  lemma PathsDiffer()
    ensures "a" != "b" && "a" != "oa" && "a" != "ob" && "b" != "oa" && "b" != "ob" && "oa" != "ob"
  {
    assert "a"[0] != "b"[0] && "oa"[1] != "ob"[1] && |"oa"| == |"ob"| == 2 && |"a"| == |"b"| == 1;
  }

  lemma NothingWritten()
    ensures DistinctOuts(TwoCopies())
    ensures forall a, b :: a in TwoCopies().targets && b in TwoCopies().targets ==>
        TwoCopies().targets[a].src != TwoCopies().targets[b].out
  {
    PathsDiffer();
  }

  lemma NoDeps()
    ensures forall n :: n in DepGraph(TwoCopies()) ==> DepGraph(TwoCopies())[n] == {}
    ensures Closed(DepGraph(TwoCopies()))
  {
  }

  /** What the four files hold. */
  ghost predicate Holds(files: Files, a: string, b: string, oa: string, ob: string) {
    && "a" in files && files["a"] == a && "b" in files && files["b"] == b
    && "oa" in files && files["oa"] == oa && "ob" in files && files["ob"] == ob
  }

  ghost predicate HoldsSources(files: Files, a: string, b: string) {
    "a" in files && files["a"] == a && "b" in files && files["b"] == b
  }

  lemma Edit(files: Files, a: string, b: string, oa: string, ob: string, a': string, b': string)
    requires Holds(files, a, b, oa, ob)
    ensures Holds(files["a" := a']["b" := b'], a', b', oa, ob)
  {
    TwoCopiesFacts();
  }

  lemma Rewrite(files: Files, a: string, b: string, oa: string, ob: string, out: string)
    requires Holds(files, a, b, oa, ob)
    ensures Holds(files["oa" := out], a, b, out, ob)
  {
    TwoCopiesFacts();
  }

  lemma WriteBoth(files: Files, a: string, b: string, oa: string, ob: string)
    requires HoldsSources(files, a, b)
    ensures HoldsSources(files["oa" := oa], a, b) && Holds(files["oa" := oa]["ob" := ob], a, b, oa, ob)
  {
    TwoCopiesFacts();
  }

  lemma CopyRuns(files: Files, n: Name)
    requires n in TwoCopies().targets && TwoCopies().targets[n].src in files
    requires Letter(files[TwoCopies().targets[n].src])
    ensures KnownDeps(TwoCopies(), n)
    ensures RunAction(TwoCopies(), files, n) == Ran(files[TwoCopies().targets[n].src] + "\n")
  {
    hide Semantic, Universal, AsksToFail, Letter;
    EchoRuns(TwoCopies(), files, n);
    LetterText(files[TwoCopies().targets[n].src]);
  }

  lemma CopyIsClean(files: Files, n: Name)
    requires n in TwoCopies().targets && TwoCopies().targets[n].src in files
    requires Letter(files[TwoCopies().targets[n].src])
    ensures Closed(DepGraph(TwoCopies()))
    ensures Clean(TwoCopies(), files, n) == Ran(files[TwoCopies().targets[n].src] + "\n")
  {
    TwoCopiesFacts();
    LeafClean(TwoCopies(), files, n);
    CopyRuns(files, n);
  }

  /** One copy: from any world whose source for it is a letter. */
  lemma CopyOne(w: World, n: Name)
    requires ValidStore(TwoCopies(), w) && n in TwoCopies().targets && TwoCopies().targets[n].src in w.files
    requires Letter(w.files[TwoCopies().targets[n].src])
    ensures KnownDeps(TwoCopies(), n)
    ensures var (next, status) := ExecuteAction(TwoCopies(), w, CACHED, n);
      && Succeeds(status) && ValidStore(TwoCopies(), next) && next.saved == w.saved
      && next.files ==
        w.files[TwoCopies().targets[n].out := w.files[TwoCopies().targets[n].src] + "\n"]
  {
    hide ValidStore, RunAction, Letter, TwoCopies;
    CopyRuns(w.files, n);
    ActionEffect(TwoCopies(), w, CACHED, n);
  }

  lemma RunOne(w: World, n: Name)
    requires ValidStore(TwoCopies(), w) && n in TwoCopies().targets && TwoCopies().targets[n].src in w.files
    requires Letter(w.files[TwoCopies().targets[n].src])
    ensures Known(TwoCopies(), [n]) && RunAll(TwoCopies(), w, CACHED, [n]).Some?
    ensures var v := RunAll(TwoCopies(), w, CACHED, [n]).value;
      && ValidStore(TwoCopies(), v) && v.saved == w.saved
      && v.files == w.files[TwoCopies().targets[n].out := w.files[TwoCopies().targets[n].src] + "\n"]
  {
    hide ValidStore, ExecuteAction, Letter, TwoCopies;
    var none: seq<Name> := [];
    assert none + [n] == [n];
    CopyOne(w, n);
    RunAllNext(TwoCopies(), w, CACHED, none, n);
  }

  lemma RunBoth(w: World, a: string, b: string)
    requires ValidStore(TwoCopies(), w) && HoldsSources(w.files, a, b) && Letter(a) && Letter(b)
    ensures Known(TwoCopies(), [0, 1]) && RunAll(TwoCopies(), w, CACHED, [0, 1]).Some?
    ensures var v := RunAll(TwoCopies(), w, CACHED, [0, 1]).value;
      ValidStore(TwoCopies(), v) && Holds(v.files, a, b, a + "\n", b + "\n")
  {
    hide ValidStore, ExecuteAction, Letter, Holds;
    Paths();
    RunOne(w, 0);
    var v := RunAll(TwoCopies(), w, CACHED, [0]).value;
    WriteBoth(w.files, a, b, a + "\n", b + "\n");
    CopyOne(v, 1);
    assert [0] + [1] == [0, 1];
    RunAllNext(TwoCopies(), w, CACHED, [0], 1);
  }

  lemma Paths()
    ensures TwoCopies().targets.Keys == {0, 1}
    ensures TwoCopies().targets[0].src == "a" && TwoCopies().targets[0].out == "oa"
    ensures TwoCopies().targets[1].src == "b" && TwoCopies().targets[1].out == "ob"
  {
  }

  lemma RunFirst(w: World, a: string, b: string, oa: string, ob: string)
    requires ValidStore(TwoCopies(), w) && Holds(w.files, a, b, oa, ob) && Letter(a)
    ensures Known(TwoCopies(), [0]) && RunAll(TwoCopies(), w, CACHED, [0]).Some?
    ensures var v := RunAll(TwoCopies(), w, CACHED, [0]).value;
      && ValidStore(TwoCopies(), v) && v.saved == w.saved && Holds(v.files, a, b, a + "\n", ob)
  {
    hide ValidStore, RunAll, Letter, TwoCopies;
    Paths();
    RunOne(w, 0);
    Rewrite(w.files, a, b, oa, ob, a + "\n");
  }

  // ----- the worlds ----------------------------------------------------------------------------

  function Unbuilt(): World {
    World(map["a" := "x", "b" := "x"], map[], map[], None, map[])
  }

  lemma UnbuiltFacts()
    ensures ValidStore(TwoCopies(), Unbuilt()) && HoldsSources(Unbuilt().files, "x", "x") && Letter("x") && Letter("y")
  {
    TwoCopiesFacts();
    EmptyStoreIsValid(TwoCopies(), Unbuilt().files, None, map[]);
  }

  /** Everything is built. */
  function Built(): World {
    UnbuiltFacts();
    RunBoth(Unbuilt(), "x", "x");
    SaveState(TwoCopies(), RunAll(TwoCopies(), Unbuilt(), CACHED, [0, 1]).value, {})
  }

  /** Both sources are edited, and the first target is built. */
  function Edited(): World {
    Built().(files := Built().files["a" := "y"]["b" := "y"])
  }

  function HalfBuilt(): World {
    EditedFacts();
    SaveState(TwoCopies(), RunAll(TwoCopies(), Edited(), CACHED, [0]).value, {})
  }

  /** Instead, the second source is edited to fail, so a build stops there; then both edits are taken back. */
  function Broken(): World {
    Built().(files := Built().files["a" := "y"]["b" := "FAIL"])
  }

  function Stopped(): World {
    BrokenFacts();
    RunAll(TwoCopies(), Broken(), CACHED, [0]).value.(cache := Broken().cache)
  }

  function PutBack(): World {
    Stopped().(files := Stopped().files["a" := "x"]["b" := "x"])
  }

  lemma BuiltFacts()
    ensures ValidStore(TwoCopies(), Built()) && Built().saved == Some(SourceHashes(TwoCopies(), Built()))
    ensures Holds(Built().files, "x", "x", "x\n", "x\n")
  {
    hide ValidStore, RunAll, SourceHashes, Holds, HoldsSources;
    UnbuiltFacts();
    RunBoth(Unbuilt(), "x", "x");
    StoreAfter(TwoCopies(), RunAll(TwoCopies(), Unbuilt(), CACHED, [0, 1]).value);
    assert "x" + "\n" == "x\n";
  }

  lemma StoreAfter(ws: Workspace, v: World)
    requires ValidStore(ws, v)
    ensures ValidStore(ws, SaveState(ws, v, {}))
    ensures SaveState(ws, v, {}).saved == Some(SourceHashes(ws, SaveState(ws, v, {})))
  {
  }

  lemma EditedFacts()
    ensures ValidStore(TwoCopies(), Edited()) && Edited().saved == Built().saved
    ensures Holds(Edited().files, "y", "y", "x\n", "x\n")
    ensures Known(TwoCopies(), [0]) && RunAll(TwoCopies(), Edited(), CACHED, [0]).Some?
  {
    hide Built, RunAll, Holds, ValidCache, TwoCopies;
    BuiltFacts();
    UnbuiltFacts();
    Edit(Built().files, "x", "x", "x\n", "x\n", "y", "y");
    RunFirst(Edited(), "y", "y", "x\n", "x\n");
  }

  lemma BrokenFacts()
    ensures ValidStore(TwoCopies(), Broken()) && Broken().saved == Built().saved
    ensures Holds(Broken().files, "y", "FAIL", "x\n", "x\n")
    ensures Known(TwoCopies(), [0]) && RunAll(TwoCopies(), Broken(), CACHED, [0]).Some?
    ensures var v := RunAll(TwoCopies(), Broken(), CACHED, [0]).value;
      Holds(v.files, "y", "FAIL", "y\n", "x\n") && v.saved == Built().saved
  {
    hide Built, RunAll, Holds, ValidCache, TwoCopies;
    BuiltFacts();
    UnbuiltFacts();
    Edit(Built().files, "x", "x", "x\n", "x\n", "y", "FAIL");
    assert "y" + "\n" == "y\n";
    RunFirst(Broken(), "y", "FAIL", "x\n", "x\n");
  }

  lemma PutBackFacts()
    ensures Holds(PutBack().files, "x", "x", "y\n", "x\n") && PutBack().saved == Built().saved
    ensures Stopped().dynamic == map[]
  {
    hide Built, Broken, RunAll, Holds;
    BrokenFacts();
    Edit(Stopped().files, "y", "FAIL", "y\n", "x\n", "x", "x");
    NeverRecorded();
  }

  lemma NeverRecorded()
    ensures Known(TwoCopies(), [0]) && RunAll(TwoCopies(), Broken(), CACHED, [0]).Some?
    ensures RunAll(TwoCopies(), Broken(), CACHED, [0]).value.dynamic == map[]
  {
    hide RunAll, Holds;
    UnbuiltFacts();
    RunBoth(Unbuilt(), "x", "x");
    BrokenFacts();
    RunDynamic(TwoCopies(), Broken(), [0]);
    RunDynamic(TwoCopies(), Unbuilt(), [0, 1]);
  }

  // ----- a build of one target -------------------------------------------------------------------

  const ALL: Request := Request({0, 1}, {"build"}, {}, false)
  const FIRST: Request := Request({0}, {"build"}, {}, false)

  lemma SavedOld()
    ensures Built().saved.Some? && "a" in Built().saved.value && "b" in Built().saved.value
    ensures Built().saved.value["a"] == Hashed(Sha("x")) && Built().saved.value["b"] == Hashed(Sha("x"))
  {
    hide Built;
    BuiltFacts();
    SavedMatches(TwoCopies(), Built());
    assert TwoCopies().targets[0].src == "a" && TwoCopies().targets[1].src == "b";
    assert "a" in PrimarySources(TwoCopies()) && "b" in PrimarySources(TwoCopies());
  }

  lemma FirstSelected()
    ensures Closed(DepGraph(TwoCopies())) && FIRST.roots <= TwoCopies().targets.Keys
    ensures PlanOf(TwoCopies(), Edited(), FIRST, None).selected == {0}
  {
    hide PlanOf, Affected, Built, ChangedTargets;
    TwoCopiesFacts();
    EditedFacts();
    SavedOld();
    assert TwoCopies().targets[0].src == "a";
    EditChangesTarget(TwoCopies(), Edited(), FIRST, 0);
    LeafPlan(TwoCopies(), Edited(), FIRST, None, 0);
  }

  lemma AllSelected()
    ensures Closed(DepGraph(TwoCopies())) && ALL.roots <= TwoCopies().targets.Keys
    ensures PlanOf(TwoCopies(), Unbuilt(), ALL, None).selected == {0, 1}
  {
    hide PlanOf;
    TwoCopiesFacts();
    assert TwoCopies().targets.Keys == {0, 1};
    FirstPlanIsAll(TwoCopies(), Unbuilt(), ALL, None);
  }

  lemma OneNotRequested()
    ensures Closed(DepGraph(TwoCopies())) && FIRST.roots <= TwoCopies().targets.Keys
    ensures !Requested(TwoCopies(), FIRST.roots, 1)
  {
    TwoCopiesFacts();
    LeafClosure(DepGraph(TwoCopies()), 0);
  }

  lemma NoDepsSchedule(sel: set<Name>, order: seq<Name>)
    requires sel <= {0, 1} && NoDup(order) && Elems(order) == sel
    ensures IsSchedule(Induced(DepGraph(TwoCopies()), sel), sel, order)
  {
    var g := Induced(DepGraph(TwoCopies()), sel);
    forall i | 0 <= i < |order| ensures Placed(g, order, i) {
      assert order[i] in Elems(order);
    }
  }

  lemma BuildsRun()
    ensures SuccessfulBuild(TwoCopies(), Unbuilt(), {0, 1}, CACHED, [0, 1], {}, Built())
    ensures SuccessfulBuild(TwoCopies(), Edited(), {0}, CACHED, [0], {}, HalfBuilt())
  {
    hide Edited, RunAll, IsSchedule, Holds;
    UnbuiltFacts();
    RunBoth(Unbuilt(), "x", "x");
    EditedFacts();
    assert Elems([0]) == {0} && Elems([0, 1]) == {0, 1};
    NoDepsSchedule({0}, [0]);
    NoDepsSchedule({0, 1}, [0, 1]);
  }

  /**
   After a full build both sources are edited and only the first target is
   built.  The second target is left out, its output still shows the old text,
   and the next plan for everything is empty.
   */
  lemma PartialBuildWitness()
    ensures Buildable(TwoCopies()) && ALL.roots <= TwoCopies().targets.Keys && FIRST.roots <= ALL.roots
    ensures var ws := TwoCopies();
      && SuccessfulBuild(ws, Unbuilt(), PlanOf(ws, Unbuilt(), ALL, None).selected, CACHED, [0, 1], {}, Built())
      && PlanOf(ws, Edited(), FIRST, None).selected == {0}
      && SuccessfulBuild(ws, Edited(), {0}, CACHED, [0], {}, HalfBuilt())
      && "ob" in HalfBuilt().files && HalfBuilt().files["ob"] == "x\n"
      && Clean(ws, HalfBuilt().files, 1) == Ran("y\n")
      && PlanOf(ws, HalfBuilt(), ALL, None).selected == {}
  {
    hide Edited, PlanOf, Clean, Buildable, ValidStore, SuccessfulBuild, Acyclic, Built, HalfBuilt, ListedWriters;
    var ws := TwoCopies();
    TwoCopiesFacts();
    UnbuiltFacts();
    AllSelected();
    EditedFacts();
    FirstSelected();
    BuildsRun();
    CopyIsClean(Edited().files, 1);
    assert ws.targets[1].src == "b" && ws.targets[1].out == "ob";
    assert "y" + "\n" == "y\n" && "x\n"[0] != "y\n"[0];
    OneNotRequested();
    PartialBuildForgetsEdits(ws, Edited(), FIRST, None, CACHED, [0], {}, HalfBuilt(), 1, ALL, None);
  }

  // ----- a build that aborts ---------------------------------------------------------------------

  lemma FailText()
    ensures AsksToFail("FAIL")
  {
    var s := "FAIL";
    assert Universal(s[4..]) == "";
    assert Universal(s[3..]) == "L" by { assert s[3..][1..] == s[4..]; }
    assert Universal(s[2..]) == "IL" by { assert s[2..][1..] == s[3..]; }
    assert Universal(s[1..]) == "AIL" by { assert s[1..][1..] == s[2..]; }
    assert Universal(s) == s;
    assert s[0..4] == s;
    assert FailAt(s, 0, 0);
  }

  lemma BrokenFailures()
    ensures Closed(DepGraph(TwoCopies()))
    ensures 1 in FailedSet(Induced(DepGraph(TwoCopies()), {0, 1}), Failures(TwoCopies(), Broken(), CACHED, {0, 1}))
  {
    hide Broken, AsksToFail, Acyclic, ListedWriters, RunAll, ReadsMore;
    var ws, g := TwoCopies(), Induced(DepGraph(TwoCopies()), {0, 1});
    TwoCopiesFacts();
    BrokenFacts();
    FailText();
    assert ws.targets[1].src == "b";
    assert TextOf(ws, Broken().files, {0, 1}, 1) == Some(Some("FAIL"));
    assert 1 in Failures(ws, Broken(), CACHED, {0, 1});
    hide Failures;
    LeafFails(g, Failures(ws, Broken(), CACHED, {0, 1}), 1);
  }

  lemma LeafFails(g: Graph, fails: set<Name>, n: Name)
    requires n in g && g[n] == {} && n in fails
    ensures n in FailedSet(g, fails)
  {
    LeafNoCycle(g, n);
    forall m ensures !StrictReach(g, n, m) {
      if StrictReach(g, n, m) {
        var _ := FirstEdge(g, n, m);
      }
    }
  }

  /**
   After a full build the first source is edited, and the second to fail.  The
   next build rewrites the first output and aborts at the second target; with
   both edits taken back, the first output is stale and the next plan for
   everything is empty.
   */
  lemma AbortWitness()
    ensures ValidManifest(TwoCopies()) && ALL.roots <= TwoCopies().targets.Keys
    ensures StoppedRight(TwoCopies(), Broken(), Stopped(), CACHED, {0, 1}, false, Aborted(1))
    ensures Holds(PutBack().files, "x", "x", "y\n", "x\n") && Clean(TwoCopies(), PutBack().files, 0) == Ran("x\n")
    ensures PlanOf(TwoCopies(), PutBack(), ALL, None).selected == {}
  {
    hide Broken, Stopped, Built, PutBack, PlanOf, Clean, StoppedRight, Acyclic, ListedWriters;
    TwoCopiesFacts();
    Paths();
    UnbuiltFacts();
    AbortReached();
    PutBackFacts();
    CopyIsClean(PutBack().files, 0);
    assert "x" + "\n" == "x\n";
    NothingLeft();
  }

  lemma AbortReached()
    ensures ValidManifest(TwoCopies())
    ensures StoppedRight(TwoCopies(), Broken(), Stopped(), CACHED, {0, 1}, false, Aborted(1))
  {
    hide Broken, RunAll, Failures, FailedSet, ToldRight, DepFirstIn, Holds;
    TwoCopiesFacts();
    BrokenFacts();
    BrokenFailures();
    AbortIsRight(TwoCopies(), Broken(), CACHED, {0, 1}, 1);
    HalfwayOrder();
    assert AbortedRun(TwoCopies(), Broken(), {0, 1}, CACHED, [0], Stopped());
  }

  lemma HalfwayOrder()
    ensures DepFirstIn(TwoCopies(), {0, 1}, [0])
  {
    assert Elems([0]) == {0} && [0][0] in Elems([0]);
    assert Placed(Induced(DepGraph(TwoCopies()), {0, 1}), [0], 0);
  }

  lemma NothingLeft()
    ensures Closed(DepGraph(TwoCopies())) && ALL.roots <= TwoCopies().targets.Keys
    ensures PlanOf(TwoCopies(), PutBack(), ALL, None).selected == {}
  {
    hide PlanOf, Built, Stopped, PutBack, ChangedTargets, Holds;
    TwoCopiesFacts();
    Paths();
    PutBackFacts();
    SavedOld();
    SourcesBack();
    RevertedSources(TwoCopies(), PutBack(), PutBack(), ALL, None);
    NothingChangedNothingSelected(TwoCopies(), PutBack(), ALL, None);
  }

  lemma SourcesBack()
    ensures Reverted(TwoCopies(), PutBack(), PutBack())
  {
    hide Built, Stopped, TwoCopies;
    PutBackFacts();
    SavedOld();
    AllSourcesAre();
    assert PutBack().dynamic == map[];
  }

  lemma AllSourcesAre()
    ensures AllSources(TwoCopies(), map[]) == {"a", "b"}
  {
    Paths();
    var ws := TwoCopies();
    assert ws.targets[0].src in PrimarySources(ws) && ws.targets[1].src in PrimarySources(ws);
    assert DeclaredSources(ws) == {} && DynamicSources(map[]) == {};
  }

  lemma {:induction false} RunDynamic(ws: Workspace, w: World, order: seq<Name>)
    requires Known(ws, order) && RunAll(ws, w, CACHED, order).Some?
    ensures RunAll(ws, w, CACHED, order).value.dynamic == w.dynamic
    decreases |order|
  {
    if |order| > 0 {
      RunDynamic(ws, w, order[..|order| - 1]);
    }
  }
}
