/**
 Builds that leave something out.

 Saving the state writes the hashes of all sources, whatever was built, so an
 edit that a build did not act on is forgotten.  These are the exact conditions
 under which that shows, for partial builds and for builds with failures, and a
 workspace on which it does.
 */
module PartialBuilds {
  import opened Graph
  import opened Actions
  import opened Planner
  import opened Incremental
  import opened Settling
  import opened Wrappers

  /** The actions of `done` succeeded, dependencies first, and the state was saved. */
  ghost predicate SavedRun(ws: Workspace, w: World, done: set<Name>, o: Options, order: seq<Name>,
          evicted: set<Digest>, w': World) {
    && DepFirstIn(ws, done, order) && Elems(order) == done && Known(ws, order)
    && RunAll(ws, w, o, order).Some?
    && w' == SaveState(ws, RunAll(ws, w, o, order).value, evicted)
  }

  lemma SavedFrame(ws: Workspace, w: World, done: set<Name>, o: Options, order: seq<Name>, evicted: set<Digest>,
          w': World)
    requires ValidManifest(ws) && ValidStore(ws, w) && SavedRun(ws, w, done, o, order, evicted, w')
    ensures Frame(ws, w, w'.(saved := w.saved), done)
  {
    RunFrame(ws, w, o, order);
  }

  /** An output outside what was built, and what it ought to be, survive a run unchanged. */
  lemma OutsideSurvives(ws: Workspace, w: World, done: set<Name>, o: Options, order: seq<Name>, evicted: set<Digest>,
          w': World, n: Name)
    requires ValidManifest(ws) && ValidStore(ws, w) && SavedRun(ws, w, done, o, order, evicted, w')
    requires n in ws.targets && n !in done
    ensures SameFile(w.files, w'.files, ws.targets[n].out)
    ensures Clean(ws, w'.files, n) == Clean(ws, w.files, n)
  {
    SavedFrame(ws, w, done, o, order, evicted, w');
    CleanSurvives(ws, w, w'.(saved := w.saved), done, n);
    OutsideOuts(ws, done, n);
  }

  /**
   When a build leaves the workspace up to date: exactly when the existing
   outputs it did not build were clean before it started.
   */
  lemma UpToDateAfterIff(ws: Workspace, w: World, done: set<Name>, o: Options, order: seq<Name>, evicted: set<Digest>,
          w': World)
    requires Buildable(ws) && ValidStore(ws, w) && SavedRun(ws, w, done, o, order, evicted, w')
    requires WellRead(ws, w.files, done)
    ensures UpToDate(ws, w'.files) <==> CleanOutside(ws, w.files, done)
  {
    hide Clean, Settle, ValidStore, WellRead, Acyclic, Frame, SettledBy;
    if CleanOutside(ws, w.files, done) {
      RunSettles(ws, w, o, done, order);
      RunNeedsRepair(ws, w, o, done, order);
      SettledIsUpToDate(ws, w, RunAll(ws, w, o, order).value, done);
    }
    if UpToDate(ws, w'.files) {
      forall n | n in ws.targets && n !in done && ws.targets[n].out in w.files
        ensures Clean(ws, w.files, n) == Ran(w.files[ws.targets[n].out])
      {
        OutsideSurvives(ws, w, done, o, order, evicted, w', n);
      }
    }
  }

  /** Right after the state was saved, no source counts as changed and an unforced plan is empty. */
  lemma NothingChangedAfterBuild(ws: Workspace, v: World, evicted: set<Digest>, r: Request, c: Option<Catalog>)
    requires Closed(DepGraph(ws)) && r.roots <= ws.targets.Keys && r.explicit == {} && !r.force && ws.targets != map[]
    ensures PlanOf(ws, SaveState(ws, v, evicted), r, c).selected == {}
  {
    JustSaved(ws, SaveState(ws, v, evicted), r, c);
    NothingChangedNothingSelected(ws, SaveState(ws, v, evicted), r, c);
  }

  /**
   What was not built is forgotten: a stale output stays as it is, the workspace is not up to date, and
   no unforced plan selects anything before another edit.
   */
  lemma Forgotten(ws: Workspace, w: World, done: set<Name>, o: Options, order: seq<Name>, evicted: set<Digest>,
          w': World, n: Name, r: Request, c: Option<Catalog>)
    requires ValidManifest(ws) && ValidStore(ws, w) && SavedRun(ws, w, done, o, order, evicted, w')
    requires n in ws.targets && n !in done && ws.targets[n].out in w.files
    requires Clean(ws, w.files, n) != Ran(w.files[ws.targets[n].out])
    requires r.roots <= ws.targets.Keys && r.explicit == {} && !r.force
    ensures SameFile(w.files, w'.files, ws.targets[n].out) && Clean(ws, w'.files, n) == Clean(ws, w.files, n)
    ensures !UpToDate(ws, w'.files)
    ensures PlanOf(ws, w', r, c).selected == {}
  {
    OutsideSurvives(ws, w, done, o, order, evicted, w', n);
    NothingChangedAfterBuild(ws, RunAll(ws, w, o, order).value, evicted, r, c);
  }

  // ----- partial requests --------------------------------------------------------------

  /** A target whose output exists is selected only on request: below a root, and of a requested kind. */
  lemma SelectedIsRequested(ws: Workspace, w: World, q: Request, c: Option<Catalog>, n: Name)
    requires Closed(DepGraph(ws)) && q.roots <= ws.targets.Keys
    requires n in PlanOf(ws, w, q, c).selected && ws.targets[n].out in w.files
    ensures Requested(ws, q.roots, n) && ws.targets[n].kind in q.kinds
  {
    PresentIsBase(ws, w, q, c, n);
  }

  lemma SuccessIsSavedRun(ws: Workspace, w: World, selected: set<Name>, o: Options, order: seq<Name>,
          evicted: set<Digest>, w': World)
    requires selected <= ws.targets.Keys && selected != {}
    requires SuccessfulBuild(ws, w, selected, o, order, evicted, w')
    ensures SavedRun(ws, w, selected, o, order, evicted, w')
  {
    ScheduleIsDepFirstIn(ws, selected, selected, order);
  }

  /**
   Any request, partial, explicit, forced or predictive: the workspace is up to
   date after its build exactly when the existing outputs that were not selected
   were clean before.
   */
  lemma BuildUpToDateIff(ws: Workspace, w: World, q: Request, c: Option<Catalog>, predictive: bool, o: Options,
          order: seq<Name>, evicted: set<Digest>, w': World)
    requires Buildable(ws) && ValidStore(ws, w) && q.roots <= ws.targets.Keys
    requires WellRead(ws, w.files, Pick(ws, PlanOf(ws, w, q, c), predictive).selected)
    requires SuccessfulBuild(ws, w, Pick(ws, PlanOf(ws, w, q, c), predictive).selected, o, order, evicted, w')
    ensures UpToDate(ws, w'.files) <==> CleanOutside(ws, w.files, Pick(ws, PlanOf(ws, w, q, c), predictive).selected)
  {
    hide PlanOf, Clean, ValidStore, Predicted, WellRead, Acyclic;
    PlanParts(ws, w, q, c);
    var selected := Pick(ws, PlanOf(ws, w, q, c), predictive).selected;
    if selected != {} {
      SuccessIsSavedRun(ws, w, selected, o, order, evicted, w');
      UpToDateAfterIff(ws, w, selected, o, order, evicted, w');
    }
  }

  /**
   A partial build forgets: when it built anything, a stale output that its
   request did not ask for stays as it is, and the next unforced plan, whatever
   it asks for, selects nothing.
   */
  lemma PartialBuildForgetsEdits(ws: Workspace, w: World, q: Request, c: Option<Catalog>, o: Options, order: seq<Name>,
          evicted: set<Digest>, w': World, n: Name, r: Request, c': Option<Catalog>)
    requires ValidManifest(ws) && ValidStore(ws, w) && q.roots <= ws.targets.Keys
    requires PlanOf(ws, w, q, c).selected != {}
    requires SuccessfulBuild(ws, w, PlanOf(ws, w, q, c).selected, o, order, evicted, w')
    requires n in ws.targets && !(Requested(ws, q.roots, n) && ws.targets[n].kind in q.kinds)
    requires ws.targets[n].out in w.files && Clean(ws, w.files, n) != Ran(w.files[ws.targets[n].out])
    requires r.roots <= ws.targets.Keys && r.explicit == {} && !r.force
    ensures SameFile(w.files, w'.files, ws.targets[n].out) && Clean(ws, w'.files, n) == Clean(ws, w.files, n)
    ensures !UpToDate(ws, w'.files)
    ensures PlanOf(ws, w', r, c').selected == {}
  {
    hide PlanOf, Clean, UpToDate, Requested, SuccessfulBuild, ValidStore;
    var selected := PlanOf(ws, w, q, c).selected;
    PlanParts(ws, w, q, c);
    if n in selected {
      SelectedIsRequested(ws, w, q, c, n);
    }
    SuccessIsSavedRun(ws, w, selected, o, order, evicted, w');
    Forgotten(ws, w, selected, o, order, evicted, w', n, r, c');
  }

  // ----- failures ------------------------------------------------------------------------

  /** Whatever depends on a target without a clean output has none either. */
  lemma {:induction false} FailureSpreads(ws: Workspace, files: Files, n: Name, m: Name)
    requires Closed(DepGraph(ws)) && n in ws.targets && m in ws.targets && Reach(DepGraph(ws), n, m)
    requires !Clean(ws, files, m).Ran?
    ensures !Clean(ws, files, n).Ran?
    decreases Below(Reads(ws, ws.targets.Keys), n)
  {
    ReachIsEqOrStrict(DepGraph(ws), n, m);
    if n != m && Clean(ws, files, n).Ran? {
      var d := FirstEdge(DepGraph(ws), n, m);
      assert d in ReadGraph(ws)[n];
      RanReads(ws, files, ws.targets.Keys, n, d);
      ReadsShrink(ws, ws.targets.Keys, n);
      FailureSpreads(ws, files, d, m);
    }
  }

  // ----- aborts ----------------------------------------------------------------------------

  /** Every source is back at its saved content; outputs are as the abort left them. */
  ghost predicate Reverted(ws: Workspace, w: World, w': World) {
    && w'.saved.Some? && w'.saved == w.saved
    && (forall p :: p in AllSources(ws, w'.dynamic) ==>
          p in w'.saved.value && w'.saved.value[p] == HashOf(w'.files, p))
    && (forall n :: n in ws.targets ==> SameFile(w.files, w'.files, ws.targets[n].out))
  }

  lemma RevertedSources(ws: Workspace, w: World, w': World, r: Request, c: Option<Catalog>)
    requires Reverted(ws, w, w') && r.explicit == {} && ws.targets != map[]
    ensures forall m :: m in ws.targets ==> SameFile(w'.files, BaseFiles(w'.saved.value), ws.targets[m].src)
    ensures ChangedTargets(ws, w', r, c) == {}
  {
    forall m | m in ws.targets ensures ws.targets[m].src in AllSources(ws, w'.dynamic) {
      assert ws.targets[m].src in PrimarySources(ws);
    }
    var n :| n in ws.targets;
    assert ws.targets[n].src in w'.saved.value && !Cold(w');
    assert ChangedSources(ws, w', {}) == {};
    assert SourceUsers(ws, w'.dynamic, {}) == {};
  }

  /**
   An abort forgets in the opposite direction: it rewrites outputs and saves no
   state.  When all sources are back at their saved content the next unforced
   plan is empty, and a rewritten output is clean exactly when the sources at the
   abort gave the same output as the saved ones.
   */
  lemma AbortForgets(ws: Workspace, w: World, sel: set<Name>, o: Options, order: seq<Name>, v: World, w': World,
          n: Name, r: Request, c: Option<Catalog>)
    requires Buildable(ws) && ValidStore(ws, w) && AbortedRun(ws, w, sel, o, order, v) && Reverted(ws, v, w')
    requires WellRead(ws, w.files, Elems(order)) && CleanOutside(ws, w.files, Elems(order))
    requires n in ws.targets && n in order
    requires r.roots <= ws.targets.Keys && r.explicit == {} && !r.force
    ensures PlanOf(ws, w', r, c).selected == {} && ws.targets[n].out in w'.files
    ensures Clean(ws, w'.files, n) == Ran(w'.files[ws.targets[n].out]) <==>
      Clean(ws, w.files, n) == Clean(ws, BaseFiles(w'.saved.value), n)
  {
    hide Clean, Settle, ValidStore, WellRead, Acyclic, PlanOf, ChangedTargets, RepairClosed, DepFirstIn;
    var done := Elems(order);
    PrefixIsDepFirst(ws, sel, order);
    RunSettles(ws, w, o, done, order);
    RunNeedsRepair(ws, w, o, done, order);
    SettleIsClean(ws, w.files, done, n);
    RevertedSources(ws, v, w', r, c);
    CleanReadsSources(ws, w'.files, BaseFiles(w'.saved.value), n);
    NothingChangedNothingSelected(ws, w', r, c);
  }

  // ----- a workspace that shows it ----------------------------------------------------------

  lemma LeafNoCycle(g: Graph, n: Name)
    requires n !in g || g[n] == {}
    ensures !ReachesCycle(g, n)
  {
    if ReachesCycle(g, n) {
      var m :| Reach(g, n, m) && StrictReach(g, m, m);
      ReachIsEqOrStrict(g, n, m);
      var _ := FirstEdge(g, n, m);
    }
  }

  /** A target that reads no other: a clean build is one run. */
  lemma LeafClean(ws: Workspace, files: Files, n: Name)
    requires Closed(DepGraph(ws)) && n in ws.targets && ws.targets[n].deps == [] && WriterOf(ws, n).None?
    ensures KnownDeps(ws, n) && Clean(ws, files, n) == RunAction(ws, files, n)
  {
    LeafNoCycle(Reads(ws, ws.targets.Keys), n);
    SettleUnfold(ws, files, ws.targets.Keys, n);
    var outs := DepOutcomes(ws, files, ws.targets.Keys, n);
    assert outs == [] && DepsPresent(ws, files, n);
    assert Datas(outs) == DepData(ws, files, n);
  }

  // ----- three plans -----------------------------------------------------------------------

  /** Before any state is saved, a plan for everything selects everything. */
  lemma FirstPlanIsAll(ws: Workspace, w: World, r: Request, c: Option<Catalog>)
    requires Closed(DepGraph(ws)) && r.roots == ws.targets.Keys && w.saved.None?
    requires forall n :: n in ws.targets ==> ws.targets[n].kind in r.kinds
    ensures PlanOf(ws, w, r, c).selected == ws.targets.Keys
  {
    hide PlanOf, RepairClosed, ChangedTargets, ReachSet, EdgeClosed;
    ReachSetIsClosed(DepGraph(ws), r.roots);
    PlanParts(ws, w, r, c);
    assert ws.targets.Keys <= OfKind(ws, PlanOf(ws, w, r, c).affected, r.kinds);
  }

  lemma EditChangesTarget(ws: Workspace, w: World, r: Request, n: Name)
    requires n in ws.targets && r.explicit == {} && w.saved.Some? && ws.targets[n].src in w.saved.value
    requires w.saved.value[ws.targets[n].src] != HashOf(w.files, ws.targets[n].src)
    ensures n in ChangedTargets(ws, w, r, None)
  {
    assert ws.targets[n].src in PrimarySources(ws);
    assert ws.targets[n].src in ChangedSources(ws, w, {});
  }

  /** The plan for one changed target without dependencies is that target. */
  lemma LeafPlan(ws: Workspace, w: World, r: Request, c: Option<Catalog>, n: Name)
    requires Closed(DepGraph(ws)) && n in ws.targets && ws.targets[n].deps == [] && ws.targets[n].kind in r.kinds
    requires r.roots == {n} && n in ChangedTargets(ws, w, r, c)
    ensures PlanOf(ws, w, r, c).selected == {n}
  {
    hide PlanOf, ChangedTargets, RepairClosed, ReachSet, Reach, Repaired;
    var plan := PlanOf(ws, w, r, c);
    PlanParts(ws, w, r, c);
    ChangedRootSelected(ws, w, r, c, n);
    LeafClosure(DepGraph(ws), n);
    assert OfKind(ws, plan.affected, r.kinds) <= {n};
    PlanIsLeast(ws, w, r, c, {n});
  }

  lemma LeafClosure(g: Graph, n: Name)
    requires Closed(g) && n in g && g[n] == {}
    ensures ReachSet(g, {n}) <= {n}
  {
    forall m | m in ReachSet(g, {n}) ensures m == n {
      EdgeClosedReach(g, {n}, n, m);
    }
  }

  lemma PlanIsLeast(ws: Workspace, w: World, r: Request, c: Option<Catalog>, s: set<Name>)
    requires Closed(DepGraph(ws)) && r.roots <= ws.targets.Keys
    requires OfKind(ws, PlanOf(ws, w, r, c).affected, r.kinds) <= s && RepairClosed(ws, w.files, s)
    ensures PlanOf(ws, w, r, c).selected <= s
  {
    RepairedIsLeast(ws, w.files, OfKind(ws, PlanOf(ws, w, r, c).affected, r.kinds), s);
  }
}
