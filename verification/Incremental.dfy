/**
 Incremental builds against clean builds.

 The invariant relating saved hashes to existing outputs is carried through whole
 histories of edits, deletions, evictions, builds and builds that abort.
 */
module Incremental {
  import opened Graph
  import opened Actions
  import opened Planner
  import opened Settling
  import opened Traversals
  import opened Wrappers

  // ----- one build --------------------------------------------------------------------

  /** The files a saved state speaks of. */
  function BaseFiles(h: map<Path, FileHash>): Files {
    map p | p in h && h[p].Hashed? :: h[p].digest.data
  }

  /** The targets that depend on a tainted source. */
  ghost function Above(ws: Workspace, tainted: set<Path>): set<Name> {
    CoReachSet(DepGraph(ws), PrimaryUsers(ws, tainted))
  }

  /** Every source that a target writes was there when the state was saved. */
  ghost predicate GeneratedSaved(ws: Workspace, h: map<Path, FileHash>) {
    forall n :: n in ws.targets && WriterOf(ws, n).Some? && ws.targets[n].src in h ==> h[ws.targets[n].src].Hashed?
  }

  /**
   Every existing output that no tainted source is below is what a clean build of
   the sources of the saved state gives.
   */
  ghost predicate Consistent(ws: Workspace, files: Files, h: map<Path, FileHash>, tainted: set<Path>)
    requires Closed(DepGraph(ws))
  {
    && PrimarySources(ws) <= h.Keys && GeneratedSaved(ws, h)
    && forall n :: n in ws.targets && ws.targets[n].out in files && n !in Above(ws, tainted) ==>
        Clean(ws, BaseFiles(h), n) == Ran(files[ws.targets[n].out])
  }

  ghost predicate BuildInv(ws: Workspace, w: World, tainted: set<Path>)
    requires Closed(DepGraph(ws))
  {
    ValidStore(ws, w) && (w.saved.Some? ==> Consistent(ws, w.files, w.saved.value, tainted))
  }

  /** Every tainted source still differs from the saved state. */
  predicate Unreverted(ws: Workspace, w: World, tainted: set<Path>) {
    tainted <= ChangedSources(ws, w, {})
  }

  /** The targets whose clean output may differ from the saved state. */
  ghost function Dirty(ws: Workspace, w: World): set<Name> {
    if Cold(w) then ws.targets.Keys
    else ws.targets.Keys * CoReachSet(DepGraph(ws), PrimaryUsers(ws, ChangedSources(ws, w, {})))
  }

  /** No dirty target with an existing output is left out. */
  ghost predicate Covers(ws: Workspace, w: World, selected: set<Name>) {
    forall n :: n in Dirty(ws, w) - selected ==> ws.targets[n].out !in w.files
  }

  function SaveState(ws: Workspace, v: World, evicted: set<Digest>): World {
    v.(saved := Some(SourceHashes(ws, v)), cas := v.cas - evicted)
  }

  /** A build in which every selected action succeeds; an empty selection returns at once and saves nothing. */
  ghost predicate SuccessfulBuild(ws: Workspace, w: World, selected: set<Name>, o: Options, order: seq<Name>,
          evicted: set<Digest>, w': World) {
    if selected == {} then w' == w
    else
      && IsSchedule(Induced(DepGraph(ws), selected), selected, order)
      && Known(ws, order)
      && RunAll(ws, w, o, order).Some?
      && w' == SaveState(ws, RunAll(ws, w, o, order).value, evicted)
  }

  lemma UnchangedSource(ws: Workspace, w: World, m: Name)
    requires !Cold(w) && m in ws.targets && PrimarySources(ws) <= w.saved.value.Keys
    requires ws.targets[m].src !in ChangedSources(ws, w, {})
    ensures SameFile(w.files, BaseFiles(w.saved.value), ws.targets[m].src)
  {
    var p := ws.targets[m].src;
    assert p in PrimarySources(ws) && p in AllSources(ws, w.dynamic);
  }

  /** A target that is not dirty still has the clean output of the saved state. */
  lemma NotDirtyStaysClean(ws: Workspace, w: World, n: Name)
    requires Buildable(ws) && DeclaredWriters(ws) && n in ws.targets && n !in Dirty(ws, w)
    requires w.saved.Some? && PrimarySources(ws) <= w.saved.value.Keys
    ensures Clean(ws, w.files, n) == Clean(ws, BaseFiles(w.saved.value), n)
  {
    var g, ps := DepGraph(ws), ChangedSources(ws, w, {});
    forall m | m in ws.targets && Reach(Reads(ws, ws.targets.Keys), n, m)
      ensures SameFile(w.files, BaseFiles(w.saved.value), ws.targets[m].src)
    {
      ReadsReach(ws, n, m);
      assert m !in PrimaryUsers(ws, ps);
      UnchangedSource(ws, w, m);
    }
    CleanReadsSources(ws, w.files, BaseFiles(w.saved.value), n);
  }

  lemma ReadsReach(ws: Workspace, n: Name, m: Name)
    requires Closed(DepGraph(ws)) && DeclaredWriters(ws) && Reach(Reads(ws, ws.targets.Keys), n, m)
    ensures Reach(DepGraph(ws), n, m)
  {
    ReachIsEqOrStrict(Reads(ws, ws.targets.Keys), n, m);
    if n == m {
      ReachRefl(DepGraph(ws), n);
    } else {
      var p :| |p| >= 2 && IsPath(Reads(ws, ws.targets.Keys), p, n, m);
      InducedWalk(ReadGraph(ws), ws.targets.Keys, p);
      assert IsPath(ReadGraph(ws), p, n, m);
      DeclaredReach(ws, n, m);
      StrictIsReach(DepGraph(ws), n, m);
    }
  }

  lemma AboveIsDirty(ws: Workspace, w: World, tainted: set<Path>, n: Name)
    requires Unreverted(ws, w, tainted) && n in ws.targets && n in Above(ws, tainted)
    ensures n in Dirty(ws, w)
  {
    if !Cold(w) {
      var t :| t in PrimaryUsers(ws, tainted) && Reach(DepGraph(ws), n, t);
      assert t in PrimaryUsers(ws, ChangedSources(ws, w, {}));
    }
  }

  lemma CoveredIsCleanOutside(ws: Workspace, w: World, selected: set<Name>, tainted: set<Path>)
    requires Buildable(ws) && DeclaredWriters(ws) && BuildInv(ws, w, tainted) && Unreverted(ws, w, tainted)
    requires Covers(ws, w, selected)
    ensures CleanOutside(ws, w.files, selected)
  {
    hide Clean, Above, Dirty, Acyclic, DeclaredWriters, ValidStore;
    forall n | n in ws.targets && n !in selected && ws.targets[n].out in w.files
      ensures Clean(ws, w.files, n) == Ran(w.files[ws.targets[n].out])
    {
      if n in Above(ws, tainted) {
        AboveIsDirty(ws, w, tainted, n);
      }
      NotDirtyHasState(ws, w, n);
      NotDirtyStaysClean(ws, w, n);
    }
  }

  lemma NotDirtyHasState(ws: Workspace, w: World, n: Name)
    requires n in ws.targets && n !in Dirty(ws, w)
    ensures w.saved.Some?
  {
  }

  /** Every generated source is built, or there already. */
  ghost predicate GeneratedCovered(ws: Workspace, files: Files, selected: set<Name>) {
    forall n :: n in ws.targets && WriterOf(ws, n).Some? ==>
        WriterOf(ws, n).value in selected || ws.targets[n].src in files
  }

  lemma SavedIsConsistent(ws: Workspace, start: World, v: World, selected: set<Name>, evicted: set<Digest>)
    requires Buildable(ws) && ValidStore(ws, v) && UpToDate(ws, v.files)
    requires Frame(ws, start, v, selected) && GeneratedCovered(ws, start.files, selected)
    ensures BuildInv(ws, SaveState(ws, v, evicted), {})
  {
    hide Clean, ValidCache, DistinctOuts;
    var h := SourceHashes(ws, v);
    SavedMatches(ws, v);
    forall n | n in ws.targets && ws.targets[n].out in v.files
      ensures Clean(ws, BaseFiles(h), n) == Ran(v.files[ws.targets[n].out])
    {
      CleanReadsSources(ws, v.files, BaseFiles(h), n);
    }
    forall n | n in ws.targets && WriterOf(ws, n).Some? ensures ws.targets[n].src in v.files {
      GeneratedThere(ws, start, v, selected, n);
    }
  }

  lemma SavedMatches(ws: Workspace, v: World)
    ensures PrimarySources(ws) <= SourceHashes(ws, v).Keys
    ensures forall m :: m in ws.targets ==> SameFile(v.files, BaseFiles(SourceHashes(ws, v)), ws.targets[m].src)
    ensures forall m :: m in ws.targets ==>
        SourceHashes(ws, v)[ws.targets[m].src] == HashOf(v.files, ws.targets[m].src)
  {
    forall m | m in ws.targets ensures ws.targets[m].src in PrimarySources(ws) {}
  }

  lemma GeneratedThere(ws: Workspace, start: World, v: World, selected: set<Name>, n: Name)
    requires ValidManifest(ws) && Frame(ws, start, v, selected) && GeneratedCovered(ws, start.files, selected)
    requires n in ws.targets && WriterOf(ws, n).Some?
    ensures ws.targets[n].src in v.files
  {
    var b := WriterOf(ws, n).value;
    if b !in selected {
      OutsideOuts(ws, selected, b);
      assert SameFile(start.files, v.files, ws.targets[b].out);
    }
  }

  /** One successful build whose selection leaves nothing dirty behind. */
  lemma {:induction false} BuildIsClean(ws: Workspace, w: World, tainted: set<Path>, selected: set<Name>, o: Options,
          order: seq<Name>, evicted: set<Digest>, w': World)
    requires Buildable(ws) && DeclaredWriters(ws) && BuildInv(ws, w, tainted) && Unreverted(ws, w, tainted)
    requires selected <= ws.targets.Keys && Covers(ws, w, selected)
    requires WellRead(ws, w.files, selected) && GeneratedCovered(ws, w.files, selected)
    requires SuccessfulBuild(ws, w, selected, o, order, evicted, w')
    ensures BuildInv(ws, w', {}) && UpToDate(ws, w'.files)
    ensures forall n :: n in selected ==> ws.targets[n].out in w'.files
  {
    hide Clean, DeclaredWriters, WellRead, GeneratedCovered, Covers, Unreverted, Dirty, Buildable, ValidStore, Frame;
    CoveredIsCleanOutside(ws, w, selected, tainted);
    if selected == {} {
      NothingLeftIsClean(ws, w, tainted);
    } else {
      var v := RunAll(ws, w, o, order).value;
      ScheduleIsDepFirstIn(ws, selected, selected, order);
      BuildableIsValid(ws);
      RunSettles(ws, w, o, selected, order);
      RunNeedsRepair(ws, w, o, selected, order);
      SettledIsUpToDate(ws, w, v, selected);
      SavedIsConsistent(ws, w, v, selected, evicted);
    }
  }

  lemma BuildableIsValid(ws: Workspace)
    requires Buildable(ws)
    ensures ValidManifest(ws)
  {
  }

  /** With nothing to build and everything clean, nothing was tainted to begin with. */
  lemma NothingLeftIsClean(ws: Workspace, w: World, tainted: set<Path>)
    requires Buildable(ws) && DeclaredWriters(ws) && BuildInv(ws, w, tainted) && Unreverted(ws, w, tainted)
    requires Covers(ws, w, {}) && CleanOutside(ws, w.files, {})
    ensures BuildInv(ws, w, {})
  {
    hide Clean, Above, Dirty, Buildable, DeclaredWriters, ValidStore;
    forall n | n in ws.targets && n in Above(ws, tainted) ensures ws.targets[n].out !in w.files {
      AboveIsDirty(ws, w, tainted, n);
    }
  }

  // ----- the planner covers -------------------------------------------------------------

  ghost predicate Requested(ws: Workspace, roots: set<Name>, n: Name)
    requires Closed(DepGraph(ws)) && roots <= ws.targets.Keys
  {
    n in ReachSet(DepGraph(ws), roots)
  }

  /** Every target and kind is requested, and changes are detected rather than listed. */
  ghost predicate FullScope(ws: Workspace, r: Request)
    requires Closed(DepGraph(ws)) && r.roots <= ws.targets.Keys
  {
    && (forall n {:trigger Requested(ws, r.roots, n)} :: n in ws.targets ==> Requested(ws, r.roots, n))
    && (forall n :: n in ws.targets ==> ws.targets[n].kind in r.kinds)
    && r.explicit == {}
  }

  /** The saved state, if there is one, has a hash for every source, and saw every generated one. */
  ghost predicate Remembered(ws: Workspace, w: World) {
    w.saved.Some? ==> PrimarySources(ws) <= w.saved.value.Keys && GeneratedSaved(ws, w.saved.value)
  }

  ghost predicate CatalogOk(c: Option<Catalog>, writtenFor: Workspace) {
    c.Some? ==> c.value == BuildCatalog(writtenFor)
  }

  lemma PrimaryUsersChanged(ws: Workspace, w: World, r: Request, c: Option<Catalog>, writtenFor: Workspace)
    requires CatalogOk(c, writtenFor) && r.explicit == {} && !Cold(w)
    ensures PrimaryUsers(ws, ChangedSources(ws, w, {})) <= ChangedTargets(ws, w, r, c)
  {
    var ps := ChangedSources(ws, w, {});
    if CatalogUsable(ws, c) {
      FreshCatalogAgrees(ws, writtenFor, ps);
    }
    assert ps == {} ==> PrimaryUsers(ws, ps) == {};
  }

  lemma DirtyIsAffected(ws: Workspace, w: World, r: Request, c: Option<Catalog>, writtenFor: Workspace, n: Name)
    requires Closed(DepGraph(ws)) && r.roots <= ws.targets.Keys && FullScope(ws, r) && CatalogOk(c, writtenFor)
    requires w.saved.Some? && !Cold(w) && n in Dirty(ws, w)
    ensures n in Affected(ws, w, r, ChangedTargets(ws, w, r, c))
  {
    var g, changed := DepGraph(ws), ChangedTargets(ws, w, r, c);
    PrimaryUsersChanged(ws, w, r, c, writtenFor);
    var t :| t in PrimaryUsers(ws, ChangedSources(ws, w, {})) && Reach(g, n, t);
    assert t in changed && n in CoReachSet(g, changed);
    assert Requested(ws, r.roots, n);
  }

  lemma DirtyIsSelected(ws: Workspace, w: World, r: Request, c: Option<Catalog>, writtenFor: Workspace, n: Name)
    requires Closed(DepGraph(ws)) && Remembered(ws, w) && r.roots <= ws.targets.Keys && FullScope(ws, r) &&
        CatalogOk(c, writtenFor)
    requires n in Dirty(ws, w)
    ensures n in OfKind(ws, Affected(ws, w, r, ChangedTargets(ws, w, r, c)), r.kinds)
  {
    assert ws.targets[n].src in PrimarySources(ws);
    if w.saved.None? {
      assert Requested(ws, r.roots, n);
    } else {
      DirtyIsAffected(ws, w, r, c, writtenFor, n);
    }
  }

  lemma ColdChangesAll(ws: Workspace, w: World, r: Request, c: Option<Catalog>, writtenFor: Workspace)
    requires CatalogOk(c, writtenFor) && r.explicit == {} && Cold(w)
    ensures ChangedTargets(ws, w, r, c) == ws.targets.Keys
  {
    if CatalogUsable(ws, c) {
      FreshCatalogAgrees(ws, writtenFor, AllSources(ws, w.dynamic));
    }
    forall n | n in ws.targets ensures n in PrimaryUsers(ws, AllSources(ws, w.dynamic)) {
      assert ws.targets[n].src in PrimarySources(ws);
    }
  }

  /** A dirty target without dependencies is dirty because it changed itself. */
  lemma DirtyLeafChanged(ws: Workspace, w: World, r: Request, c: Option<Catalog>, writtenFor: Workspace, n: Name)
    requires CatalogOk(c, writtenFor) && r.explicit == {}
    requires n in Dirty(ws, w) && ws.targets[n].deps == []
    ensures n in ChangedTargets(ws, w, r, c)
  {
    hide ChangedTargets, ChangedSources;
    if Cold(w) {
      ColdChangesAll(ws, w, r, c, writtenFor);
    } else {
      PrimaryUsersChanged(ws, w, r, c, writtenFor);
      var g := DepGraph(ws);
      var t :| t in PrimaryUsers(ws, ChangedSources(ws, w, {})) && Reach(g, n, t);
      ReachIsEqOrStrict(g, n, t);
      if n != t {
        var _ := FirstEdge(g, n, t);
      }
    }
  }

  lemma DirtyIsPicked(ws: Workspace, w: World, r: Request, c: Option<Catalog>, writtenFor: Workspace,
          predictive: bool, n: Name)
    requires Closed(DepGraph(ws)) && Remembered(ws, w) && r.roots <= ws.targets.Keys && FullScope(ws, r) &&
        CatalogOk(c, writtenFor)
    requires n in Dirty(ws, w)
    ensures n in Pick(ws, PlanOf(ws, w, r, c), predictive).selected
  {
    hide Dirty, Remembered, CatalogOk, ChangedTargets, Affected, PlanOf, Predicted, PrimaryUsers, TestsIn, ReachSet;
    var plan := PlanOf(ws, w, r, c);
    PlanParts(ws, w, r, c);
    DirtyIsSelected(ws, w, r, c, writtenFor, n);
    if predictive && ChangeDriven(w, r) {
      PredictiveIsSafe(ws, w, r, c);
    } else if predictive && n !in Predicted(ws, plan) {
      ForcedPlanDrops(ws, w, r, c, n);
      DirtyLeafChanged(ws, w, r, c, writtenFor, n);
    }
  }

  /** A full-scope plan covers every dirty target, with and without the catalog, and also in predictive mode. */
  lemma FullScopeCovers(ws: Workspace, w: World, r: Request, c: Option<Catalog>, writtenFor: Workspace,
          predictive: bool)
    requires Closed(DepGraph(ws)) && Remembered(ws, w) && r.roots <= ws.targets.Keys && FullScope(ws, r) &&
        CatalogOk(c, writtenFor)
    ensures Covers(ws, w, Pick(ws, PlanOf(ws, w, r, c), predictive).selected)
    ensures Pick(ws, PlanOf(ws, w, r, c), predictive).selected <= ws.targets.Keys
  {
    hide Dirty, PlanOf, FullScope, Remembered, CatalogOk;
    PlanParts(ws, w, r, c);
    forall n | n in Dirty(ws, w) ensures n in Pick(ws, PlanOf(ws, w, r, c), predictive).selected {
      DirtyIsPicked(ws, w, r, c, writtenFor, predictive, n);
    }
  }

  // A generated source and the targets that read it.

  /** A generated source that is gone makes everything above its readers dirty. */
  lemma MissingMakesDirty(ws: Workspace, w: World, a: Name, x: Name)
    requires Remembered(ws, w) && a in ws.targets && WriterOf(ws, a).Some? && ws.targets[a].src !in w.files
    requires x in ws.targets && Reach(DepGraph(ws), x, a)
    ensures x in Dirty(ws, w)
  {
    if !Cold(w) {
      var p := ws.targets[a].src;
      assert p in PrimarySources(ws) && p in AllSources(ws, w.dynamic);
      assert p in ChangedSources(ws, w, {});
      assert a in PrimaryUsers(ws, ChangedSources(ws, w, {}));
    }
  }

  /** A writer selected for its own sake, and not to repair it, is affected; then so is everything above it. */
  lemma AffectedDrags(ws: Workspace, w: World, r: Request, c: Option<Catalog>, predictive: bool, b: Name, x: Name)
    requires Closed(DepGraph(ws)) && r.roots <= ws.targets.Keys && FullScope(ws, r)
    requires b in PlanOf(ws, w, r, c).affected && x in ws.targets && StrictReach(DepGraph(ws), x, b)
    ensures x in Pick(ws, PlanOf(ws, w, r, c), predictive).selected
  {
    hide ReachSet, Predicted, TestsIn, ChangedTargets, StrictReach;
    var plan := PlanOf(ws, w, r, c);
    PlanParts(ws, w, r, c);
    AboveIsAffected(ws, w, r, c, b, x);
    if predictive && ChangeDriven(w, r) {
      PredictiveIsSafe(ws, w, r, c);
    } else if predictive && x !in Predicted(ws, plan) {
      ForcedPlanDrops(ws, w, r, c, x);
      var _ := FirstEdge(DepGraph(ws), x, b);
    }
  }

  lemma AboveIsAffected(ws: Workspace, w: World, r: Request, c: Option<Catalog>, b: Name, x: Name)
    requires Closed(DepGraph(ws)) && r.roots <= ws.targets.Keys && FullScope(ws, r)
    requires b in PlanOf(ws, w, r, c).affected && x in ws.targets && StrictReach(DepGraph(ws), x, b)
    ensures x in PlanOf(ws, w, r, c).affected && x in OfKind(ws, PlanOf(ws, w, r, c).affected, r.kinds)
  {
    assert Requested(ws, r.roots, x);
    if ChangeDriven(w, r) {
      var g, changed := DepGraph(ws), ChangedTargets(ws, w, r, c);
      var t :| t in changed && Reach(g, b, t);
      StrictIsReach(g, x, b);
      ReachTrans(g, x, b, t);
    }
  }

  /** With a writer, everything above a reader that lists it is selected. */
  lemma WriterDrags(ws: Workspace, w: World, r: Request, c: Option<Catalog>, writtenFor: Workspace, predictive: bool,
          b: Name, u: Name, x: Name)
    requires ValidManifest(ws) && Remembered(ws, w) && r.roots <= ws.targets.Keys && FullScope(ws, r) &&
        CatalogOk(c, writtenFor)
    requires b in Pick(ws, PlanOf(ws, w, r, c), predictive).selected
    requires u in ws.targets && WriterOf(ws, u) == Some(b) && b in ws.targets[u].deps
    requires x in ws.targets && Reach(DepGraph(ws), x, u)
    ensures x in Pick(ws, PlanOf(ws, w, r, c), predictive).selected
  {
    hide PlanOf, Dirty, Remembered, FullScope, CatalogOk, DistinctOuts, Reach;
    if ws.targets[u].src !in w.files {
      MissingMakesDirty(ws, w, u, x);
      DirtyIsPicked(ws, w, r, c, writtenFor, predictive, x);
    } else {
      PresentIsBase(ws, w, r, c, b);
      assert Edge(DepGraph(ws), u, b);
      ReachThenEdge(DepGraph(ws), x, u, b);
      AffectedDrags(ws, w, r, c, predictive, b, x);
    }
  }

  /** A path along which everything is built stays among what a dependency-first order has finished. */
  lemma PathIsDone(ws: Workspace, s: set<Name>, order: seq<Name>, a: Name, u: Name)
    requires DepFirstIn(ws, s, order) && a in Elems(order) && Reach(DepGraph(ws), a, u)
    requires forall x :: x in ws.targets && Reach(DepGraph(ws), x, u) ==> x in s
    requires Closed(DepGraph(ws))
    ensures u in Elems(order) && Reach(Induced(DepGraph(ws), Elems(order)), a, u)
  {
    var g, done := DepGraph(ws), Elems(order);
    var p :| IsPath(g, p, a, u);
    forall i | 0 <= i < |p| ensures p[i] in ws.targets && p[i] in s {
      OnPath(g, p, i);
      ReachStays(g, a, p[i]);
    }
    var h := Induced(g, s);
    forall i | 0 <= i < |p| - 1 ensures Step(h, p, i) {
      assert Step(g, p, i);
    }
    DepFirstClosed(h, order);
    forall i | 0 <= i < |p| ensures p[i] in done {
      EdgeClosedWalk(h, done, p, i);
    }
    forall i | 0 <= i < |p| - 1 ensures Step(Induced(g, done), p, i) {
      assert Step(g, p, i);
    }
    assert IsPath(Induced(g, done), p, a, u);
  }

  lemma OnPath(g: Graph, p: seq<Name>, i: nat)
    requires Walk(g, p) && i < |p|
    ensures Reach(g, p[0], p[i]) && Reach(g, p[i], p[|p| - 1])
  {
    SubWalk(g, p, 0, i);
    SubWalk(g, p, i, |p| - 1);
  }

  /** Whatever part of a full-scope plan has run, no generated source was read too early. */
  lemma FullScopeReads(ws: Workspace, w: World, r: Request, c: Option<Catalog>, writtenFor: Workspace,
          predictive: bool, order: seq<Name>)
    requires ValidManifest(ws) && DeclaredWriters(ws) && Remembered(ws, w) && r.roots <= ws.targets.Keys &&
        FullScope(ws, r) && CatalogOk(c, writtenFor)
    requires DepFirstIn(ws, Pick(ws, PlanOf(ws, w, r, c), predictive).selected, order)
    requires RepairClosed(ws, w.files, Elems(order))
    ensures WellRead(ws, w.files, Elems(order))
    ensures Elems(order) == Pick(ws, PlanOf(ws, w, r, c), predictive).selected ==>
      GeneratedCovered(ws, w.files, Elems(order))
  {
    hide PlanOf, Pick, Remembered, FullScope, CatalogOk, DeclaredWriters, InTime, DepFirstIn, RepairClosed;
    var s, done := Pick(ws, PlanOf(ws, w, r, c), predictive).selected, Elems(order);
    forall a, b | a in ws.targets && a in done && WriterOf(ws, a) == Some(b)
      ensures InTime(ws, w.files, done, a, b)
    {
      OneRead(ws, w, r, c, writtenFor, predictive, order, a, b);
    }
    if done == s {
      forall n | n in ws.targets && WriterOf(ws, n).Some? && ws.targets[n].src !in w.files
        ensures WriterOf(ws, n).value in done
      {
        MissingIsRebuilt(ws, w, r, c, writtenFor, predictive, n, WriterOf(ws, n).value);
      }
    }
  }

  lemma OneRead(ws: Workspace, w: World, r: Request, c: Option<Catalog>, writtenFor: Workspace,
          predictive: bool, order: seq<Name>, a: Name, b: Name)
    requires ValidManifest(ws) && DeclaredWriters(ws) && Remembered(ws, w) && r.roots <= ws.targets.Keys &&
        FullScope(ws, r) && CatalogOk(c, writtenFor)
    requires DepFirstIn(ws, Pick(ws, PlanOf(ws, w, r, c), predictive).selected, order)
    requires RepairClosed(ws, w.files, Elems(order))
    requires a in ws.targets && a in Elems(order) && WriterOf(ws, a) == Some(b)
    ensures InTime(ws, w.files, Elems(order), a, b)
  {
    hide PlanOf, Pick, Remembered, FullScope, CatalogOk, Reach, StrictReach, DepFirstIn, RepairClosed, InTime;
    var u :| Lister(ws, a, b, u);
    SameWriter(ws, a, u, b);
    DoneIsSelected(ws, Pick(ws, PlanOf(ws, w, r, c), predictive).selected, order);
    hide DistinctOuts, DeclaredWriters, Lister;
    if b in Elems(order) || ws.targets[u].src !in w.files {
      ReadersDragged(ws, w, r, c, writtenFor, predictive, b, u);
      PathIsDone(ws, Pick(ws, PlanOf(ws, w, r, c), predictive).selected, order, a, u);
      ListedInTime(ws, w.files, Elems(order), a, b, u);
    } else {
      PresentInTime(ws, w.files, Elems(order), a, b);
    }
  }

  lemma ListedInTime(ws: Workspace, files: Files, done: set<Name>, a: Name, b: Name, u: Name)
    requires ValidManifest(ws) && RepairClosed(ws, files, done) && done <= ws.targets.Keys
    requires a in ws.targets && u in done && WriterOf(ws, a) == Some(b) && b in ws.targets[u].deps
    requires Reach(Induced(DepGraph(ws), done), a, u)
    ensures InTime(ws, files, done, a, b)
  {
    hide Reach, StrictReach;
    if b in done {
      assert Edge(Induced(DepGraph(ws), done), u, b);
      ReachThenEdge(Induced(DepGraph(ws), done), a, u, b);
    }
  }

  lemma PresentInTime(ws: Workspace, files: Files, done: set<Name>, a: Name, b: Name)
    requires a in ws.targets && b !in done && ws.targets[a].src in files
    ensures InTime(ws, files, done, a, b)
  {
  }

  lemma DoneIsSelected(ws: Workspace, s: set<Name>, order: seq<Name>)
    requires DepFirstIn(ws, s, order)
    ensures Elems(order) <= s && Elems(order) <= ws.targets.Keys
  {
  }

  /** A generated source that is rebuilt, or gone, brings along everything above a reader that lists the writer. */
  lemma ReadersDragged(ws: Workspace, w: World, r: Request, c: Option<Catalog>, writtenFor: Workspace,
          predictive: bool, b: Name, u: Name)
    requires ValidManifest(ws) && Remembered(ws, w) && r.roots <= ws.targets.Keys && FullScope(ws, r) &&
        CatalogOk(c, writtenFor)
    requires u in ws.targets && WriterOf(ws, u) == Some(b) && b in ws.targets[u].deps
    requires b in Pick(ws, PlanOf(ws, w, r, c), predictive).selected || ws.targets[u].src !in w.files
    ensures forall x :: x in ws.targets && Reach(DepGraph(ws), x, u) ==>
        x in Pick(ws, PlanOf(ws, w, r, c), predictive).selected
  {
    hide PlanOf, Pick, Remembered, FullScope, CatalogOk, Reach, DistinctOuts, Dirty;
    forall x | x in ws.targets && Reach(DepGraph(ws), x, u)
      ensures x in Pick(ws, PlanOf(ws, w, r, c), predictive).selected
    {
      if ws.targets[u].src !in w.files {
        MissingMakesDirty(ws, w, u, x);
        DirtyIsPicked(ws, w, r, c, writtenFor, predictive, x);
      } else {
        WriterDrags(ws, w, r, c, writtenFor, predictive, b, u, x);
      }
    }
  }

  lemma SameWriter(ws: Workspace, a: Name, u: Name, b: Name)
    requires DistinctOuts(ws) && a in ws.targets
    requires WriterOf(ws, a) == Some(b) && Lister(ws, a, b, u)
    ensures u in ws.targets && ws.targets[u].src == ws.targets[a].src && WriterOf(ws, u) == Some(b)
    ensures Reach(DepGraph(ws), a, u) && b in ws.targets[u].deps
  {
  }

  lemma MissingIsRebuilt(ws: Workspace, w: World, r: Request, c: Option<Catalog>, writtenFor: Workspace,
          predictive: bool, a: Name, b: Name)
    requires ValidManifest(ws) && DeclaredWriters(ws) && Remembered(ws, w) && r.roots <= ws.targets.Keys &&
        FullScope(ws, r) && CatalogOk(c, writtenFor)
    requires RepairClosed(ws, w.files, Pick(ws, PlanOf(ws, w, r, c), predictive).selected)
    requires a in ws.targets && WriterOf(ws, a) == Some(b) && ws.targets[a].src !in w.files
    ensures b in Pick(ws, PlanOf(ws, w, r, c), predictive).selected
  {
    hide PlanOf, Remembered, FullScope, CatalogOk, Reach, DistinctOuts, Dirty;
    var u :| Lister(ws, a, b, u);
    SameWriter(ws, a, u, b);
    ReachRefl(DepGraph(ws), u);
    MissingMakesDirty(ws, w, u, u);
    DirtyIsPicked(ws, w, r, c, writtenFor, predictive, u);
  }

  /** In a change-driven plan, a predictive build that succeeds has dropped nothing. */
  lemma PredictiveSuccessDropsNothing(ws: Workspace, w: World, r: Request, c: Option<Catalog>, o: Options,
          order: seq<Name>, evicted: set<Digest>, w': World)
    requires ValidManifest(ws) && ValidStore(ws, w) && r.roots <= ws.targets.Keys && ChangeDriven(w, r)
    requires SuccessfulBuild(ws, w, Predicted(ws, PlanOf(ws, w, r, c)), o, order, evicted, w')
    ensures Predicted(ws, PlanOf(ws, w, r, c)) == PlanOf(ws, w, r, c).selected
  {
    var s := Predicted(ws, PlanOf(ws, w, r, c));
    PlanParts(ws, w, r, c);
    PredictiveIsSafe(ws, w, r, c);
    if s != {} {
      ScheduleIsDepFirstIn(ws, s, s, order);
      RunNeedsRepair(ws, w, o, s, order);
    }
    PredictedIsRepaired(ws, w, r, c);
  }

  // ----- builds that abort ----------------------------------------------------------------

  /**
   A build that raised: some of its actions have run, dependencies first, and
   rewritten their outputs, but neither the cache nor the state was saved.
   */
  ghost predicate AbortedRun(ws: Workspace, w: World, sel: set<Name>, o: Options, order: seq<Name>, w': World) {
    && DepFirstIn(ws, sel, order) && Known(ws, order) && RunAll(ws, w, o, order).Some?
    && w' == RunAll(ws, w, o, order).value.(cache := w.cache)
  }

  /** The sources an abort leaves suspect: those that differ from the saved state. */
  function Suspect(ws: Workspace, w: World): set<Path> {
    ChangedSources(ws, w, {}) * PrimarySources(ws)
  }

  /** Path by path: a source of some target whose hash is not the saved one. */
  lemma SuspectIff(ws: Workspace, w: World, p: Path)
    ensures p in Suspect(ws, w) <==>
      && (exists n :: n in ws.targets && ws.targets[n].src == p)
      && (w.saved.None? || p !in w.saved.value ||
          w.saved.value[p] != if p in w.files then Hashed(Sha(w.files[p])) else Absent)
  {
    assert w.saved.Some? && w.saved.value == map[] ==> p !in w.saved.value;
  }

  lemma AboveReads(ws: Workspace, tainted: set<Path>, n: Name, d: Name)
    requires Closed(DepGraph(ws)) && DeclaredWriters(ws) && n in ws.targets && d in ReadGraph(ws)[n]
    requires n !in Above(ws, tainted)
    ensures d !in Above(ws, tainted)
  {
    if d in Above(ws, tainted) {
      var t :| t in PrimaryUsers(ws, tainted) && Reach(DepGraph(ws), d, t);
      DeclaredEdge(ws, n, d);
      StrictIsReach(DepGraph(ws), n, d);
      ReachTrans(DepGraph(ws), n, d, t);
    }
  }

  lemma RanReads(ws: Workspace, files: Files, sel: set<Name>, n: Name, d: Name)
    requires Closed(DepGraph(ws)) && n in ws.targets && n in sel && d in ReadGraph(ws)[n]
    requires Settle(ws, files, sel, n).Ran?
    ensures d in ws.targets && Settle(ws, files, sel, d).Ran? && !ReachesCycle(Reads(ws, sel), n)
  {
    DepEdge(ws, n);
    SettleUnfold(ws, files, sel, n);
    if d in ws.targets[n].deps {
      var i :| 0 <= i < |ws.targets[n].deps| && ws.targets[n].deps[i] == d;
      assert DepOutcomes(ws, files, sel, n)[i].Ran?;
    }
  }

  lemma UnsuspectSource(ws: Workspace, w: World, tainted: set<Path>, n: Name)
    requires w.saved.Some? && PrimarySources(ws) <= w.saved.value.Keys && Suspect(ws, w) <= tainted
    requires n in ws.targets && n !in Above(ws, tainted)
    ensures SameFile(w.files, BaseFiles(w.saved.value), ws.targets[n].src)
  {
    var p := ws.targets[n].src;
    assert p in PrimarySources(ws);
    ReachRefl(DepGraph(ws), n);
    assert n in Above(ws, tainted) <== p in tainted;
    UnchangedSource(ws, w, n);
  }

  /** What an aborted build wrote, away from suspect sources, is what the saved state would have it be. */
  lemma {:induction false} SettleIsBase(ws: Workspace, w: World, done: set<Name>, old_: set<Path>, tainted: set<Path>,
          n: Name)
    requires Buildable(ws) && DeclaredWriters(ws) && w.saved.Some?
    requires Consistent(ws, w.files, w.saved.value, old_) && old_ + Suspect(ws, w) <= tainted
    requires n in ws.targets && n in done && n !in Above(ws, tainted) && Settle(ws, w.files, done, n).Ran?
    ensures Settle(ws, w.files, done, n) == Clean(ws, BaseFiles(w.saved.value), n)
    decreases Below(Reads(ws, done), n)
  {
    hide Settle, Above, DeclaredWriters, ReachesCycle, Acyclic;
    var all, base := ws.targets.Keys, BaseFiles(w.saved.value);
    BuildableReads(ws, all, n);
    BuildableReads(ws, done, n);
    ReadsShrink(ws, done, n);
    UnsuspectSource(ws, w, tainted, n);
    forall d | d in ReadGraph(ws)[n] ensures d in ws.targets && Settle(ws, w.files, done, d) == Clean(ws, base, d) {
      RanReads(ws, w.files, done, n, d);
      AboveReads(ws, tainted, n, d);
      if d in done {
        SettleIsBase(ws, w, done, old_, tainted, d);
      } else {
        UnselectedKeeps(ws, w.files, done, d);
        AboveGrows(ws, old_, tainted, d);
      }
    }
    SameReads(ws, w.files, done, base, all, n);
  }

  lemma AboveGrows(ws: Workspace, a: set<Path>, b: set<Path>, n: Name)
    requires a <= b && n !in Above(ws, b)
    ensures n !in Above(ws, a)
  {
    assert PrimaryUsers(ws, a) <= PrimaryUsers(ws, b);
  }

  lemma AbortKeepsInv(ws: Workspace, w: World, tainted: set<Path>, sel: set<Name>, o: Options, order: seq<Name>,
          w': World)
    requires Buildable(ws) && DeclaredWriters(ws) && BuildInv(ws, w, tainted)
    requires AbortedRun(ws, w, sel, o, order, w') && WellRead(ws, w.files, Elems(order))
    ensures BuildInv(ws, w', tainted + Suspect(ws, w))
  {
    var done, v := Elems(order), RunAll(ws, w, o, order).value;
    PrefixIsDepFirst(ws, sel, order);
    RunSettles(ws, w, o, done, order);
    hide ValidCache, Clean, Settle, Above, Buildable, DeclaredWriters, DepFirstIn, WellRead, RunAll;
    if w.saved.Some? {
      forall n | n in ws.targets && ws.targets[n].out in w'.files && n !in Above(ws, tainted + Suspect(ws, w))
        ensures Clean(ws, BaseFiles(w.saved.value), n) == Ran(w'.files[ws.targets[n].out])
      {
        if n in done {
          SettleIsBase(ws, w, done, tainted, tainted + Suspect(ws, w), n);
        } else {
          UntouchedOut(ws, w, v, done, n);
          AboveGrows(ws, tainted, tainted + Suspect(ws, w), n);
        }
      }
    }
  }

  lemma UntouchedOut(ws: Workspace, w: World, v: World, done: set<Name>, n: Name)
    requires DistinctOuts(ws) && Frame(ws, w, v, done) && n in ws.targets && n !in done
    ensures SameFile(w.files, v.files, ws.targets[n].out)
  {
    OutsideOuts(ws, done, n);
  }

  /** What ran of a selection is itself in dependency order. */
  lemma PrefixIsDepFirst(ws: Workspace, sel: set<Name>, order: seq<Name>)
    requires DepFirstIn(ws, sel, order)
    ensures DepFirstIn(ws, Elems(order), order)
  {
    var g, h := Induced(DepGraph(ws), sel), Induced(DepGraph(ws), Elems(order));
    forall i | 0 <= i < |order| ensures Placed(h, order, i) {
      assert Placed(g, order, i) && order[i] in Elems(order);
    }
  }

  // ----- whole histories ------------------------------------------------------------------

  datatype Change =
    | Build(request: Request, catalog: Option<Catalog>, writtenFor: Workspace, predictive: bool, options: Options,
        order: seq<Name>, evicted: set<Digest>)
    | Abort(request: Request, catalog: Option<Catalog>, writtenFor: Workspace, predictive: bool, options: Options,
        order: seq<Name>)
    | EditSource(path: Path, text: Option<string>)
    | DropOutput(n: Name)
    | EvictBlobs(blobs: set<Digest>)
    | ForgetKeys(keys: set<Key>)
    | ForgetState
    | RecordDepfiles(dynamic: DynamicDeps)

  ghost predicate Next(ws: Workspace, w: World, e: Change, w': World)
    requires Closed(DepGraph(ws))
  {
    match e
    case Build(r, c, writtenFor, predictive, o, order, evicted) =>
      && r.roots <= ws.targets.Keys && FullScope(ws, r) && CatalogOk(c, writtenFor)
      && SuccessfulBuild(ws, w, Pick(ws, PlanOf(ws, w, r, c), predictive).selected, o, order, evicted, w')
    case Abort(r, c, writtenFor, predictive, o, order) =>
      && r.roots <= ws.targets.Keys && CatalogOk(c, writtenFor)
      && (FullScope(ws, r) || WellRead(ws, w.files, Elems(order)))
      && AbortedRun(ws, w, Pick(ws, PlanOf(ws, w, r, c), predictive).selected, o, order, w')
    case EditSource(p, text) =>
      && p !in Outs(ws, ws.targets.Keys)
      && w' == w.(files := if text.Some? then w.files[p := text.value] else w.files - {p})
    case DropOutput(n) => n in ws.targets && w' == w.(files := w.files - {ws.targets[n].out})
    case EvictBlobs(blobs) => w' == w.(cas := w.cas - blobs)
    case ForgetKeys(keys) => w' == w.(cache := w.cache - keys)
    case ForgetState => w' == w.(saved := None)
    case RecordDepfiles(dynamic) => w' == w.(dynamic := dynamic)
  }

  /** The sources that aborts since the last saved build have left suspect. */
  function TaintAfter(ws: Workspace, w: World, e: Change, tainted: set<Path>): set<Path> {
    match e
    case Build(_, _, _, _, _, _, _) => {}
    case ForgetState => {}
    case Abort(_, _, _, _, _, _) => tainted + Suspect(ws, w)
    case _ => tainted
  }

  lemma BuildKeepsInv(ws: Workspace, w: World, tainted: set<Path>, e: Change, w': World)
    requires Buildable(ws) && DeclaredWriters(ws) && BuildInv(ws, w, tainted) && Next(ws, w, e, w')
    requires e.Build? && Unreverted(ws, w, tainted)
    ensures BuildInv(ws, w', {}) && UpToDate(ws, w'.files)
    ensures forall n :: n in Pick(ws, PlanOf(ws, w, e.request, e.catalog), e.predictive).selected && n in ws.targets ==>
        ws.targets[n].out in w'.files
  {
    hide PlanOf, Pick, FullScope, CatalogOk, WellRead, GeneratedCovered, Unreverted, Covers, Clean, Acyclic,
        DeclaredWriters, ValidStore;
    var Build(r, c, writtenFor, predictive, o, order, evicted) := e;
    var s := Pick(ws, PlanOf(ws, w, r, c), predictive).selected;
    FullScopeCovers(ws, w, r, c, writtenFor, predictive);
    if s == {} {
      EmptyReads(ws, w, r, c, writtenFor, predictive);
      BuildIsClean(ws, w, tainted, s, o, order, evicted, w');
    } else {
      ScheduleIsDepFirstIn(ws, s, s, order);
      RunNeedsRepair(ws, w, o, s, order);
      FullScopeReads(ws, w, r, c, writtenFor, predictive, order);
      BuildIsClean(ws, w, tainted, s, o, order, evicted, w');
    }
  }

  lemma EmptyReads(ws: Workspace, w: World, r: Request, c: Option<Catalog>, writtenFor: Workspace, predictive: bool)
    requires ValidManifest(ws) && DeclaredWriters(ws) && Remembered(ws, w) && r.roots <= ws.targets.Keys &&
        FullScope(ws, r) && CatalogOk(c, writtenFor)
    requires Pick(ws, PlanOf(ws, w, r, c), predictive).selected == {}
    ensures WellRead(ws, w.files, {}) && GeneratedCovered(ws, w.files, {})
  {
    var none: seq<Name> := [];
    assert Elems(none) == {} && DepFirstIn(ws, {}, none);
    FullScopeReads(ws, w, r, c, writtenFor, predictive, none);
  }

  lemma NextKeepsInv(ws: Workspace, w: World, tainted: set<Path>, e: Change, w': World)
    requires Buildable(ws) && DeclaredWriters(ws) && BuildInv(ws, w, tainted) && Next(ws, w, e, w')
    requires e.Build? ==> Unreverted(ws, w, tainted)
    ensures BuildInv(ws, w', TaintAfter(ws, w, e, tainted))
    ensures e.Build? ==> UpToDate(ws, w'.files)
  {
    hide Clean, PlanOf, Pick, RunAction, ActionKey, Above, FullScope, Acyclic, DeclaredWriters, AbortedRun,
        SuccessfulBuild, WellRead, CatalogOk;
    match e
    case Build(_, _, _, _, _, _, _) => BuildKeepsInv(ws, w, tainted, e, w');
    case Abort(r, c, writtenFor, predictive, o, order) =>
      var s := Pick(ws, PlanOf(ws, w, r, c), predictive).selected;
      if !WellRead(ws, w.files, Elems(order)) {
        AbortReads(ws, w, r, c, writtenFor, predictive, o, order, w');
      }
      AbortKeepsInv(ws, w, tainted, s, o, order, w');
    case EditSource(p, text) =>
      forall n | n in ws.targets ensures SameFile(w.files, w'.files, ws.targets[n].out) {
        assert ws.targets[n].out in Outs(ws, ws.targets.Keys);
      }
    case _ =>
  }

  lemma AbortReads(ws: Workspace, w: World, r: Request, c: Option<Catalog>, writtenFor: Workspace, predictive: bool,
          o: Options, order: seq<Name>, w': World)
    requires ValidManifest(ws) && DeclaredWriters(ws) && Remembered(ws, w) && ValidStore(ws, w)
    requires r.roots <= ws.targets.Keys && FullScope(ws, r) && CatalogOk(c, writtenFor)
    requires AbortedRun(ws, w, Pick(ws, PlanOf(ws, w, r, c), predictive).selected, o, order, w')
    ensures WellRead(ws, w.files, Elems(order))
  {
    hide PlanOf, Pick, FullScope, CatalogOk, WellRead, DeclaredWriters, ValidStore, DepFirstIn, Remembered;
    RunNeedsRepair(ws, w, o, Pick(ws, PlanOf(ws, w, r, c), predictive).selected, order);
    FullScopeReads(ws, w, r, c, writtenFor, predictive, order);
  }

  ghost predicate History(ws: Workspace, worlds: seq<World>, es: seq<Change>)
    requires Closed(DepGraph(ws))
  {
    |worlds| == |es| + 1 && forall i :: 0 <= i < |es| ==> Next(ws, worlds[i], es[i], worlds[i + 1])
  }

  function Tainted(ws: Workspace, worlds: seq<World>, es: seq<Change>, i: nat): set<Path>
    requires |worlds| == |es| + 1 && i <= |es|
  {
    if i == 0 then {} else TaintAfter(ws, worlds[i - 1], es[i - 1], Tainted(ws, worlds, es, i - 1))
  }

  /** No source that differed from the saved state at an abort is back at its saved hash when the next build starts. */
  ghost predicate Heeded(ws: Workspace, worlds: seq<World>, es: seq<Change>)
    requires |worlds| == |es| + 1
  {
    forall i :: 0 <= i < |es| && es[i].Build? ==> Unreverted(ws, worlds[i], Tainted(ws, worlds, es, i))
  }

  /** Without aborts there is nothing to heed. */
  lemma {:induction false} NoAbortNoTaint(ws: Workspace, worlds: seq<World>, es: seq<Change>, i: nat)
    requires |worlds| == |es| + 1 && i <= |es| && forall k :: 0 <= k < |es| ==> !es[k].Abort?
    ensures Tainted(ws, worlds, es, i) == {}
  {
    if i > 0 {
      NoAbortNoTaint(ws, worlds, es, i - 1);
    }
  }

  lemma {:induction false} HistoryKeepsInv(ws: Workspace, worlds: seq<World>, es: seq<Change>, i: nat)
    requires Buildable(ws) && DeclaredWriters(ws) && History(ws, worlds, es) && Heeded(ws, worlds, es)
    requires BuildInv(ws, worlds[0], {}) && i <= |es|
    ensures BuildInv(ws, worlds[i], Tainted(ws, worlds, es, i))
  {
    if i > 0 {
      hide BuildInv, Next, DeclaredWriters, TaintAfter, Unreverted, Acyclic, DistinctOuts, Closed;
      assert Next(ws, worlds[i - 1], es[i - 1], worlds[i - 1 + 1]);
      assert es[i - 1].Build? ==> Unreverted(ws, worlds[i - 1], Tainted(ws, worlds, es, i - 1));
      HistoryKeepsInv(ws, worlds, es, i - 1);
      NextKeepsInv(ws, worlds[i - 1], Tainted(ws, worlds, es, i - 1), es[i - 1], worlds[i - 1 + 1]);
    }
  }

  /** With no saved state a full-scope build selects everything, so it can only succeed without cycles. */
  lemma FirstBuildIsAcyclic(ws: Workspace, w: World, e: Change, w': World)
    requires Closed(DepGraph(ws)) && Next(ws, w, e, w') && e.Build? && w.saved.None?
    ensures Acyclic(DepGraph(ws))
  {
    hide PlanOf, FullScope, CatalogOk;
    var Build(r, c, writtenFor, predictive, o, order, evicted) := e;
    var s := Pick(ws, PlanOf(ws, w, r, c), predictive).selected;
    PlanParts(ws, w, r, c);
    forall n | n in ws.targets ensures n in s {
      DirtyIsPicked(ws, w, r, c, writtenFor, predictive, n);
    }
    assert s == ws.targets.Keys;
    if s == {} {
      NoEdgesAcyclic(DepGraph(ws));
    } else {
      AllIsInduced(DepGraph(ws));
      AcyclicIfSorted(DepGraph(ws), order);
    }
  }

  lemma AllIsInduced(g: Graph)
    requires Closed(g)
    ensures Induced(g, g.Keys) == g
  {
    forall n | n in g ensures g[n] * g.Keys == g[n] {
      forall d | d in g[n] ensures d in g {
        assert Edge(g, n, d);
      }
    }
  }

  lemma {:induction false} SavedIsAcyclic(ws: Workspace, worlds: seq<World>, es: seq<Change>, i: nat)
    requires Closed(DepGraph(ws)) && History(ws, worlds, es) && worlds[0].saved.None? && i <= |es|
    ensures worlds[i].saved.Some? ==> Acyclic(DepGraph(ws))
  {
    if i > 0 && worlds[i].saved.Some? {
      SavedIsAcyclic(ws, worlds, es, i - 1);
      assert Next(ws, worlds[i - 1], es[i - 1], worlds[i - 1 + 1]);
      if worlds[i - 1].saved.None? {
        SavedByBuild(ws, worlds[i - 1], es[i - 1], worlds[i]);
        FirstBuildIsAcyclic(ws, worlds[i - 1], es[i - 1], worlds[i]);
      }
    }
  }

  lemma SavedByBuild(ws: Workspace, w: World, e: Change, w': World)
    requires Closed(DepGraph(ws)) && Next(ws, w, e, w') && w.saved.None? && w'.saved.Some?
    ensures e.Build?
  {
    if e.Abort? {
      AbortSavesNothing(ws, w, e.options, e.order);
    }
  }

  lemma {:induction false} AbortSavesNothing(ws: Workspace, w: World, o: Options, order: seq<Name>)
    requires Known(ws, order) && RunAll(ws, w, o, order).Some?
    ensures RunAll(ws, w, o, order).value.saved == w.saved
    decreases |order|
  {
    if |order| > 0 {
      AbortSavesNothing(ws, w, o, order[..|order| - 1]);
    }
  }

  /**
   Incremental equals clean.  Starting from a workspace that has never been
   built, over any history of source edits, output deletions, evictions, lost
   cache entries, lost state, aborted builds and successful full-scope builds,
   predictive ones included, after each build every existing output is what a
   from-scratch build of the sources of that moment produces.  No source that was
   changed at an abort may be back at its saved content when the next build
   starts; the manifest needs distinct outputs and declared writers.
   */
  lemma {:induction false} IncrementalEqualsClean(ws: Workspace, worlds: seq<World>, es: seq<Change>, i: nat)
    requires ValidManifest(ws) && DeclaredWriters(ws)
    requires History(ws, worlds, es) && Heeded(ws, worlds, es)
    requires worlds[0].cache == map[] && worlds[0].cas == map[] && worlds[0].saved == None
    requires i < |es| && es[i].Build?
    ensures UpToDate(ws, worlds[i + 1].files)
  {
    assert Next(ws, worlds[i], es[i], worlds[i + 1]);
    SavedIsAcyclic(ws, worlds, es, i);
    if worlds[i].saved.None? {
      FirstBuildIsAcyclic(ws, worlds[i], es[i], worlds[i + 1]);
    }
    DeclaredIsBuildable(ws);
    EmptyStoreIsValid(ws, worlds[0].files, None, worlds[0].dynamic);
    HistoryKeepsInv(ws, worlds, es, i);
    NextKeepsInv(ws, worlds[i], Tainted(ws, worlds, es, i), es[i], worlds[i + 1]);
  }
}
