/**
 Change-driven planning: `detect_changed_sources`, the metadata catalog,
 `build_plan` and `apply_predictive_test_selection`.
 */
module Planner {
  import opened Graph
  import opened Scheduler
  import opened Traversals
  import opened Actions
  import opened Wrappers

  // ----- what changed -----------------------------------------------------------

  function PrimarySources(ws: Workspace): set<Path> {
    set n | n in ws.targets :: ws.targets[n].src
  }

  function DeclaredSources(ws: Workspace): set<Path> {
    set n, p | n in ws.targets && p in ws.targets[n].declaredInputs :: p
  }

  function DynamicSources(dynamic: DynamicDeps): set<Path> {
    set n, p | n in dynamic && p in dynamic[n] :: p
  }

  function AllSources(ws: Workspace, dynamic: DynamicDeps): set<Path> {
    PrimarySources(ws) + DeclaredSources(ws) + DynamicSources(dynamic)
  }

  function HashOf(files: Files, p: Path): FileHash {
    if p in files then Hashed(Sha(files[p])) else Absent
  }

  /** `all_source_hashes` */
  function SourceHashes(ws: Workspace, w: World): map<Path, FileHash> {
    map p | p in AllSources(ws, w.dynamic) :: HashOf(w.files, p)
  }

  /** The targets whose primary source is among `ps`. */
  function PrimaryUsers(ws: Workspace, ps: set<Path>): set<Name> {
    set n | n in ws.targets && ws.targets[n].src in ps
  }

  /** The targets that declare or recorded an input among `ps`. */
  function SecondaryUsers(ws: Workspace, dynamic: DynamicDeps, ps: set<Path>): set<Name> {
    (set n | n in ws.targets && ws.targets[n].declaredInputs * ps != {}) +
    (set n | n in dynamic && dynamic[n] * ps != {})
  }

  /** The union of `source_to_targets` over the changed paths. */
  function SourceUsers(ws: Workspace, dynamic: DynamicDeps, ps: set<Path>): set<Name> {
    PrimaryUsers(ws, ps) + SecondaryUsers(ws, dynamic, ps)
  }

  predicate Cold(w: World) {
    w.saved.None? || w.saved.value == map[]
  }

  /** `explicit` is the `--changed` list; the empty set means it was not given. */
  function ChangedSources(ws: Workspace, w: World, explicit: set<Path>): set<Path> {
    if explicit != {} then explicit
    else if Cold(w) then AllSources(ws, w.dynamic)
    else set p | p in AllSources(ws, w.dynamic) && (p !in w.saved.value || w.saved.value[p] != HashOf(w.files, p))
  }

  function DetectedTargets(ws: Workspace, w: World, explicit: set<Path>): set<Name> {
    if explicit == {} && Cold(w) then ws.targets.Keys
    else SourceUsers(ws, w.dynamic, ChangedSources(ws, w, explicit))
  }

  // ----- the metadata catalog ------------------------------------------------------

  datatype Fingerprint = Fingerprint(toolchain: string, envKeys: set<string>, targets: map<Name, PartitionSpec>)

  /** One target's row of the fingerprint: dependencies are listed in sorted order, so only their multiset counts. */
  datatype PartitionSpec = PartitionSpec(kind: string, src: Path, deps: multiset<Name>, out: Path,
          declaredInputs: set<Path>, sandbox: bool, command: seq<string>)

  datatype Catalog = Catalog(
    fingerprint: Fingerprint, sourceToTargets: map<Path, set<Name>>, reverseDeps: map<Name, set<Name>>)

  function FingerprintOf(ws: Workspace): Fingerprint {
    Fingerprint(ws.toolchain, ws.envKeys, map n | n in ws.targets ::
      var t := ws.targets[n]; PartitionSpec(t.kind, t.src, multiset(t.deps), t.out, t.declaredInputs, t.sandbox,
        t.command))
  }

  /** `build_metadata_catalog`: the source index lists primary sources only. */
  function BuildCatalog(ws: Workspace): Catalog {
    Catalog(FingerprintOf(ws),
            map p | p in PrimarySources(ws) :: PrimaryUsers(ws, {p}),
            ReverseDeps(DepGraph(ws)))
  }

  predicate IsStale(ws: Workspace, c: Catalog) {
    c.fingerprint != FingerprintOf(ws)
  }

  function CatalogChangedTargets(c: Catalog, ps: set<Path>): set<Name> {
    set p, n | p in ps && p in c.sourceToTargets && n in c.sourceToTargets[p] :: n
  }

  lemma SameMultisetSameElems(a: seq<Name>, b: seq<Name>)
    requires multiset(a) == multiset(b)
    ensures Elems(a) == Elems(b)
  {
    forall x ensures x in a <==> x in b {
      assert x in a <==> x in multiset(a);
      assert x in b <==> x in multiset(b);
    }
  }

  /** A catalog that is not stale indexes this workspace, whichever workspace it was written for. */
  lemma {:induction false} FreshCatalogAgrees(ws: Workspace, old_: Workspace, ps: set<Path>)
    requires !IsStale(ws, BuildCatalog(old_))
    ensures BuildCatalog(old_).reverseDeps == ReverseDeps(DepGraph(ws))
    ensures CatalogChangedTargets(BuildCatalog(old_), ps) == PrimaryUsers(ws, ps)
  {
    var a, b := FingerprintOf(ws).targets, FingerprintOf(old_).targets;
    assert a == b;
    assert ws.targets.Keys == a.Keys == b.Keys == old_.targets.Keys;
    forall n | n in ws.targets
      ensures Elems(ws.targets[n].deps) == Elems(old_.targets[n].deps) && ws.targets[n].src == old_.targets[n].src
    {
      assert a[n] == b[n];
      SameMultisetSameElems(ws.targets[n].deps, old_.targets[n].deps);
    }
    assert DepGraph(ws) == DepGraph(old_);
    var c := CatalogChangedTargets(BuildCatalog(old_), ps);
    forall n | n in PrimaryUsers(ws, ps) ensures n in c {
      var p := old_.targets[n].src;
      assert p in PrimarySources(old_) && n in BuildCatalog(old_).sourceToTargets[p];
    }
  }

  // ----- build_plan -------------------------------------------------------------------

  datatype Plan = Plan(changedSources: set<Path>, changedTargets: set<Name>, affected: set<Name>,
          selected: set<Name>, pruned: set<Name>)

  datatype Request = Request(roots: set<Name>, kinds: set<string>, explicit: set<Path>, force: bool)

  predicate CatalogUsable(ws: Workspace, c: Option<Catalog>) {
    c.Some? && !IsStale(ws, c.value)
  }

  function ChangedTargets(ws: Workspace, w: World, r: Request, c: Option<Catalog>): set<Name> {
    var ps := ChangedSources(ws, w, r.explicit);
    if CatalogUsable(ws, c) && ps != {} then CatalogChangedTargets(c.value, ps) else DetectedTargets(ws, w, r.explicit)
  }

  /** Edges to dependencies whose output file is missing. */
  function MissingEdges(ws: Workspace, files: Files): Graph {
    map n | n in ws.targets :: set d | d in Elems(ws.targets[n].deps) && d in ws.targets && ws.targets[d].out !in files
  }

  function OfKind(ws: Workspace, s: set<Name>, kinds: set<string>): set<Name> {
    set n | n in s && n in ws.targets && ws.targets[n].kind in kinds
  }

  ghost function Affected(ws: Workspace, w: World, r: Request, changed: set<Name>): set<Name>
    requires Closed(DepGraph(ws)) && r.roots <= ws.targets.Keys
  {
    var closure := ReachSet(DepGraph(ws), r.roots);
    if r.force || w.saved.None? then closure
    else if changed == {} then {}
    else CoReachSet(DepGraph(ws), changed) * closure
  }

  /** `base` together with everything reached over missing outputs only. */
  ghost function Repaired(ws: Workspace, files: Files, base: set<Name>): set<Name>
    requires Closed(DepGraph(ws)) && base <= ws.targets.Keys
  {
    ReachSet(MissingEdges(ws, files), base)
  }

  ghost function PlanOf(ws: Workspace, w: World, r: Request, c: Option<Catalog>): Plan
    requires Closed(DepGraph(ws)) && r.roots <= ws.targets.Keys
  {
    var changed := ChangedTargets(ws, w, r, c);
    var affected := Affected(ws, w, r, changed);
    var selected := Repaired(ws, w.files, OfKind(ws, affected, r.kinds));
    Plan(ChangedSources(ws, w, r.explicit), changed, affected, selected,
         OfKind(ws, ReachSet(DepGraph(ws), r.roots), r.kinds) - selected)
  }

  ghost predicate RepairClosed(ws: Workspace, files: Files, s: set<Name>) {
    forall n, d :: n in s && n in ws.targets && d in ws.targets[n].deps && d in ws.targets ==>
      d in s || ws.targets[d].out in files
  }

  /** The repaired selection is closed under missing dependencies, and no smaller one is. */
  lemma {:induction false} RepairedIsLeast(ws: Workspace, files: Files, base: set<Name>, s: set<Name>)
    requires Closed(DepGraph(ws)) && base <= ws.targets.Keys
    ensures base <= Repaired(ws, files, base) && RepairClosed(ws, files, Repaired(ws, files, base))
    ensures base <= s && RepairClosed(ws, files, s) ==> Repaired(ws, files, base) <= s
  {
    RepairedIsClosed(ws, files, base);
    if base <= s && RepairClosed(ws, files, s) {
      RepairedIsBelow(ws, files, base, s);
    }
  }

  /** Repaired selections are the ones closed along missing edges. */
  lemma RepairIsEdgeClosed(ws: Workspace, files: Files, s: set<Name>)
    requires s <= ws.targets.Keys
    ensures RepairClosed(ws, files, s) <==> EdgeClosed(MissingEdges(ws, files), s)
  {
    var m := MissingEdges(ws, files);
    if EdgeClosed(m, s) {
      forall n, d | n in s && n in ws.targets && d in ws.targets[n].deps && d in ws.targets
        ensures d in s || ws.targets[d].out in files
      {
        assert ws.targets[d].out !in files ==> Edge(m, n, d);
      }
    }
  }

  lemma RepairedIsClosed(ws: Workspace, files: Files, base: set<Name>)
    requires Closed(DepGraph(ws)) && base <= ws.targets.Keys
    ensures base <= Repaired(ws, files, base) && RepairClosed(ws, files, Repaired(ws, files, base))
  {
    ReachSetIsClosed(MissingEdges(ws, files), base);
    RepairIsEdgeClosed(ws, files, Repaired(ws, files, base));
  }

  lemma RepairedIsBelow(ws: Workspace, files: Files, base: set<Name>, s: set<Name>)
    requires Closed(DepGraph(ws)) && base <= ws.targets.Keys && base <= s && RepairClosed(ws, files, s)
    ensures Repaired(ws, files, base) <= s
  {
    var m := MissingEdges(ws, files);
    assert EdgeClosed(m, s);
    forall n | n in Repaired(ws, files, base) ensures n in s {
      var r :| r in base && Reach(m, r, n);
      EdgeClosedReach(m, s, r, n);
    }
  }

  /** One sweep of the repair loop over a snapshot of the selection. */
  method RepairSweep(ws: Workspace, files: Files, selected: set<Name>) returns (grown: set<Name>, changed: bool)
    requires Closed(DepGraph(ws)) && selected <= ws.targets.Keys
    ensures selected <= grown <= ws.targets.Keys
    ensures changed <==> grown != selected
    ensures !changed ==> RepairClosed(ws, files, selected)
    ensures forall s :: selected <= s && RepairClosed(ws, files, s) ==> grown <= s
  {
    hide RepairClosed;
    grown, changed := selected, false;
    var todo := selected;
    while todo != {}
      invariant todo <= selected <= grown <= ws.targets.Keys
      invariant changed <==> grown != selected
      invariant !changed ==> RepairDone(ws, files, selected - todo, selected)
      invariant forall s :: selected <= s && RepairClosed(ws, files, s) ==> grown <= s
      decreases todo
    {
      var n :| n in todo;
      assert n in selected;
      var i := 0;
      while i < |ws.targets[n].deps|
        invariant 0 <= i <= |ws.targets[n].deps|
        invariant selected <= grown <= ws.targets.Keys
        invariant changed <==> grown != selected
        invariant !changed ==> RepairDone(ws, files, selected - todo, selected)
        invariant !changed ==> forall k :: 0 <= k < i ==> Satisfied(ws, files, selected, ws.targets[n].deps[k])
        invariant forall s :: selected <= s && RepairClosed(ws, files, s) ==> grown <= s
      {
        var d := ws.targets[n].deps[i];
        assert Edge(DepGraph(ws), n, d);
        if d !in grown && ws.targets[d].out !in files {
          forall s | selected <= s && RepairClosed(ws, files, s) ensures d in s {
            MissingIsForced(ws, files, s, n, d);
          }
          grown := grown + {d};
          changed := true;
        }
        i := i + 1;
      }
      todo := todo - {n};
    }
    if !changed {
      DoneIsClosed(ws, files, selected);
    }
  }

  lemma MissingIsForced(ws: Workspace, files: Files, s: set<Name>, n: Name, d: Name)
    requires RepairClosed(ws, files, s) && n in s && n in ws.targets && d in ws.targets[n].deps
    requires d in ws.targets && ws.targets[d].out !in files
    ensures d in s
  {
  }

  lemma DoneIsClosed(ws: Workspace, files: Files, s: set<Name>)
    requires s <= ws.targets.Keys && RepairDone(ws, files, s, s)
    ensures RepairClosed(ws, files, s)
  {
  }

  predicate Satisfied(ws: Workspace, files: Files, s: set<Name>, d: Name) {
    d in s || (d in ws.targets && ws.targets[d].out in files)
  }

  ghost predicate RepairDone(ws: Workspace, files: Files, part: set<Name>, s: set<Name>) {
    forall n :: n in part && n in ws.targets ==> forall d :: d in ws.targets[n].deps ==> Satisfied(ws, files, s, d)
  }

  method Repair(ws: Workspace, files: Files, base: set<Name>) returns (selected: set<Name>)
    requires Closed(DepGraph(ws)) && base <= ws.targets.Keys
    ensures selected == Repaired(ws, files, base)
  {
    hide Repaired, RepairClosed, DepGraph;
    selected := base;
    var changed := true;
    RepairedIsLeast(ws, files, base, Repaired(ws, files, base));
    while changed
      invariant base <= selected <= ws.targets.Keys
      invariant selected <= Repaired(ws, files, base)
      invariant !changed ==> RepairClosed(ws, files, selected)
      decreases ws.targets.Keys - selected, changed
    {
      selected, changed := RepairSweep(ws, files, selected);
    }
    RepairedIsLeast(ws, files, base, selected);
  }

  /** `build_plan`, with the catalog written for some earlier workspace when there is one. */
  method BuildPlan(ws: Workspace, w: World, r: Request, c: Option<Catalog>,
          ghost writtenFor: Workspace) returns (plan: Plan)
    requires Closed(DepGraph(ws)) && r.roots <= ws.targets.Keys
    requires c.Some? ==> c.value == BuildCatalog(writtenFor)
    ensures plan == PlanOf(ws, w, r, c)
  {
    var g := DepGraph(ws);
    var changed := ChangedTargets(ws, w, r, c);
    var closure := TargetClosure(g, r.roots);
    var affected;
    if r.force || w.saved.None? {
      affected := closure;
    } else if changed == {} {
      affected := {};
    } else {
      var queue := Listed(changed);
      if CatalogUsable(ws, c) {
        FreshCatalogAgrees(ws, writtenFor, {});
      }
      var rev := if CatalogUsable(ws, c) then c.value.reverseDeps else ReverseDeps(g);
      var dependents := ReverseClosure(g, rev, changed, queue);
      affected := dependents * closure;
    }
    var selected := Repair(ws, w.files, OfKind(ws, affected, r.kinds));
    plan := Plan(ChangedSources(ws, w, r.explicit), changed, affected, selected,
                 OfKind(ws, closure, r.kinds) - selected);
  }

  method Listed(s: set<Name>) returns (q: seq<Name>)
    ensures Enumerates(q, s)
  {
    q := [];
    var rest := s;
    while rest != {}
      invariant rest <= s && Elems(q) == s - rest && NoDup(q)
      decreases rest
    {
      var x :| x in rest;
      assert x !in Elems(q);
      ElemsAppend(q, [x]);
      assert Elems([x]) == {x};
      q := q + [x];
      rest := rest - {x};
    }
  }

  // ----- catalog against catalog-free planning -------------------------------------------

  lemma CoReachMonotone(g: Graph, a: set<Name>, b: set<Name>)
    requires a <= CoReachSet(g, b)
    ensures CoReachSet(g, a) <= CoReachSet(g, b)
  {
    forall n | n in CoReachSet(g, a) ensures n in CoReachSet(g, b) {
      var r :| r in a && Reach(g, n, r);
      var s :| s in b && Reach(g, r, s);
      ReachTrans(g, n, r, s);
    }
  }

  /**
   The catalog's changed targets lead to a subset of the affected targets, and
   to the same ones exactly when every target that uses a changed path as a
   declared or recorded input depends on one that has it as its source.
   */
  lemma {:induction false} CatalogClosureContained(ws: Workspace, dynamic: DynamicDeps, ps: set<Path>)
    ensures CoReachSet(DepGraph(ws), PrimaryUsers(ws, ps)) <= CoReachSet(DepGraph(ws), SourceUsers(ws, dynamic, ps))
    ensures CoReachSet(DepGraph(ws), PrimaryUsers(ws, ps)) == CoReachSet(DepGraph(ws), SourceUsers(ws, dynamic, ps))
        <==> SecondaryUsers(ws, dynamic, ps) <= CoReachSet(DepGraph(ws), PrimaryUsers(ws, ps))
  {
    var g, a, b := DepGraph(ws), PrimaryUsers(ws, ps), SourceUsers(ws, dynamic, ps);
    UsersAreEither(ws, dynamic, ps);
    hide CoReachSet, PrimaryUsers, SecondaryUsers, SourceUsers;
    RootsCoReach(g, a);
    RootsCoReach(g, b);
    CoReachMonotone(g, a, b);
    if SecondaryUsers(ws, dynamic, ps) <= CoReachSet(g, a) {
      CoReachMonotone(g, b, a);
    }
  }

  lemma UsersAreEither(ws: Workspace, dynamic: DynamicDeps, ps: set<Path>)
    ensures SourceUsers(ws, dynamic, ps) == PrimaryUsers(ws, ps) + SecondaryUsers(ws, dynamic, ps)
  {
  }

  lemma AffectedMonotone(ws: Workspace, w: World, r: Request, a: set<Name>, b: set<Name>)
    requires Closed(DepGraph(ws)) && r.roots <= ws.targets.Keys && a <= b
    ensures Affected(ws, w, r, a) <= Affected(ws, w, r, b)
  {
    RootsCoReach(DepGraph(ws), b);
    CoReachMonotone(DepGraph(ws), a, b);
  }

  lemma CatalogChangedContained(ws: Workspace, w: World, r: Request, old_: Workspace)
    requires !IsStale(ws, BuildCatalog(old_))
    ensures ChangedTargets(ws, w, r, Some(BuildCatalog(old_))) <= ChangedTargets(ws, w, r, None)
    ensures SecondaryUsers(ws, w.dynamic, ChangedSources(ws, w, r.explicit)) == {} ==>
      ChangedTargets(ws, w, r, Some(BuildCatalog(old_))) == ChangedTargets(ws, w, r, None)
  {
    var ps := ChangedSources(ws, w, r.explicit);
    FreshCatalogAgrees(ws, old_, ps);
    if r.explicit == {} && Cold(w) {
      forall n | n in ws.targets ensures n in PrimaryUsers(ws, ps) {
        assert ws.targets[n].src in PrimarySources(ws);
      }
      assert PrimaryUsers(ws, ps) == ws.targets.Keys;
    }
  }

  /**
   Whole plans: with a usable catalog nothing is affected that would not be
   without one, and for changed paths used only as sources nothing is lost.
   */
  lemma {:induction false} CatalogPlanContained(ws: Workspace, w: World, r: Request, old_: Workspace)
    requires Closed(DepGraph(ws)) && r.roots <= ws.targets.Keys
    requires !IsStale(ws, BuildCatalog(old_))
    ensures PlanOf(ws, w, r, Some(BuildCatalog(old_))).affected <= PlanOf(ws, w, r, None).affected
    ensures SecondaryUsers(ws, w.dynamic, ChangedSources(ws, w, r.explicit)) == {} ==>
      PlanOf(ws, w, r, Some(BuildCatalog(old_))) == PlanOf(ws, w, r, None)
  {
    CatalogChangedContained(ws, w, r, old_);
    AffectedMonotone(ws, w, r, ChangedTargets(ws, w, r, Some(BuildCatalog(old_))), ChangedTargets(ws, w, r, None));
  }

  /** Right after the hashes of all sources were saved, no source counts as changed. */
  lemma JustSaved(ws: Workspace, w: World, r: Request, c: Option<Catalog>)
    requires w.saved == Some(SourceHashes(ws, w)) && r.explicit == {} && ws.targets != map[]
    ensures ChangedTargets(ws, w, r, c) == {}
  {
    var n :| n in ws.targets;
    assert ws.targets[n].src in PrimarySources(ws);
    assert ws.targets[n].src in w.saved.value && !Cold(w);
    assert ChangedSources(ws, w, {}) == {};
    assert SourceUsers(ws, w.dynamic, {}) == {};
  }

  lemma AllIsRepaired(ws: Workspace, files: Files)
    ensures RepairClosed(ws, files, ws.targets.Keys)
  {
  }

  // ----- predictive test selection ---------------------------------------------------------

  function TestsIn(ws: Workspace, s: set<Name>): set<Name> {
    OfKind(ws, s, {"test"})
  }

  function PredictiveScore(ws: Workspace, plan: Plan, n: Name): nat
    requires n in ws.targets
  {
    var deps := Elems(ws.targets[n].deps);
    (if deps * plan.changedTargets != {} then 100 else 0) +
    (if deps * plan.affected != {} then 20 else 0) +
    (if n in plan.changedTargets then 100 else 0)
  }

  function Scored(ws: Workspace, plan: Plan): set<Name> {
    set n | n in TestsIn(ws, plan.selected) && PredictiveScore(ws, plan, n) > 0
  }

  /** `apply_predictive_test_selection` when enabled: tests without a score go, unless no test has one. */
  function Predicted(ws: Workspace, plan: Plan): set<Name> {
    var tests := TestsIn(ws, plan.selected);
    var kept := if Scored(ws, plan) == {} then tests else Scored(ws, plan);
    (plan.selected - tests) + kept
  }

  /** The plan that `--predictive` leaves to be executed. */
  function Pick(ws: Workspace, plan: Plan, predictive: bool): (p: Plan)
    ensures p.selected <= plan.selected
  {
    if predictive then plan.(selected := Predicted(ws, plan)) else plan
  }

  predicate ChangeDriven(w: World, r: Request) {
    !r.force && w.saved.Some?
  }

  lemma ClosureHasDeps(g: Graph, roots: set<Name>, n: Name, d: Name)
    requires Closed(g) && roots <= g.Keys && n in ReachSet(g, roots) && Edge(g, n, d)
    ensures d in ReachSet(g, roots)
  {
    var r :| r in roots && Reach(g, r, n);
    ReachThenEdge(g, r, n, d);
  }

  /** An affected target either changed itself or depends directly on an affected target. */
  lemma {:induction false} AffectedHasCause(ws: Workspace, w: World, r: Request, c: Option<Catalog>, n: Name)
    requires Closed(DepGraph(ws)) && r.roots <= ws.targets.Keys && ChangeDriven(w, r)
    requires n in PlanOf(ws, w, r, c).affected
    ensures n in PlanOf(ws, w, r, c).changedTargets || Elems(ws.targets[n].deps) * PlanOf(ws, w, r, c).affected != {}
  {
    var g, plan := DepGraph(ws), PlanOf(ws, w, r, c);
    var t :| t in plan.changedTargets && Reach(g, n, t);
    ReachIsEqOrStrict(g, n, t);
    if n != t {
      var d := FirstEdge(g, n, t);
      ClosureHasDeps(g, r.roots, n, d);
      assert d in CoReachSet(g, plan.changedTargets);
      assert d in Elems(ws.targets[n].deps) * plan.affected;
    }
  }

  /** Predictive mode keeps every affected test of a change-driven plan, and everything that is not a test. */
  lemma {:induction false} PredictiveIsSafe(ws: Workspace, w: World, r: Request, c: Option<Catalog>)
    requires Closed(DepGraph(ws)) && r.roots <= ws.targets.Keys && ChangeDriven(w, r)
    ensures var plan := PlanOf(ws, w, r, c);
      && plan.selected * plan.affected <= Predicted(ws, plan)
      && plan.selected - TestsIn(ws, plan.selected) <= Predicted(ws, plan) <= plan.selected
  {
    var plan := PlanOf(ws, w, r, c);
    forall n | n in plan.selected * plan.affected ensures n in Predicted(ws, plan) {
      AffectedHasCause(ws, w, r, c, n);
    }
  }

  /**
   What predictive mode drops from a change-driven plan was selected only to repair a missing output
   that a selected target reads.
   */
  lemma {:induction false} DroppedWasRepair(ws: Workspace, w: World, r: Request, c: Option<Catalog>, n: Name)
    requires Closed(DepGraph(ws)) && r.roots <= ws.targets.Keys && ChangeDriven(w, r)
    requires n in PlanOf(ws, w, r, c).selected - Predicted(ws, PlanOf(ws, w, r, c))
    ensures n !in PlanOf(ws, w, r, c).affected && ws.targets[n].out !in w.files
    ensures exists u :: u in PlanOf(ws, w, r, c).selected && n in ws.targets[u].deps
  {
    var plan := PlanOf(ws, w, r, c);
    PredictiveIsSafe(ws, w, r, c);
    var m, base := MissingEdges(ws, w.files), OfKind(ws, plan.affected, r.kinds);
    var b :| b in base && Reach(m, b, n);
    ReachIsEqOrStrict(m, b, n);
    var u := LastEdge(m, b, n);
    assert u in plan.selected;
  }

  lemma PlanParts(ws: Workspace, w: World, r: Request, c: Option<Catalog>)
    requires Closed(DepGraph(ws)) && r.roots <= ws.targets.Keys
    ensures var plan := PlanOf(ws, w, r, c);
      && plan.changedTargets == ChangedTargets(ws, w, r, c) && plan.affected == Affected(ws, w, r, plan.changedTargets)
      && OfKind(ws, plan.affected, r.kinds) <= plan.selected * plan.affected && plan.selected <= ws.targets.Keys
      && RepairClosed(ws, w.files, plan.selected)
  {
    var base := OfKind(ws, PlanOf(ws, w, r, c).affected, r.kinds);
    RepairedIsLeast(ws, w.files, base, base);
  }

  /** A selected target whose output exists was not selected as a repair. */
  lemma PresentIsBase(ws: Workspace, w: World, r: Request, c: Option<Catalog>, n: Name)
    requires Closed(DepGraph(ws)) && r.roots <= ws.targets.Keys
    requires n in PlanOf(ws, w, r, c).selected && ws.targets[n].out in w.files
    ensures n in OfKind(ws, PlanOf(ws, w, r, c).affected, r.kinds)
  {
    var m, base := MissingEdges(ws, w.files), OfKind(ws, PlanOf(ws, w, r, c).affected, r.kinds);
    var b :| b in base && Reach(m, b, n);
    ReachIsEqOrStrict(m, b, n);
    if b != n {
      var _ := LastEdge(m, b, n);
    }
  }

  /**
   Exactly when predictive mode spoils a change-driven plan: what it leaves still holds every missing
   dependency only if it dropped nothing at all.
   */
  lemma PredictedIsRepaired(ws: Workspace, w: World, r: Request, c: Option<Catalog>)
    requires Closed(DepGraph(ws)) && r.roots <= ws.targets.Keys && ChangeDriven(w, r)
    ensures var plan := PlanOf(ws, w, r, c);
      RepairClosed(ws, w.files, Predicted(ws, plan)) <==> Predicted(ws, plan) == plan.selected
  {
    var plan := PlanOf(ws, w, r, c);
    var base := OfKind(ws, plan.affected, r.kinds);
    PlanParts(ws, w, r, c);
    PredictiveIsSafe(ws, w, r, c);
    RepairedIsLeast(ws, w.files, base, Predicted(ws, plan));
  }

  lemma ClosureIsRepaired(ws: Workspace, files: Files, s: set<Name>)
    requires EdgeClosed(DepGraph(ws), s)
    ensures RepairClosed(ws, files, s)
    ensures forall n :: n in s && n in ws.targets ==> Elems(ws.targets[n].deps) <= s
  {
    forall n, d | n in s && n in ws.targets && d in ws.targets[n].deps ensures d in s {
      assert Edge(DepGraph(ws), n, d);
    }
  }

  /** A plan that is forced, or has no saved state to compare with, affects whatever a selected target depends on. */
  lemma FullPlanIsClosure(ws: Workspace, w: World, r: Request, c: Option<Catalog>, n: Name)
    requires Closed(DepGraph(ws)) && r.roots <= ws.targets.Keys && !ChangeDriven(w, r)
    requires n in PlanOf(ws, w, r, c).selected
    ensures n in ws.targets && Elems(ws.targets[n].deps) <= PlanOf(ws, w, r, c).affected
  {
    hide EdgeClosed, RepairClosed, ReachSet, Repaired;
    var closure := ReachSet(DepGraph(ws), r.roots);
    ReachSetIsClosed(DepGraph(ws), r.roots);
    ClosureIsRepaired(ws, w.files, closure);
    PlanParts(ws, w, r, c);
    RepairedIsLeast(ws, w.files, OfKind(ws, closure, r.kinds), closure);
  }

  predicate Scores(ws: Workspace, plan: Plan, n: Name)
    requires n in ws.targets
  {
    n in plan.changedTargets || ws.targets[n].deps != []
  }

  lemma FullPlanScores(ws: Workspace, w: World, r: Request, c: Option<Catalog>, n: Name)
    requires Closed(DepGraph(ws)) && r.roots <= ws.targets.Keys && !ChangeDriven(w, r)
    requires n in PlanOf(ws, w, r, c).selected
    ensures n in ws.targets
    ensures PredictiveScore(ws, PlanOf(ws, w, r, c), n) > 0 <==> Scores(ws, PlanOf(ws, w, r, c), n)
  {
    var plan := PlanOf(ws, w, r, c);
    FullPlanIsClosure(ws, w, r, c, n);
    var deps := Elems(ws.targets[n].deps);
    if ws.targets[n].deps != [] {
      assert ws.targets[n].deps[0] in deps * plan.affected;
    }
  }

  /**
   Exactly which tests a forced or first plan loses: an unchanged test without dependencies, as soon
   as another selected test changed or has a dependency.
   */
  lemma ForcedPlanDrops(ws: Workspace, w: World, r: Request, c: Option<Catalog>, n: Name)
    requires Closed(DepGraph(ws)) && r.roots <= ws.targets.Keys && !ChangeDriven(w, r)
    ensures var plan := PlanOf(ws, w, r, c);
      n in plan.selected - Predicted(ws, plan) <==>
        && n in TestsIn(ws, plan.selected) && !Scores(ws, plan, n)
        && exists m :: m in TestsIn(ws, plan.selected) && Scores(ws, plan, m)
  {
    var plan := PlanOf(ws, w, r, c);
    forall m | m in TestsIn(ws, plan.selected) ensures m in Scored(ws, plan) <==> Scores(ws, plan, m) {
      FullPlanScores(ws, w, r, c, m);
    }
    if m :| m in TestsIn(ws, plan.selected) && Scores(ws, plan, m) {
      assert m in Scored(ws, plan);
    } else {
      assert Scored(ws, plan) == {};
    }
  }

  /** Two tests, the first of which reads a third target. */
  function TwoTests(render: Payload -> string): Workspace {
    Workspace(map[0 := Target("test", "s0", [2], "o0", {}, true, []),
                  1 := Target("test", "s1", [], "o1", {}, true, []),
                  2 := Target("build", "s2", [], "o2", {}, true, [])], "toolchain", {}, render, NoReads)
  }

  lemma TwoTestsClosure(render: Payload -> string)
    ensures Closed(DepGraph(TwoTests(render)))
    ensures {0, 1} <= TwoTests(render).targets.Keys
    ensures ReachSet(DepGraph(TwoTests(render)), {0, 1}) == {0, 1, 2}
  {
    var ws := TwoTests(render);
    var g := DepGraph(ws);
    assert 2 in ws.targets[0].deps;
    assert Edge(g, 0, 2);
    EdgeStrict(g, 0, 2);
    StrictIsReach(g, 0, 2);
    ReachRefl(g, 0);
    ReachRefl(g, 1);
  }

  lemma TwoTestsPlan(render: Payload -> string, w: World, r: Request)
    requires w.saved == Some(SourceHashes(TwoTests(render), w))
    requires r == Request({0, 1}, {"build", "test"}, {}, true)
    ensures Closed(DepGraph(TwoTests(render))) && r.roots <= TwoTests(render).targets.Keys
    ensures var plan := PlanOf(TwoTests(render), w, r, None);
      plan.changedTargets == {} && plan.selected == {0, 1, 2}
  {
    hide ReachSet, Repaired, RepairClosed;
    var ws := TwoTests(render);
    TwoTestsClosure(render);
    JustSaved(ws, w, r, None);
    assert OfKind(ws, {0, 1, 2}, r.kinds) == {0, 1, 2};
    RepairedIsLeast(ws, w.files, {0, 1, 2}, ws.targets.Keys);
    AllIsRepaired(ws, w.files);
  }

  /** A forced plan over unchanged sources: of the two tests it selects, predictive mode drops the second. */
  lemma ForcedPlanDropsTest(render: Payload -> string, w: World)
    requires w.saved == Some(SourceHashes(TwoTests(render), w))
    ensures var ws, r := TwoTests(render), Request({0, 1}, {"build", "test"}, {}, true);
      && Closed(DepGraph(ws))
      && PlanOf(ws, w, r, None).selected == {0, 1, 2}
      && Predicted(ws, PlanOf(ws, w, r, None)) == {0, 2}
  {
    hide PlanOf, PredictiveScore, ReachSet;
    var ws, r := TwoTests(render), Request({0, 1}, {"build", "test"}, {}, true);
    TwoTestsPlan(render, w, r);
    var plan := PlanOf(ws, w, r, None);
    assert TestsIn(ws, plan.selected) == {0, 1};
    assert Scores(ws, plan, 0);
    var kept := Predicted(ws, plan);
    assert kept <= plan.selected;
    forall n | n in plan.selected ensures n in kept <==> n != 1 {
      ForcedPlanDrops(ws, w, r, None, n);
      assert n in plan.selected - kept <==> n !in kept;
    }
  }

  // ----- what the conditions are needed for --------------------------------------------------

  function OneTarget(n: Name, t: Target, render: Payload -> string): Workspace {
    Workspace(map[n := t], "toolchain", {}, render, NoReads)
  }

  lemma HeaderChanges(ws: Workspace, w: World, r: Request, n: Name, header: Path)
    requires ws.targets.Keys == {n} && ws.targets[n].declaredInputs == {header} && ws.targets[n].src != header
    requires w.dynamic == map[] && r.explicit == {header}
    ensures ChangedTargets(ws, w, r, None) == {n}
    ensures ChangedTargets(ws, w, r, Some(BuildCatalog(ws))) == {}
  {
    assert header in ws.targets[n].declaredInputs * {header};
    assert PrimaryUsers(ws, {header}) == {};
    assert SecondaryUsers(ws, w.dynamic, {header}) == {n};
    FreshCatalogAgrees(ws, ws, {header});
  }

  /** A plan for nothing changed selects nothing. */
  lemma {:induction false} NothingChangedNothingSelected(ws: Workspace, w: World, r: Request, c: Option<Catalog>)
    requires Closed(DepGraph(ws)) && r.roots <= ws.targets.Keys && ChangeDriven(w, r)
    requires ChangedTargets(ws, w, r, c) == {}
    ensures PlanOf(ws, w, r, c).selected == {}
  {
    assert OfKind(ws, {}, r.kinds) == {};
    RepairedIsLeast(ws, w.files, {}, {});
  }

  lemma ChangedRootAffected(ws: Workspace, w: World, r: Request, changed: set<Name>, n: Name)
    requires Closed(DepGraph(ws)) && r.roots <= ws.targets.Keys
    requires n in changed && n in r.roots
    ensures n in Affected(ws, w, r, changed)
  {
    ReachRefl(DepGraph(ws), n);
  }

  /** A changed root of a requested kind is selected. */
  lemma ChangedRootSelected(ws: Workspace, w: World, r: Request, c: Option<Catalog>, n: Name)
    requires Closed(DepGraph(ws)) && r.roots <= ws.targets.Keys
    requires n in ChangedTargets(ws, w, r, c) && n in r.roots && ws.targets[n].kind in r.kinds
    ensures n in PlanOf(ws, w, r, c).selected
  {
    var affected := Affected(ws, w, r, ChangedTargets(ws, w, r, c));
    ChangedRootAffected(ws, w, r, ChangedTargets(ws, w, r, c), n);
    var base := OfKind(ws, affected, r.kinds);
    assert n in base;
    RepairedIsLeast(ws, w.files, base, base);
  }

  /**
   The catalog index misses declared inputs: a changed header that is nobody's
   source selects its user without the catalog and nothing with it.
   */
  lemma CatalogMissesDeclaredInput(n: Name, src: Path, header: Path, out: Path, render: Payload -> string, w: World)
    requires w.saved.Some? && w.dynamic == map[] && header != src
    ensures var ws := OneTarget(n, Target("build", src, [], out, {header}, true, []), render);
      var r := Request({n}, {"build"}, {header}, false);
      && Closed(DepGraph(ws))
      && n in PlanOf(ws, w, r, None).selected
      && PlanOf(ws, w, r, Some(BuildCatalog(ws))).selected == {}
  {
    var ws := OneTarget(n, Target("build", src, [], out, {header}, true, []), render);
    var r := Request({n}, {"build"}, {header}, false);
    HeaderChanges(ws, w, r, n, header);
    ChangedRootSelected(ws, w, r, None, n);
    NothingChangedNothingSelected(ws, w, r, Some(BuildCatalog(ws)));
  }
}
