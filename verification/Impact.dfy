/**
 What a plan comes to, stated without the functions that compute it: in the
 paths a target reads, the bytes at those paths, and chains of dependencies.
 */
module Impact {
  import opened Graph
  import opened Traversals
  import opened Actions
  import opened Planner
  import opened Wrappers

  // ----- paths and chains ---------------------------------------------------------

  /** `n` has `p` as its source, declares it as an input, or recorded it from a depfile. */
  predicate ReadsPath(ws: Workspace, dynamic: DynamicDeps, n: Name, p: Path) {
    || (n in ws.targets && (ws.targets[n].src == p || p in ws.targets[n].declaredInputs))
    || (n in dynamic && p in dynamic[n])
  }

  /** The path counts as changed: it is on the explicit list or, without one, its hash is not the saved one. */
  predicate PathChanged(w: World, explicit: set<Path>, p: Path) {
    if explicit != {} then p in explicit
    else
      || w.saved.None? || p !in w.saved.value
      || w.saved.value[p] != if p in w.files then Hashed(Sha(w.files[p])) else Absent
  }

  predicate Needs(ws: Workspace, chain: seq<Name>, i: nat)
    requires i + 1 < |chain|
  {
    chain[i] in ws.targets && chain[i + 1] in ws.targets[chain[i]].deps
  }

  /** From `a` to `b`, each target listing the next one among its dependencies. */
  ghost predicate NeedsChain(ws: Workspace, chain: seq<Name>, a: Name, b: Name) {
    && |chain| >= 1 && chain[0] == a && chain[|chain| - 1] == b
    && forall i :: 0 <= i < |chain| - 1 ==> Needs(ws, chain, i)
  }

  /** `b` is `a` or one of its transitive dependencies. */
  ghost predicate LeadsTo(ws: Workspace, a: Name, b: Name) {
    exists chain :: NeedsChain(ws, chain, a, b)
  }

  /** Such a chain along which, after its first target, every output file is missing. */
  ghost predicate RepairChain(ws: Workspace, files: Files, chain: seq<Name>, a: Name, b: Name) {
    && NeedsChain(ws, chain, a, b)
    && forall i :: 0 < i < |chain| ==> chain[i] in ws.targets && ws.targets[chain[i]].out !in files
  }

  lemma LeadsToIsReach(ws: Workspace, a: Name, b: Name)
    ensures LeadsTo(ws, a, b) <==> Reach(DepGraph(ws), a, b)
  {
    var g := DepGraph(ws);
    if chain :| NeedsChain(ws, chain, a, b) {
      forall i | 0 <= i < |chain| - 1 ensures Step(g, chain, i) {
        assert Needs(ws, chain, i);
      }
      assert IsPath(g, chain, a, b);
    }
    if p :| IsPath(g, p, a, b) {
      forall i | 0 <= i < |p| - 1 ensures Needs(ws, p, i) {
        assert Step(g, p, i);
      }
      assert NeedsChain(ws, p, a, b);
    }
  }

  lemma RepairChainIsReach(ws: Workspace, files: Files, a: Name, b: Name)
    ensures (exists chain :: RepairChain(ws, files, chain, a, b)) <==> Reach(MissingEdges(ws, files), a, b)
  {
    var g := MissingEdges(ws, files);
    if chain :| RepairChain(ws, files, chain, a, b) {
      forall i | 0 <= i < |chain| - 1 ensures Step(g, chain, i) {
        assert Needs(ws, chain, i);
      }
      assert IsPath(g, chain, a, b);
    }
    if p :| IsPath(g, p, a, b) {
      forall i | 0 <= i < |p| - 1
        ensures Needs(ws, p, i) && p[i + 1] in ws.targets && ws.targets[p[i + 1]].out !in files
      {
        assert Step(g, p, i);
      }
      forall i | 0 < i < |p| ensures p[i] in ws.targets && ws.targets[p[i]].out !in files {
        assert Needs(ws, p, i - 1);
      }
      assert RepairChain(ws, files, p, a, b);
    }
  }

  // ----- changed paths and targets ---------------------------------------------------

  /** `detect_changed_sources`, path by path: without an explicit list only what some target reads is looked at. */
  lemma SourceChangedIff(ws: Workspace, w: World, explicit: set<Path>, p: Path)
    ensures p in ChangedSources(ws, w, explicit) <==>
      PathChanged(w, explicit, p) && (explicit != {} || exists n :: ReadsPath(ws, w.dynamic, n, p))
  {
    if p in AllSources(ws, w.dynamic) {
      if n :| n in ws.targets && ws.targets[n].src == p {
        assert ReadsPath(ws, w.dynamic, n, p);
      } else if n :| n in ws.targets && p in ws.targets[n].declaredInputs {
        assert ReadsPath(ws, w.dynamic, n, p);
      } else {
        var n :| n in w.dynamic && p in w.dynamic[n];
        assert ReadsPath(ws, w.dynamic, n, p);
      }
    }
  }

  lemma UserReads(ws: Workspace, dynamic: DynamicDeps, ps: set<Path>, n: Name)
    ensures n in SourceUsers(ws, dynamic, ps) <==> exists p :: p in ps && ReadsPath(ws, dynamic, n, p)
  {
    if p :| p in ps && ReadsPath(ws, dynamic, n, p) {
      if n in ws.targets && p in ws.targets[n].declaredInputs {
        assert p in ws.targets[n].declaredInputs * ps;
      }
      if n in dynamic && p in dynamic[n] {
        assert p in dynamic[n] * ps;
      }
    }
    if n in SourceUsers(ws, dynamic, ps) {
      if n in ws.targets && ws.targets[n].src in ps {
        assert ReadsPath(ws, dynamic, n, ws.targets[n].src);
      } else if n in ws.targets && ws.targets[n].declaredInputs * ps != {} {
        var p :| p in ws.targets[n].declaredInputs * ps;
        assert ReadsPath(ws, dynamic, n, p);
      } else {
        var p :| p in dynamic[n] * ps;
        assert ReadsPath(ws, dynamic, n, p);
      }
    }
  }

  /** What makes the planner count a path as the target's: anything it reads or, with a usable catalog, its source. */
  predicate CountsFor(ws: Workspace, dynamic: DynamicDeps, c: Option<Catalog>, n: Name, p: Path) {
    ReadsPath(ws, dynamic, n, p) && (CatalogUsable(ws, c) ==> n in ws.targets && ws.targets[n].src == p)
  }

  /**
   A target is changed exactly when some path that counts for it changed: its source, a declared input or one
   recorded from a depfile without a catalog, and only its source with one.
   */
  lemma ChangedIff(ws: Workspace, w: World, r: Request, c: Option<Catalog>, writtenFor: Workspace, n: Name)
    requires n in ws.targets && (c.Some? ==> c.value == BuildCatalog(writtenFor))
    ensures n in ChangedTargets(ws, w, r, c) <==>
      exists p :: CountsFor(ws, w.dynamic, c, n, p) && PathChanged(w, r.explicit, p)
  {
    hide SourceUsers, AllSources, BuildCatalog, CatalogChangedTargets, IsStale;
    var ps, src := ChangedSources(ws, w, r.explicit), ws.targets[n].src;
    SourceChangedIff(ws, w, r.explicit, src);
    assert ReadsPath(ws, w.dynamic, n, src);
    assert src in ps <==> PathChanged(w, r.explicit, src);
    if CatalogUsable(ws, c) {
      FreshCatalogAgrees(ws, writtenFor, ps);
      assert CountsFor(ws, w.dynamic, c, n, src);
      if ps == {} {
        UserReads(ws, w.dynamic, ps, n);
      }
    } else {
      forall p | ReadsPath(ws, w.dynamic, n, p) ensures p in ps <==> PathChanged(w, r.explicit, p) {
        SourceChangedIff(ws, w, r.explicit, p);
      }
      assert forall p :: CountsFor(ws, w.dynamic, c, n, p) <==> ReadsPath(ws, w.dynamic, n, p);
      UserReads(ws, w.dynamic, ps, n);
    }
  }

  // ----- the whole plan ------------------------------------------------------------------

  /** `x` has to be looked at again: it is, or depends on, a target with a changed path that counts for it. */
  ghost predicate Touched(ws: Workspace, w: World, r: Request, c: Option<Catalog>, x: Name) {
    exists n, p ::
      n in ws.targets && LeadsTo(ws, x, n) && CountsFor(ws, w.dynamic, c, n, p) && PathChanged(w, r.explicit, p)
  }

  ghost predicate Requested(ws: Workspace, r: Request, x: Name) {
    exists root :: root in r.roots && LeadsTo(ws, root, x)
  }

  lemma RequestedIsReached(ws: Workspace, r: Request, x: Name)
    requires Closed(DepGraph(ws)) && r.roots <= ws.targets.Keys
    ensures Requested(ws, r, x) <==> x in ReachSet(DepGraph(ws), r.roots)
  {
    hide Reach, LeadsTo;
    forall root | root in r.roots
      ensures LeadsTo(ws, root, x) <==> Reach(DepGraph(ws), root, x)
      ensures Reach(DepGraph(ws), root, x) ==> x in ws.targets
    {
      LeadsToIsReach(ws, root, x);
      if Reach(DepGraph(ws), root, x) {
        ReachStays(DepGraph(ws), root, x);
      }
    }
  }

  lemma TouchedIsCoReached(ws: Workspace, w: World, r: Request, c: Option<Catalog>, writtenFor: Workspace, x: Name)
    requires Closed(DepGraph(ws)) && x in ws.targets && (c.Some? ==> c.value == BuildCatalog(writtenFor))
    ensures Touched(ws, w, r, c, x) <==> x in CoReachSet(DepGraph(ws), ChangedTargets(ws, w, r, c))
  {
    hide Reach, LeadsTo, CountsFor, PathChanged, ChangedTargets, BuildCatalog;
    forall n ensures LeadsTo(ws, x, n) <==> Reach(DepGraph(ws), x, n)
      ensures Reach(DepGraph(ws), x, n) ==> n in ws.targets
    {
      LeadsToIsReach(ws, x, n);
      if Reach(DepGraph(ws), x, n) {
        ReachStays(DepGraph(ws), x, n);
      }
    }
    forall n | n in ws.targets
      ensures n in ChangedTargets(ws, w, r, c) <==>
        exists p :: CountsFor(ws, w.dynamic, c, n, p) && PathChanged(w, r.explicit, p)
    {
      ChangedIff(ws, w, r, c, writtenFor, n);
    }
  }

  /** Nothing touched: the reverse closure of no changed target is empty. */
  lemma NothingCoReached(g: Graph)
    ensures CoReachSet(g, {}) == {}
  {
  }

  lemma AffectedIff(ws: Workspace, w: World, r: Request, c: Option<Catalog>, writtenFor: Workspace, x: Name)
    requires Closed(DepGraph(ws)) && r.roots <= ws.targets.Keys
    requires c.Some? ==> c.value == BuildCatalog(writtenFor)
    ensures x in PlanOf(ws, w, r, c).affected <==>
      Requested(ws, r, x) && (r.force || w.saved.None? || Touched(ws, w, r, c, x))
  {
    hide ReachSet, CoReachSet, Requested, Touched, ChangedTargets, Repaired, BuildCatalog;
    RequestedIsReached(ws, r, x);
    NothingCoReached(DepGraph(ws));
    ClosureInside(ws, r, x);
    if Requested(ws, r, x) {
      TouchedIsCoReached(ws, w, r, c, writtenFor, x);
    }
  }

  lemma ClosureInside(ws: Workspace, r: Request, x: Name)
    requires Closed(DepGraph(ws)) && r.roots <= ws.targets.Keys
    ensures x in ReachSet(DepGraph(ws), r.roots) ==> x in ws.targets
  {
  }

  lemma RepairedIff(ws: Workspace, files: Files, base: set<Name>, x: Name)
    requires Closed(DepGraph(ws)) && base <= ws.targets.Keys
    ensures x in Repaired(ws, files, base) <==> exists a, chain :: a in base && RepairChain(ws, files, chain, a, x)
  {
    hide Reach, RepairChain;
    var m := MissingEdges(ws, files);
    forall a | a in base
      ensures (exists chain :: RepairChain(ws, files, chain, a, x)) <==> Reach(m, a, x)
      ensures Reach(m, a, x) ==> x in m
    {
      RepairChainIsReach(ws, files, a, x);
      if Reach(m, a, x) {
        ReachStays(m, a, x);
      }
    }
  }

  lemma SelectedIff(ws: Workspace, w: World, r: Request, c: Option<Catalog>, x: Name)
    requires Closed(DepGraph(ws)) && r.roots <= ws.targets.Keys
    ensures x in PlanOf(ws, w, r, c).selected <==>
      exists a, chain :: Wanted(ws, r, PlanOf(ws, w, r, c).affected, a) && RepairChain(ws, w.files, chain, a, x)
  {
    hide RepairChain, Affected, Repaired;
    var base := OfKind(ws, PlanOf(ws, w, r, c).affected, r.kinds);
    RepairedIff(ws, w.files, base, x);
    forall a ensures a in base <==> Wanted(ws, r, PlanOf(ws, w, r, c).affected, a) {}
  }

  /** An affected target of one of the requested kinds. */
  predicate Wanted(ws: Workspace, r: Request, affected: set<Name>, a: Name) {
    a in affected && a in ws.targets && ws.targets[a].kind in r.kinds
  }

  /**
   A plan, exactly.  It affects the requested targets that are touched, or all of them when it is forced or
   there is no saved state; it selects the affected ones of the wanted kinds and what is reached from them over
   missing outputs; and it prunes the other requested targets of those kinds.
   */
  lemma PlanIsExact(ws: Workspace, w: World, r: Request, c: Option<Catalog>, writtenFor: Workspace, x: Name)
    requires Closed(DepGraph(ws)) && r.roots <= ws.targets.Keys
    requires c.Some? ==> c.value == BuildCatalog(writtenFor)
    ensures var plan := PlanOf(ws, w, r, c);
      && (x in plan.affected <==> Requested(ws, r, x) && (r.force || w.saved.None? || Touched(ws, w, r, c, x)))
      && (x in plan.selected <==>
            exists a, chain :: Wanted(ws, r, plan.affected, a) && RepairChain(ws, w.files, chain, a, x))
      && (x in plan.pruned <==>
            Requested(ws, r, x) && x in ws.targets && ws.targets[x].kind in r.kinds && x !in plan.selected)
  {
    hide ReachSet, Requested, Touched, RepairChain, Repaired, Affected, ChangedTargets, BuildCatalog;
    RequestedIsReached(ws, r, x);
    AffectedIff(ws, w, r, c, writtenFor, x);
    SelectedIff(ws, w, r, c, x);
  }

  /**
   Without a catalog no edit is missed, wherever it is read from: when the hash of a path a target reads is not
   the saved one, an unforced request for everything affects that target and every target that depends on it,
   and selects the ones of the wanted kinds.
   */
  lemma ChangeIsNoticed(ws: Workspace, w: World, r: Request, n: Name, p: Path, x: Name)
    requires Closed(DepGraph(ws)) && r.roots == ws.targets.Keys && r.explicit == {}
    requires n in ws.targets && ReadsPath(ws, w.dynamic, n, p) && PathChanged(w, {}, p)
    requires x in ws.targets && LeadsTo(ws, x, n)
    ensures x in PlanOf(ws, w, r, None).affected
    ensures ws.targets[x].kind in r.kinds ==> x in PlanOf(ws, w, r, None).selected
  {
    hide LeadsTo, PathChanged, PlanOf, ReadsPath;
    assert CountsFor(ws, w.dynamic, None, n, p);
    assert NeedsChain(ws, [x], x, x);
    assert LeadsTo(ws, x, x) && Requested(ws, r, x) by { LeadsToIsReach(ws, x, x); ReachRefl(DepGraph(ws), x); }
    assert Touched(ws, w, r, None, x);
    AffectedIff(ws, w, r, None, ws, x);
    assert RepairChain(ws, w.files, [x], x, x);
    SelectedIff(ws, w, r, None, x);
  }

  /** An edit of a path some target reads, after the hashes were saved, changes the path. */
  lemma EditChangesPath(ws: Workspace, w: World, n: Name, p: Path, text: string)
    requires w.saved == Some(SourceHashes(ws, w)) && ReadsPath(ws, w.dynamic, n, p)
    requires p in w.files ==> w.files[p] != text
    ensures PathChanged(w.(files := w.files[p := text]), {}, p)
  {
    SourceChangedIff(ws, w, {p}, p);
    assert p in SourceHashes(ws, w) by {
      assert p in AllSources(ws, w.dynamic);
    }
  }

  /**
   Depfiles work: a header that an executed action's depfile named is an input from then on.  Once the state is
   saved, editing it makes the next unforced plan for everything select that target and all above it.
   */
  lemma RecordedHeaderIsNoticed(ws: Workspace, w: World, o: Options, n: Name, header: Path, text: string, r: Request,
          x: Name)
    requires Closed(DepGraph(ws)) && KnownDeps(ws, n) && ExecuteAction(ws, w, o, n).1 == Executed
    requires n in o.depfiles && header in o.depfiles[n]
    requires r.roots == ws.targets.Keys && r.explicit == {} && x in ws.targets && LeadsTo(ws, x, n)
    requires header in ExecuteAction(ws, w, o, n).0.files ==> ExecuteAction(ws, w, o, n).0.files[header] != text
    ensures var v := ExecuteAction(ws, w, o, n).0;
      var edited := v.(saved := Some(SourceHashes(ws, v)), files := v.files[header := text]);
      && x in PlanOf(ws, edited, r, None).affected
      && (ws.targets[x].kind in r.kinds ==> x in PlanOf(ws, edited, r, None).selected)
  {
    var v := ExecuteAction(ws, w, o, n).0;
    assert v.dynamic == w.dynamic[n := o.depfiles[n]];
    hide ExecuteAction, PlanOf, LeadsTo, SourceHashes, PathChanged;
    var saved := v.(saved := Some(SourceHashes(ws, v)));
    assert SourceHashes(ws, saved) == SourceHashes(ws, v) by { SameHashes(ws, v, saved); }
    EditChangesPath(ws, saved, n, header, text);
    ChangeIsNoticed(ws, saved.(files := saved.files[header := text]), r, n, header, x);
  }

  lemma SameHashes(ws: Workspace, a: World, b: World)
    requires a.files == b.files && a.dynamic == b.dynamic
    ensures SourceHashes(ws, a) == SourceHashes(ws, b)
  {
  }

  // ----- stale catalogs -----------------------------------------------------------------------

  /** A catalog is usable exactly while only the order of dependencies differs from the manifest it was written for. */
  lemma StaleIff(ws: Workspace, old_: Workspace)
    ensures !IsStale(ws, BuildCatalog(old_)) <==>
      && ws.toolchain == old_.toolchain && ws.envKeys == old_.envKeys && ws.targets.Keys == old_.targets.Keys
      && forall n :: n in ws.targets && n in old_.targets ==> SameUpToOrder(ws.targets[n], old_.targets[n])
  {
    var a, b := FingerprintOf(ws).targets, FingerprintOf(old_).targets;
    if a == b {
      assert ws.targets.Keys == a.Keys == b.Keys == old_.targets.Keys;
      forall n | n in ws.targets && n in old_.targets ensures SameUpToOrder(ws.targets[n], old_.targets[n]) {
        assert a[n] == b[n];
      }
    }
  }

  ghost predicate SameUpToOrder(t: Target, u: Target) {
    multiset(t.deps) == multiset(u.deps) && t.(deps := u.deps) == u
  }
}
