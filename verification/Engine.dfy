/**
 The engine's mutable state: `execute_action`, `execute_plan` and `run_build` as
 methods over the files, the stores and the saved state on disk.
 */
module Engine {
  import opened Graph
  import opened SourceText
  import opened Scheduler
  import opened Traversals
  import opened Actions
  import opened Planner
  import opened Incremental
  import opened PartialBuilds
  import opened Settling
  import opened Executor
  import L = ListScheduling
  import S = StartOrder
  import opened Wrappers

  datatype BuildResult =
    | Done(completed: seq<Name>, failed: set<Name>, skipped: set<Name>)
    | Aborted(failed_: Name)
    | MissingDependency(of: Name)
    | Incomplete(missing: set<Name>)

  predicate Succeeded(r: BuildResult) {
    r.Done? && r.failed == {}
  }

  /** The source text of an action makes it fail, or makes the sandbox deny it. */
  predicate Refused(ws: Workspace, dynamic: DynamicDeps, o: Options, n: Name, text: string)
    requires KnownDeps(ws, n)
  {
    AsksToFail(text) || (o.sandbox && ReadsMore(ws, dynamic, n, text))
  }

  /** The selected targets whose source, once everything they read is built, fails them. */
  ghost function Failures(ws: Workspace, start: World, o: Options, selected: set<Name>): set<Name>
    requires Closed(DepGraph(ws))
  {
    set n | n in selected && n in ws.targets && Fails(ws, start, o, selected, n)
  }

  ghost predicate Fails(ws: Workspace, start: World, o: Options, selected: set<Name>, n: Name)
    requires Closed(DepGraph(ws)) && n in ws.targets
  {
    DepEdge(ws, n);
    match TextOf(ws, start.files, selected, n)
    case Some(Some(text)) => Refused(ws, start.dynamic, o, n, text)
    case _ => false
  }

  // ----- facts the loop of execute_plan uses ------------------------------------

  lemma ReachedRunning(g: Graph, fails: set<Name>, jobs: nat, first: seq<Name>, events: seq<Scheduler.Event>,
          now: State, n: Name)
    requires Reached(g, fails, jobs, first, events, now) && n in now.running
    ensures n in g && g[n] <= Elems(now.completed) && n !in Elems(now.completed) && n !in now.failed
  {
    RunInv(g, fails, jobs, first, events);
    var v := SetsOf(now);
    assert n in v.Started();
  }

  lemma AllRunning(g: Graph, fails: set<Name>, jobs: nat, first: seq<Name>, events: seq<Scheduler.Event>, now: State)
    requires Reached(g, fails, jobs, first, events, now)
    ensures forall n :: n in now.running ==>
        n in g && g[n] <= Elems(now.completed) && n !in Elems(now.completed) && n !in now.failed
  {
    forall n | n in now.running
      ensures n in g && g[n] <= Elems(now.completed) && n !in Elems(now.completed) && n !in now.failed
    {
      ReachedRunning(g, fails, jobs, first, events, now, n);
    }
  }

  lemma ReachedFailure(g: Graph, fails: set<Name>, jobs: nat, first: seq<Name>, events: seq<Scheduler.Event>,
          now: State, n: Name)
    requires Reached(g, fails, jobs, first, events, now) && n in now.failed
    ensures n in FailedSet(g, fails)
  {
    RunInv(g, fails, jobs, first, events);
    FailedIsFirst(g, fails, now, n);
  }

  lemma ReachedMissing(g: Graph, fails: set<Name>, jobs: nat, first: seq<Name>, events: seq<Scheduler.Event>,
          now: State, n: Name)
    requires Closed(g) && Reached(g, fails, jobs, first, events, now) && Finished(now)
    requires n in g && n !in CompletedSet(g, fails) && n !in FailedSet(g, fails) &&
        n !in Blocked(g, FailedSet(g, fails))
    ensures ReachesCycle(g, n)
  {
    RunInv(g, fails, jobs, first, events);
    FinishedOutcome(g, fails, now);
    StuckReachesCycle(g, fails, now, n);
  }

  /** A plan in progress: `now` is the fold of the actions completed so far. */
  ghost predicate InRun(ws: Workspace, start: World, now: World, o: Options, selected: set<Name>, done: seq<Name>)
    requires Closed(DepGraph(ws))
  {
    && ValidStore(ws, now) && (o.sandbox ==> Screened(ws, now.cache))
    && DepFirstIn(ws, selected, done) && Known(ws, done) && RunAll(ws, start, o, done) == Some(now)
    && Frame(ws, start, now, Elems(done)) && SettledBy(ws, start.files, now.files, selected, Elems(done))
  }

  lemma OneMore(ws: Workspace, selected: set<Name>, done: seq<Name>, n: Name)
    requires DepFirstIn(ws, selected, done) && n in ws.targets && n in selected && n !in Elems(done)
    requires Induced(DepGraph(ws), selected)[n] <= Elems(done)
    ensures DepFirstIn(ws, selected, done + [n]) && Elems(done + [n]) == Elems(done) + {n}
  {
    var g, order := Induced(DepGraph(ws), selected), done + [n];
    ElemsAppend(done, [n]);
    assert Elems([n]) == {n};
    forall i | 0 <= i < |order| ensures Placed(g, order, i) {
      if i < |done| {
        assert Placed(g, done, i) && order[..i] == done[..i];
      } else {
        assert order[..i] == done;
      }
    }
  }

  /** The sandbox and the source decide alike from the run and from its start. */
  lemma FailsNow(ws: Workspace, start: World, now: World, o: Options, selected: set<Name>, done: set<Name>, n: Name)
    requires ValidManifest(ws) && Frame(ws, start, now, done) && SettledBy(ws, start.files, now.files, selected, done)
    requires Turn(ws, start.files, selected, done, n) && n !in done
    ensures KnownDeps(ws, n)
    ensures Fails(ws, start, o, selected, n) <==>
      SourceFails(ws, now.files, n) || (o.sandbox && Denied(ws, now.files, now.dynamic, n))
  {
    hide AsksToFail, SettledBy, Turn, TextOf;
    TextNow(ws, start, now, selected, done, n);
    assert SameDynamic(start.dynamic, now.dynamic, n);
  }

  lemma FailedStatus(ws: Workspace, now: World, o: Options, n: Name)
    requires KnownDeps(ws, n) && ValidStore(ws, now) && (o.sandbox ==> Screened(ws, now.cache))
    ensures ExecuteAction(ws, now, o, n).1 == ActionFailed <==>
      SourceFails(ws, now.files, n) || (o.sandbox && Denied(ws, now.files, now.dynamic, n))
  {
    ActionEffect(ws, now, o, n);
    if IsHit(ws, now, o, n) {
      HitIsFaithful(ws, now, o, n);
    }
  }

  lemma SelectedIsRead(ws: Workspace, selected: set<Name>, n: Name, d: Name)
    requires n in ws.targets && n in selected && d in ws.targets[n].deps
    ensures d in selected ==> d in Reads(ws, selected)[n]
  {
  }

  lemma CrashMisses(ws: Workspace, now: World, o: Options, n: Name)
    requires KnownDeps(ws, n) && ValidStore(ws, now) && ExecuteAction(ws, now, o, n).1 == ActionCrashed
    ensures !DepsPresent(ws, now.files, n)
  {
    hide ValidStore;
    ActionEffect(ws, now, o, n);
  }

  lemma CrashedStatus(ws: Workspace, start: World, now: World, o: Options, selected: set<Name>, done: set<Name>,
          n: Name)
    requires ValidManifest(ws) && ValidStore(ws, now) && Frame(ws, start, now, done)
    requires Turn(ws, start.files, selected, done, n) && KnownDeps(ws, n)
    requires ExecuteAction(ws, now, o, n).1 == ActionCrashed
    ensures !RepairClosed(ws, start.files, selected)
  {
    hide ValidStore, ExecuteAction, ReachesCycle, DistinctOuts, RunAction;
    CrashMisses(ws, now, o, n);
    var d :| d in ws.targets[n].deps && ws.targets[d].out !in now.files;
    SelectedIsRead(ws, selected, n, d);
    OutsideOuts(ws, done, d);
    assert SameFile(start.files, now.files, ws.targets[d].out);
  }

  lemma StaysScreened(ws: Workspace, now: World, o: Options, n: Name)
    requires KnownDeps(ws, n) && (o.sandbox ==> Screened(ws, now.cache))
    ensures o.sandbox ==> Screened(ws, ExecuteAction(ws, now, o, n).0.cache)
  {
    if o.sandbox {
      ScreenedNext(ws, now, o, n);
    }
  }

  /** One more action of a plan in progress. */
  lemma ActionInRun(ws: Workspace, start: World, now: World, o: Options, selected: set<Name>, done: seq<Name>, n: Name)
    requires ValidManifest(ws) && InRun(ws, start, now, o, selected, done) && WellRead(ws, start.files, selected)
    requires n in selected && n in ws.targets && n !in Elems(done)
    requires Induced(DepGraph(ws), selected)[n] <= Elems(done)
    ensures KnownDeps(ws, n)
    ensures var (next, status) := ExecuteAction(ws, now, o, n);
      && (status == ActionFailed <==> n in Failures(ws, start, o, selected))
      && (status == ActionCrashed ==> !RepairClosed(ws, start.files, selected))
      && (if Succeeds(status) then InRun(ws, start, next, o, selected, done + [n]) else next == now)
  {
    hide Frame, SettledBy, ValidStore, Screened, RepairClosed, RunAll, DepFirstIn, WellRead, Turn, Fails, Denied,
        SourceFails, Attempt;
    OneMore(ws, selected, done, n);
    var order := done + [n];
    assert order[..|order| - 1] == done && order[|order| - 1] == n;
    LastTurn(ws, start.files, selected, order);
    FailsNow(ws, start, now, o, selected, Elems(done), n);
    FailedStatus(ws, now, o, n);
    StaysScreened(ws, now, o, n);
    RunSettlesStep(ws, start, now, o, selected, Elems(done), n);
    RunAllNext(ws, start, o, done, n);
    var (next, status) := ExecuteAction(ws, now, o, n);
    if status == ActionCrashed {
      CrashedStatus(ws, start, now, o, selected, Elems(done), n);
    }
    if Succeeds(status) {
      FrameNext(ws, start, now, o, Elems(done), n);
      KnownMore(ws, done, n);
    }
  }

  lemma KnownMore(ws: Workspace, done: seq<Name>, n: Name)
    requires Known(ws, done) && KnownDeps(ws, n)
    ensures Known(ws, done + [n])
  {
  }

  /** What a plan that ran to its end has done: its three sets, its completion order, and the saved world. */
  ghost predicate DoneRight(ws: Workspace, start: World, after: World, o: Options, selected: set<Name>,
          keepGoing: bool, evicted: set<Digest>, r: BuildResult)
    requires ValidManifest(ws) && r.Done?
  {
    var g, fails := Induced(DepGraph(ws), selected), Failures(ws, start, o, selected);
    && Elems(r.completed) == CompletedSet(g, fails)
    && r.failed == FailedSet(g, fails) && r.skipped == Blocked(g, r.failed)
    && Elems(r.completed) + r.failed + r.skipped == selected
    && (!keepGoing ==> r.failed == {})
    && IsSchedule(g, CompletedSet(g, fails), r.completed)
    && Known(ws, r.completed) && RunAll(ws, start, o, r.completed).Some?
    && after == SaveState(ws, RunAll(ws, start, o, r.completed).value, evicted)
  }

  /** What a plan that raised tells its caller, and leaves on disk: what has run, with cache and state unsaved. */
  ghost predicate StoppedRight(ws: Workspace, start: World, after: World, o: Options, selected: set<Name>,
          keepGoing: bool, r: BuildResult)
    requires ValidManifest(ws)
  {
    && ToldRight(ws, start, o, selected, keepGoing, r)
    && exists order :: AbortedRun(ws, start, selected, o, order, after)
  }

  ghost predicate ToldRight(ws: Workspace, start: World, o: Options, selected: set<Name>, keepGoing: bool,
          r: BuildResult)
    requires ValidManifest(ws)
  {
    var g, fails := Induced(DepGraph(ws), selected), Failures(ws, start, o, selected);
    match r
    case Done(_, _, _) => false
    case Aborted(n) => !keepGoing && n in FailedSet(g, fails)
    case MissingDependency(_) => !RepairClosed(ws, start.files, selected)
    case Incomplete(missing) => missing != {} && forall n :: n in missing ==> n in selected && ReachesCycle(g, n)
  }

  lemma MissingIsRight(ws: Workspace, start: World, o: Options, selected: set<Name>, keepGoing: bool, n: Name)
    requires ValidManifest(ws) && !RepairClosed(ws, start.files, selected)
    ensures ToldRight(ws, start, o, selected, keepGoing, MissingDependency(n))
  {
  }

  lemma AbortIsRight(ws: Workspace, start: World, o: Options, selected: set<Name>, n: Name)
    requires ValidManifest(ws)
    requires n in FailedSet(Induced(DepGraph(ws), selected), Failures(ws, start, o, selected))
    ensures ToldRight(ws, start, o, selected, false, Aborted(n))
  {
  }

  /** What a plan in progress leaves behind when it raises. */
  lemma StopIsRight(ws: Workspace, start: World, now: World, after: World, o: Options, selected: set<Name>,
          done: seq<Name>, keepGoing: bool, r: BuildResult)
    requires ValidManifest(ws) && InRun(ws, start, now, o, selected, done)
    requires after == now.(cache := start.cache) && ToldRight(ws, start, o, selected, keepGoing, r)
    ensures StoppedRight(ws, start, after, o, selected, keepGoing, r)
  {
    assert AbortedRun(ws, start, selected, o, done, after);
  }

  lemma SelectionFacts(ws: Workspace, selected: set<Name>)
    requires ValidManifest(ws) && selected <= ws.targets.Keys
    ensures selected <= DepGraph(ws).Keys && Closed(DepGraph(ws))
    ensures Closed(Induced(DepGraph(ws), selected)) && Induced(DepGraph(ws), selected).Keys == selected
  {
    InducedClosed(DepGraph(ws), selected);
  }

  lemma InRunStore(ws: Workspace, start: World, now: World, o: Options, selected: set<Name>, done: seq<Name>)
    requires Closed(DepGraph(ws)) && InRun(ws, start, now, o, selected, done)
    ensures ValidStore(ws, now) && ValidCas(now.cas) && now.saved == start.saved
    ensures o.sandbox ==> Screened(ws, now.cache)
  {
  }

  lemma StartInRun(ws: Workspace, start: World, o: Options, selected: set<Name>)
    requires Closed(DepGraph(ws)) && ValidStore(ws, start) && (o.sandbox ==> Screened(ws, start.cache))
    ensures InRun(ws, start, start, o, selected, [])
  {
    var none: seq<Name> := [];
    assert Elems(none) == {} && DepFirstIn(ws, selected, none);
  }

  lemma IncompleteIsRight(ws: Workspace, start: World, o: Options, selected: set<Name>, keepGoing: bool,
          missing: set<Name>)
    requires ValidManifest(ws) && missing != {} && missing <= selected
    requires forall n :: n in missing ==> ReachesCycle(Induced(DepGraph(ws), selected), n)
    ensures ToldRight(ws, start, o, selected, keepGoing, Incomplete(missing))
  {
  }

  /** Saving a run that left nothing out. */
  lemma SaveIsRight(ws: Workspace, start: World, now: World, o: Options, selected: set<Name>, keepGoing: bool,
          evicted: set<Digest>, r: BuildResult)
    requires ValidManifest(ws) && selected <= ws.targets.Keys && r.Done?
    requires InRun(ws, start, now, o, selected, r.completed)
    requires var g, fails := Induced(DepGraph(ws), selected), Failures(ws, start, o, selected);
      && Elems(r.completed) == CompletedSet(g, fails)
      && r.failed == FailedSet(g, fails) && r.skipped == Blocked(g, FailedSet(g, fails))
      && IsSchedule(g, CompletedSet(g, fails), r.completed)
    requires selected <= Elems(r.completed) + r.failed + r.skipped && (!keepGoing ==> r.failed == {})
    ensures DoneRight(ws, start, SaveState(ws, now, evicted), o, selected, keepGoing, evicted, r)
    ensures ValidStore(ws, SaveState(ws, now, evicted))
  {
    hide IsSchedule, Frame, SettledBy, RunAll, Known, StrictReach, Reach;
    InducedClosed(DepGraph(ws), selected);
  }

  lemma AllReachCycle(g: Graph, fails: set<Name>, jobs: nat, first: seq<Name>, events: seq<Scheduler.Event>,
          now: State, missing: set<Name>)
    requires Closed(g) && Reached(g, fails, jobs, first, events, now) && Finished(now)
    requires missing == g.Keys - CompletedSet(g, fails) - FailedSet(g, fails) - Blocked(g, FailedSet(g, fails))
    ensures forall n :: n in missing ==> ReachesCycle(g, n)
  {
    forall n | n in missing ensures ReachesCycle(g, n) {
      ReachedMissing(g, fails, jobs, first, events, now, n);
    }
  }

  lemma PlanFacts(ws: Workspace, w: World, r: Request, c: Option<Catalog>, predictive: bool)
    requires ValidManifest(ws) && Acyclic(DepGraph(ws)) && r.roots <= ws.targets.Keys
    ensures ValidManifest(ws) && Closed(DepGraph(ws))
    ensures RepairClosed(ws, w.files, PlanOf(ws, w, r, c).selected)
    ensures var selected := Pick(ws, PlanOf(ws, w, r, c), predictive).selected;
      selected <= ws.targets.Keys && Acyclic(Induced(DepGraph(ws), selected))
  {
    hide PlanOf, Predicted, RepairClosed, OfKind;
    PlanParts(ws, w, r, c);
    InducedAcyclic(DepGraph(ws), Pick(ws, PlanOf(ws, w, r, c), predictive).selected);
  }

  /**
   A selection of an acyclic workspace runs to its end or stops at a failing source, unless it is not
   repaired: then it may miss a dependency's output.
   */
  lemma PlanStops(ws: Workspace, start: World, o: Options, selected: set<Name>, keepGoing: bool, r: BuildResult)
    requires ValidManifest(ws) && Acyclic(Induced(DepGraph(ws), selected))
    requires !r.Done? ==> ToldRight(ws, start, o, selected, keepGoing, r)
    ensures r.Done? || r.Aborted? || (r.MissingDependency? && !RepairClosed(ws, start.files, selected))
  {
    AcyclicIffNoCycleReached(Induced(DepGraph(ws), selected));
  }

  lemma StoppedTells(ws: Workspace, start: World, after: World, o: Options, selected: set<Name>, keepGoing: bool,
          r: BuildResult)
    requires ValidManifest(ws) && StoppedRight(ws, start, after, o, selected, keepGoing, r)
    ensures ToldRight(ws, start, o, selected, keepGoing, r)
  {
  }

  /** A plan that raised keeps the invariant of whole histories, with the changed sources suspect. */
  lemma StopKeepsInv(ws: Workspace, start: World, tainted: set<Path>, after: World, o: Options, selected: set<Name>,
          keepGoing: bool, r: BuildResult)
    requires ValidManifest(ws) && ListedWriters(ws) && Acyclic(DepGraph(ws)) && BuildInv(ws, start, tainted)
    requires StoppedRight(ws, start, after, o, selected, keepGoing, r)
    ensures BuildInv(ws, after, tainted + Suspect(ws, start))
  {
    hide BuildInv, ToldRight, AbortedRun, ListedWriters, Acyclic;
    var order :| AbortedRun(ws, start, selected, o, order, after);
    ListedIsDeclared(ws);
    DeclaredIsBuildable(ws);
    ListedIsWellRead(ws, start.files, Elems(order));
    AbortKeepsInv(ws, start, tainted, selected, o, order, after);
  }

  lemma BuildWasClean(ws: Workspace, start: World, tainted: set<Path>, r: Request, c: Option<Catalog>,
          predictive: bool, o: Options, keepGoing: bool, evicted: set<Digest>, result: BuildResult, after: World)
    requires ValidManifest(ws) && ListedWriters(ws) && Acyclic(DepGraph(ws))
    requires BuildInv(ws, start, tainted) && Unreverted(ws, start, tainted)
    requires r.roots <= ws.targets.Keys && FullScope(ws, r) && CatalogOk(c, ws) && Succeeded(result)
    requires var selected := Pick(ws, PlanOf(ws, start, r, c), predictive).selected;
      if selected == {} then after == start else DoneRight(ws, start, after, o, selected, keepGoing, evicted, result)
    ensures BuildInv(ws, after, {}) && UpToDate(ws, after.files)
    ensures forall n :: n in Pick(ws, PlanOf(ws, start, r, c), predictive).selected && n in ws.targets ==>
        ws.targets[n].out in after.files
  {
    hide PlanOf, Pick, BuildInv, UpToDate, FullScope, CatalogOk, Acyclic, ListedWriters, DeclaredWriters, Unreverted,
        DoneRight, Next, ReadGraph, DistinctOuts, SuccessfulBuild;
    var selected := Pick(ws, PlanOf(ws, start, r, c), predictive).selected;
    ListedIsDeclared(ws);
    DeclaredIsBuildable(ws);
    if selected == {} {
      NothingIsSuccess(ws, start, o, result.completed, evicted);
    } else {
      DoneIsSuccess(ws, start, after, o, selected, keepGoing, evicted, result);
    }
    SuccessIsNext(ws, start, r, c, predictive, o, result.completed, evicted, after);
    BuildKeepsInv(ws, start, tainted, Build(r, c, ws, predictive, o, result.completed, evicted), after);
  }

  lemma NothingIsSuccess(ws: Workspace, start: World, o: Options, order: seq<Name>, evicted: set<Digest>)
    ensures SuccessfulBuild(ws, start, {}, o, order, evicted, start)
  {
  }

  lemma DoneIsSuccess(ws: Workspace, start: World, after: World, o: Options, selected: set<Name>, keepGoing: bool,
          evicted: set<Digest>, result: BuildResult)
    requires ValidManifest(ws) && Succeeded(result) && selected != {}
    requires DoneRight(ws, start, after, o, selected, keepGoing, evicted, result)
    ensures SuccessfulBuild(ws, start, selected, o, result.completed, evicted, after)
  {
    hide IsSchedule, CompletedSet, Failures, RunAll, FailedSet;
    var g := Induced(DepGraph(ws), selected);
    assert Blocked(g, {}) == {};
    assert Elems(result.completed) == selected;
  }

  lemma SuccessIsNext(ws: Workspace, start: World, r: Request, c: Option<Catalog>, predictive: bool, o: Options,
          order: seq<Name>, evicted: set<Digest>, after: World)
    requires Closed(DepGraph(ws)) && r.roots <= ws.targets.Keys && FullScope(ws, r) && CatalogOk(c, ws)
    requires var s := Pick(ws, PlanOf(ws, start, r, c), predictive).selected;
      SuccessfulBuild(ws, start, s, o, order, evicted, after)
    ensures Next(ws, start, Build(r, c, ws, predictive, o, order, evicted), after)
  {
  }

  // ----- what finished plans have in common ---------------------------------------

  /**
   Two plans of one selection that ran to their ends from the same start, with
   any number of workers, policy, cache setting and keep-going, both in the
   sandbox or both outside, and whatever failed: the same targets completed, failed and were skipped, and the files
   are the same.
   */
  lemma SameResults(ws: Workspace, start: World, selected: set<Name>, a: World, oa: Options, ka: bool,
          ea: set<Digest>, ra: BuildResult, b: World, ob: Options, kb: bool, eb: set<Digest>, rb: BuildResult)
    requires ValidManifest(ws) && ValidStore(ws, start) && selected <= ws.targets.Keys
    requires WellRead(ws, start.files, selected) && oa.sandbox == ob.sandbox
    requires ra.Done? && DoneRight(ws, start, a, oa, selected, ka, ea, ra)
    requires rb.Done? && DoneRight(ws, start, b, ob, selected, kb, eb, rb)
    ensures a.files == b.files
    ensures Elems(ra.completed) == Elems(rb.completed) && ra.failed == rb.failed && ra.skipped == rb.skipped
  {
    hide IsSchedule, CompletedSet, FailedSet, Blocked, Failures, ValidStore, RunAll, Known, WellRead;
    SameFailures(ws, start, oa, ob, selected);
    OutputsIgnoreSchedule(ws, start, oa, ob, selected, Elems(ra.completed), ra.completed, rb.completed);
  }

  lemma SameFailures(ws: Workspace, start: World, oa: Options, ob: Options, selected: set<Name>)
    requires Closed(DepGraph(ws)) && oa.sandbox == ob.sandbox
    ensures Failures(ws, start, oa, selected) == Failures(ws, start, ob, selected)
  {
  }

  /** A finished plan is a saved run of what it completed. */
  lemma DoneIsSavedRun(ws: Workspace, start: World, after: World, o: Options, selected: set<Name>, keepGoing: bool,
          evicted: set<Digest>, result: BuildResult)
    requires ValidManifest(ws) && selected <= ws.targets.Keys
    requires result.Done? && DoneRight(ws, start, after, o, selected, keepGoing, evicted, result)
    ensures SavedRun(ws, start, Elems(result.completed), o, result.completed, evicted, after)
  {
    hide IsSchedule, CompletedSet, FailedSet, Blocked, Failures, RunAll, Known, DepFirstIn;
    ScheduleIsDepFirstIn(ws, selected, Elems(result.completed), result.completed);
  }

  /** After a plan that ran to its end: up to date exactly when the outputs it did not rebuild were clean before. */
  lemma FinishedUpToDateIff(ws: Workspace, start: World, after: World, o: Options, selected: set<Name>,
          keepGoing: bool, evicted: set<Digest>, result: BuildResult)
    requires Buildable(ws) && ValidStore(ws, start) && selected <= ws.targets.Keys
    requires WellRead(ws, start.files, selected)
    requires result.Done? && DoneRight(ws, start, after, o, selected, keepGoing, evicted, result)
    ensures UpToDate(ws, after.files) <==> CleanOutside(ws, start.files, Elems(result.completed))
  {
    hide SavedRun, UpToDate, CleanOutside, WellRead, Acyclic, ValidStore, RunAll, Failures;
    DoneIsSavedRun(ws, start, after, o, selected, keepGoing, evicted, result);
    ScheduleIsDepFirstIn(ws, selected, Elems(result.completed), result.completed);
    WellReadPart(ws, start.files, selected, result.completed);
    UpToDateAfterIff(ws, start, Elems(result.completed), o, result.completed, evicted, after);
  }

  lemma InducedReach(g: Graph, s: set<Name>, n: Name, m: Name)
    requires StrictReach(Induced(g, s), n, m)
    ensures Reach(g, n, m)
  {
    var p :| |p| >= 2 && IsPath(Induced(g, s), p, n, m);
    InducedWalk(g, s, p);
    assert IsPath(g, p, n, m);
  }

  /** A failed or skipped target was not completed. */
  lemma UnfinishedIsNotDone(g: Graph, fails: set<Name>, n: Name)
    requires n in FailedSet(g, fails) + Blocked(g, FailedSet(g, fails))
    ensures n !in CompletedSet(g, fails)
  {
    if n in FailedSet(g, fails) {
      ReachRefl(g, n);
    } else {
      var f :| f in FailedSet(g, fails) && StrictReach(g, n, f);
      StrictIsReach(g, n, f);
    }
  }

  /** A source that fails its target, and that no target writes, leaves the target without a clean output. */
  lemma FailureIsNotClean(ws: Workspace, start: World, o: Options, selected: set<Name>, f: Name)
    requires Closed(DepGraph(ws)) && f in Failures(ws, start, o, selected) && !o.sandbox && WriterOf(ws, f).None?
    ensures !Clean(ws, start.files, f).Ran?
  {
    if !ReachesCycle(Reads(ws, ws.targets.Keys), f) {
      SettleUnfold(ws, start.files, ws.targets.Keys, f);
    }
  }

  lemma UnfinishedIsNotClean(ws: Workspace, start: World, o: Options, selected: set<Name>, n: Name)
    requires Closed(DepGraph(ws)) && selected <= ws.targets.Keys && !o.sandbox
    requires var g, failed := Induced(DepGraph(ws), selected),
        FailedSet(Induced(DepGraph(ws), selected), Failures(ws, start, o, selected));
      n in failed + Blocked(g, failed) && forall f :: f in failed && f in ws.targets ==> WriterOf(ws, f).None?
    ensures n in ws.targets && !Clean(ws, start.files, n).Ran?
  {
    var g, fails := Induced(DepGraph(ws), selected), Failures(ws, start, o, selected);
    var f := n;
    if n in FailedSet(g, fails) {
      ReachRefl(DepGraph(ws), n);
    } else {
      f :| f in FailedSet(g, fails) && StrictReach(g, n, f);
      InducedReach(DepGraph(ws), selected, n, f);
    }
    hide Failures, Clean, StrictReach, Reach;
    FailureIsNotClean(ws, start, o, selected, f);
    FailureSpreads(ws, start.files, n, f);
  }

  /**
   A keep-going build with failures forgets too: an old output of a failed or
   skipped target stays in place, what it ought to be stays the same, and the
   next unforced plan selects nothing.  If the failing sources are not written by
   targets, and the sandbox is off, a clean build has no such output at all.
   */
  lemma FailedBuildForgets(ws: Workspace, start: World, after: World, o: Options, selected: set<Name>,
          keepGoing: bool, evicted: set<Digest>, result: BuildResult, n: Name, r: Request, c: Option<Catalog>)
    requires ValidManifest(ws) && ValidStore(ws, start) && selected <= ws.targets.Keys
    requires result.Done? && DoneRight(ws, start, after, o, selected, keepGoing, evicted, result)
    requires n in result.failed + result.skipped && n in ws.targets && ws.targets[n].out in start.files
    requires r.roots <= ws.targets.Keys && r.explicit == {} && !r.force
    ensures SameFile(start.files, after.files, ws.targets[n].out)
    ensures Clean(ws, after.files, n) == Clean(ws, start.files, n)
    ensures PlanOf(ws, after, r, c).selected == {}
    ensures !o.sandbox && (forall f :: f in result.failed && f in ws.targets ==> WriterOf(ws, f).None?) ==>
      !Clean(ws, after.files, n).Ran? && !UpToDate(ws, after.files)
  {
    hide IsSchedule, CompletedSet, FailedSet, Blocked, Failures, RunAll, Known, SavedRun, Clean, PlanOf, ValidStore;
    var g, fails := Induced(DepGraph(ws), selected), Failures(ws, start, o, selected);
    UnfinishedIsNotDone(g, fails, n);
    DoneIsSavedRun(ws, start, after, o, selected, keepGoing, evicted, result);
    OutsideSurvives(ws, start, Elems(result.completed), o, result.completed, evicted, after, n);
    NothingChangedAfterBuild(ws, RunAll(ws, start, o, result.completed).value, evicted, r, c);
    if !o.sandbox && forall f :: f in result.failed && f in ws.targets ==> WriterOf(ws, f).None? {
      UnfinishedIsNotClean(ws, start, o, selected, n);
    }
  }

  class Engine {
    const ws: Workspace
    var files: Files
    var cache: map<Key, Digest>
    var cas: map<Digest, string>
    var saved: Option<map<Path, FileHash>>
    var dynamic: DynamicDeps

    constructor (ws: Workspace, files: Files)
      ensures this.ws == ws && View() == World(files, map[], map[], None, map[])
    {
      this.ws, this.files := ws, files;
      cache, cas, saved, dynamic := map[], map[], None, map[];
    }

    /** The state with `live` for the action cache a running plan holds in memory. */
    function Live(live: map<Key, Digest>): World
      reads this
    {
      World(files, live, cas, saved, dynamic)
    }

    function View(): World
      reads this
    {
      Live(cache)
    }

    /** The invariant of whole histories, with no suspect source back at its saved content. */
    ghost predicate Sound(w: World, tainted: set<Path>)
      requires Closed(DepGraph(ws))
    {
      BuildInv(ws, w, tainted) && Unreverted(ws, w, tainted)
    }

    method StoreBlob(data: string) returns (digest: Digest)
      modifies this`cas
      ensures digest == Sha(data)
      ensures cas == if Sha(data) in old(cas) then old(cas) else old(cas)[Sha(data) := data]
    {
      digest := Sha(data);
      if digest !in cas {
        cas := cas[digest := data];
      }
    }

    method ExecuteAction(n: Name, live: map<Key, Digest>, o: Options) returns (status: Status, live': map<Key, Digest>)
      requires KnownDeps(ws, n)
      modifies this`files, this`cas, this`dynamic
      ensures (Live(live'), status) == Actions.ExecuteAction(ws, old(Live(live)), o, n)
    {
      var t := ws.targets[n];
      live' := live;
      var key := ActionKey(ws, files, dynamic, o.context, n);
      if o.useCache && key in live && live[key] in cas {
        files := files[t.out := cas[live[key]]];
        return CacheHit, live';
      }
      if o.sandbox && Denied(ws, files, dynamic, n) {
        return ActionFailed, live';
      }
      if t.src in files && AsksToFail(files[t.src]) {
        return ActionFailed, live';
      }
      var depData, i := [], 0;
      while i < |t.deps|
        invariant 0 <= i <= |t.deps| == |ws.targets[n].deps| && |depData| == i
        invariant forall k :: 0 <= k < i ==>
          ws.targets[t.deps[k]].out in files && depData[k] == files[ws.targets[t.deps[k]].out]
      {
        var out := ws.targets[t.deps[i]].out;
        if out !in files {
          return ActionCrashed, live';
        }
        depData := depData + [files[out]];
        i := i + 1;
      }
      assert DepsPresent(ws, files, n);
      assert depData == DepData(ws, files, n);
      var data := ActionOutput(ws, n, Read(files, t.src), depData);
      files := files[t.out := data];
      var digest := StoreBlob(data);
      if n in o.depfiles {
        dynamic := dynamic[n := o.depfiles[n]];
      }
      live' := live[key := digest];
      status := Executed;
    }

    /** Leaving the pool waits for the submitted actions; their results are dropped. */
    method Drain(running: set<Name>, done: seq<Name>, live: map<Key, Digest>, o: Options, ghost start: World,
            selected: set<Name>)
        returns (ghost ran: seq<Name>, live': map<Key, Digest>)
      requires ValidManifest(ws) && selected <= ws.targets.Keys && WellRead(ws, start.files, selected)
      requires InRun(ws, start, Live(live), o, selected, done)
      requires running <= selected - Elems(done)
      requires forall n :: n in running ==> Induced(DepGraph(ws), selected)[n] <= Elems(done)
      modifies this`files, this`cas, this`dynamic
      ensures saved == old(saved) && InRun(ws, start, Live(live'), o, selected, ran)
    {
      hide InRun, WellRead;
      var rest := running;
      ran, live' := done, live;
      while rest != {}
        invariant rest <= running && saved == old(saved) && Elems(ran) !! rest && Elems(done) <= Elems(ran)
        invariant InRun(ws, start, Live(live'), o, selected, ran)
        decreases rest
      {
        var n :| n in rest;
        var status;
        ghost var before := ran;
        status, live' := RunOne(ran, n, live', o, start, selected);
        ran := if Succeeds(status) then ran + [n] else ran;
        ElemsAppend(before, [n]);
        assert Elems([n]) == {n};
        rest := rest - {n};
      }
    }

    ghost predicate Executing(run: Run, start: World, live: map<Key, Digest>, o: Options, selected: set<Name>)
      requires Closed(DepGraph(ws))
      reads this, run
    {
      && run.Valid() && run.g == Induced(DepGraph(ws), selected) && run.g.Keys == selected &&
          run.fails == Failures(ws, start, o, selected)
      && cache == start.cache && InRun(ws, start, Live(live), o, selected, run.completed)
    }

    /** Run one action of a plan in progress. */
    method RunOne(ghost done: seq<Name>, n: Name, live: map<Key, Digest>, o: Options, ghost start: World,
            ghost selected: set<Name>)
        returns (status: Status, live': map<Key, Digest>)
      requires ValidManifest(ws) && WellRead(ws, start.files, selected)
      requires n in selected && n in ws.targets && n !in Elems(done)
      requires InRun(ws, start, Live(live), o, selected, done)
      requires Induced(DepGraph(ws), selected)[n] <= Elems(done)
      modifies this`files, this`cas, this`dynamic
      ensures status == ActionFailed <==> n in Failures(ws, start, o, selected)
      ensures status == ActionCrashed ==> !RepairClosed(ws, start.files, selected)
      ensures saved == old(saved)
      ensures InRun(ws, start, Live(live'), o, selected, if Succeeds(status) then done + [n] else done)
    {
      hide InRun, WellRead, Failures, RepairClosed;
      ActionInRun(ws, start, Live(live), o, selected, done, n);
      status, live' := ExecuteAction(n, live, o);
    }

    /** What is left on disk when the plan raises. */
    method Stop(running: set<Name>, done: seq<Name>, live: map<Key, Digest>, o: Options, ghost keepGoing: bool,
            ghost start: World, selected: set<Name>, r: BuildResult)
      requires ValidManifest(ws) && selected <= ws.targets.Keys && WellRead(ws, start.files, selected)
      requires InRun(ws, start, Live(live), o, selected, done) && cache == start.cache
      requires running <= selected - Elems(done)
      requires forall n :: n in running ==> Induced(DepGraph(ws), selected)[n] <= Elems(done)
      requires ToldRight(ws, start, o, selected, keepGoing, r)
      modifies this`files, this`cas, this`dynamic
      ensures saved == old(saved) && ValidCas(cas) && StoppedRight(ws, start, View(), o, selected, keepGoing, r)
    {
      hide InRun, WellRead, ToldRight, StoppedRight;
      ghost var ran;
      var last;
      ran, last := Drain(running, done, live, o, start, selected);
      InRunStore(ws, start, Live(last), o, selected, ran);
      StopIsRight(ws, start, Live(last), View(), o, selected, ran, keepGoing, r);
    }

    /** One future of the finished batch: run the action, then update the scheduler or stop the plan. */
    method OneResult(run: Run, n: Name, live: map<Key, Digest>, o: Options, keepGoing: bool, ghost start: World,
            selected: set<Name>)
        returns (stop: Option<BuildResult>, live': map<Key, Digest>)
      requires ValidManifest(ws) && selected <= ws.targets.Keys && WellRead(ws, start.files, selected)
      requires Executing(run, start, live, o, selected) && n in run.running && (!keepGoing ==> run.failed == {})
      modifies run, this`files, this`cas, this`dynamic
      ensures saved == old(saved)
      ensures stop.None? ==> Executing(run, start, live', o, selected) && run.running == old(run.running) - {n}
      ensures stop.None? ==> |run.completed| + |run.failed| == |old(run.completed)| + |old(run.failed)| + 1
      ensures stop.None? && !keepGoing ==> run.failed == {}
      ensures run.Valid()
      ensures stop.Some? ==>
        && !stop.value.Done? && cache == old(cache) && ValidCas(cas)
        && StoppedRight(ws, start, View(), o, selected, keepGoing, stop.value)
    {
      hide InRun, ValidManifest, StoppedRight, ToldRight, Reached, ValidStore, Failures, RepairClosed, FailedSet,
          DepGraph, Induced, WellRead;
      AllRunning(run.g, run.fails, run.jobs, run.first, run.events, run.Now());
      ReachedFacts(run.g, run.fails, run.jobs, run.first, run.events, run.Now());
      var status;
      status, live' := RunOne(run.completed, n, live, o, start, selected);
      stop := None;
      if status == ActionCrashed {
        stop := Some(MissingDependency(n));
        MissingIsRight(ws, start, o, selected, keepGoing, n);
        Stop(run.running - {n}, run.completed, live', o, keepGoing, start, selected, MissingDependency(n));
      } else if status == ActionFailed {
        run.Fail(n);
        if !keepGoing {
          ReachedFailure(run.g, run.fails, run.jobs, run.first, run.events, run.Now(), n);
          stop := Some(Aborted(n));
          AbortIsRight(ws, start, o, selected, n);
          Stop(run.running, run.completed, live', o, keepGoing, start, selected, Aborted(n));
        }
      } else {
        run.Succeed(n);
      }
    }

    /** All futures of a finished batch, one after the other. */
    method Collect(run: Run, batch: set<Name>, live: map<Key, Digest>, o: Options, keepGoing: bool,
            ghost start: World, selected: set<Name>)
        returns (stop: Option<BuildResult>, live': map<Key, Digest>)
      requires ValidManifest(ws) && selected <= ws.targets.Keys && WellRead(ws, start.files, selected)
      requires Executing(run, start, live, o, selected) && (!keepGoing ==> run.failed == {})
      requires {} < batch <= run.running
      modifies run, this`files, this`cas, this`dynamic
      ensures saved == old(saved)
      ensures stop.None? ==> Executing(run, start, live', o, selected) && (!keepGoing ==> run.failed == {})
      ensures stop.None? ==> |run.completed| + |run.failed| > |old(run.completed)| + |old(run.failed)|
      ensures run.Valid()
      ensures stop.Some? ==>
        && !stop.value.Done? && cache == old(cache) && ValidCas(cas)
        && StoppedRight(ws, start, View(), o, selected, keepGoing, stop.value)
    {
      hide ValidManifest, InRun, StoppedRight, Reached, Failures, DepGraph, Induced, ValidCas, WellRead;
      SelectionFacts(ws, selected);
      var rest := batch;
      stop, live' := None, live;
      while rest != {}
        invariant Executing(run, start, live', o, selected) && saved == old(saved) && cache == old(cache)
        invariant stop.None? && (!keepGoing ==> run.failed == {})
        invariant rest <= run.running
        invariant |run.completed| + |run.failed| + (if rest == batch then 1 else 0) >
          |old(run.completed)| + |old(run.failed)|
        decreases rest
      {
        var n :| n in rest;
        stop, live' := OneResult(run, n, live', o, keepGoing, start, selected);
        if stop.Some? {
          return stop, live';
        }
        rest := rest - {n};
      }
    }

    /** The end of `execute_plan`: sweep, report what is missing, or save. */
    method Conclude(run: Run, live: map<Key, Digest>, o: Options, keepGoing: bool, ghost start: World,
            selected: set<Name>, evicted: set<Digest>)
        returns (r: BuildResult)
      requires ValidManifest(ws) && selected <= ws.targets.Keys && ValidStore(ws, start)
      requires Executing(run, start, live, o, selected) && Finished(run.Now()) && (!keepGoing ==> run.failed == {})
      modifies run, this`cache, this`saved, this`cas
      ensures ValidCas(cas) && (r.Done? ==> r.completed == old(run.completed))
      ensures r.Done? ==> ValidStore(ws, View()) && (o.sandbox ==> Screened(ws, cache))
      ensures r.Done? ==> DoneRight(ws, start, View(), o, selected, keepGoing, evicted, r)
      ensures !r.Done? ==>
        cache == old(cache) && saved == old(saved) && StoppedRight(ws, start, View(), o, selected, keepGoing, r)
    {
      hide ValidManifest, InRun, StoppedRight, ToldRight, DoneRight, Reached, Failures, FailedSet, CompletedSet,
          Blocked, IsSchedule, DepGraph, Induced, ValidStore, SourceHashes, Screened;
      SelectionFacts(ws, selected);
      InRunStore(ws, start, Live(live), o, selected, run.completed);
      ghost var last := run.Now();
      run.Sweep();
      var missing := selected - Elems(run.completed) - run.failed - run.skipped;
      if missing != {} {
        AllReachCycle(run.g, run.fails, run.jobs, run.first, run.events, last, missing);
        IncompleteIsRight(ws, start, o, selected, keepGoing, missing);
        StopIsRight(ws, start, Live(live), View(), o, selected, run.completed, keepGoing, Incomplete(missing));
        return Incomplete(missing);
      }
      r := Done(run.completed, run.failed, run.skipped);
      assert selected - missing <= Elems(r.completed) + r.failed + r.skipped;
      SaveIsRight(ws, start, Live(live), o, selected, keepGoing, evicted, r);
      saved := Some(SourceHashes(ws, Live(live)));
      cache := live;
      cas := cas - evicted;
    }

    /** The main loop of `execute_plan`: refill the pool and collect what has finished until nothing runs. */
    method Execute(run: Run, live: map<Key, Digest>, o: Options, keepGoing: bool, ghost start: World,
            selected: set<Name>)
        returns (stop: Option<BuildResult>, live': map<Key, Digest>)
      requires ValidManifest(ws) && selected <= ws.targets.Keys && WellRead(ws, start.files, selected)
      requires Executing(run, start, live, o, selected) && run.jobs >= 1 && (!keepGoing ==> run.failed == {})
      modifies run, this`files, this`cas, this`dynamic
      ensures saved == old(saved) && run.Valid()
      ensures stop.None? ==>
        Executing(run, start, live', o, selected) && Finished(run.Now()) && (!keepGoing ==> run.failed == {})
      ensures stop.Some? ==>
        && !stop.value.Done? && cache == old(cache) && ValidCas(cas)
        && StoppedRight(ws, start, View(), o, selected, keepGoing, stop.value)
    {
      hide ValidManifest, InRun, StoppedRight, Reached, Failures, DepGraph, Induced, ValidCas, WellRead, InOrder;
      SelectionFacts(ws, selected);
      stop, live' := None, live;
      while run.ready != [] || run.running != {}
        invariant Executing(run, start, live', o, selected) && stop.None?
        invariant saved == old(saved) && cache == old(cache) && (!keepGoing ==> run.failed == {})
        decreases |run.g.Keys| - |run.completed| - |run.failed|
      {
        ReachedBounded(run.g, run.fails, run.jobs, run.first, run.events, run.Now());
        run.Refill();
        if run.running == {} {
          break;
        }
        var batch: set<Name> :| batch != {} && batch <= run.running;
        stop, live' := Collect(run, batch, live', o, keepGoing, start, selected);
        if stop.Some? {
          return;
        }
        ReachedBounded(run.g, run.fails, run.jobs, run.first, run.events, run.Now());
      }
    }

    /**
     `execute_plan`; the CAS collection at the end may evict any set of blobs.  In
     the sandbox the cache must have been filled in the sandbox.  `events` is what
     the scheduler did, and it started nothing that was not due.
     */
    method ExecutePlan(selected: set<Name>, jobs: nat, critical: bool, estimates: L.Durations, o: Options,
            keepGoing: bool, evicted: set<Digest>)
        returns (r: BuildResult, ghost first: seq<Name>, ghost events: seq<Scheduler.Event>)
      requires ValidManifest(ws) && selected <= ws.targets.Keys && ValidStore(ws, View()) && L.NonNegative(estimates)
      requires WellRead(ws, files, selected) && (o.sandbox ==> Screened(ws, cache))
      requires critical ==> Acyclic(Induced(DepGraph(ws), selected))
      modifies this
      ensures ValidStore(ws, View()) && (o.sandbox ==> Screened(ws, cache))
      ensures selected == {} ==> r == Done([], {}, {}) && View() == old(View())
      ensures selected != {} && r.Done? ==> DoneRight(ws, old(View()), View(), o, selected, keepGoing, evicted, r)
      ensures !r.Done? ==>
        && cache == old(cache) && saved == old(saved)
        && StoppedRight(ws, old(View()), View(), o, selected, keepGoing, r)
      ensures selected != {} ==>
        var g, fails := Induced(DepGraph(ws), selected), Failures(ws, old(View()), o, selected);
        && S.RanInOrder(g, fails, estimates, critical, if jobs < 1 then 1 else jobs, first, events)
        && (r.Done? ==> r.completed == After(g, Init(g, first), events).completed)
    {
      hide ValidManifest, InRun, StoppedRight, DoneRight, Reached, Failures, FailedSet, CompletedSet, Blocked,
          IsSchedule, DepGraph, Induced, ValidCache, Screened, WellRead, InOrder, S.RanInOrder, S.IsExact, After;
      first, events := [], [];
      if selected == {} {
        return Done([], {}, {}), first, events;
      }
      SelectionFacts(ws, selected);
      StartInRun(ws, View(), o, selected);
      var g := Induced(DepGraph(ws), selected);
      ghost var start := View();
      var policy := S.PolicyFor(g, critical, estimates);
      var leaves := SortedNames(Leaves(g));
      var run := new Run(g, Failures(ws, start, o, selected), if jobs < 1 then 1 else jobs, policy, leaves);
      var stop, live := Execute(run, cache, o, keepGoing, start, selected);
      first, events := run.first, run.events;
      S.PolicyIsDue(g, run.fails, estimates, critical, policy, run.jobs, first, events, run.Now());
      if stop.Some? {
        return stop.value, first, events;
      }
      r := Conclude(run, live, o, keepGoing, start, selected, evicted);
    }

    /**
     `run_build`: writes the metadata, plans, thins the tests out when asked to and,
     unless it is a dry run, executes.  It misses a dependency's output only when
     predictive mode dropped something.  A successful build of every target and
     kind leaves every existing output as a clean build would; one that raises
     leaves the sources that had changed suspect.
     */
    method RunBuild(r: Request, useCatalog: bool, predictive: bool, dryRun: bool, jobs: nat, critical: bool,
            estimates: L.Durations, o: Options, keepGoing: bool, evicted: set<Digest>, ghost tainted: set<Path>)
        returns (plan: Plan, result: Option<BuildResult>)
      requires ValidManifest(ws) && ListedWriters(ws) && Acyclic(DepGraph(ws))
      requires r.roots <= ws.targets.Keys && ValidStore(ws, View()) && L.NonNegative(estimates)
      requires o.sandbox ==> Screened(ws, cache)
      modifies this
      ensures ValidStore(ws, View()) && (o.sandbox ==> Screened(ws, cache))
      ensures var catalog := if useCatalog then Some(BuildCatalog(ws)) else None;
        plan == Pick(ws, PlanOf(ws, old(View()), r, catalog), predictive)
      ensures result.None? <==> dryRun
      ensures dryRun || plan.selected == {} ==> View() == old(View())
      ensures result.Some? && plan.selected != {} && result.value.Done? ==>
        DoneRight(ws, old(View()), View(), o, plan.selected, keepGoing, evicted, result.value)
      ensures result.Some? && !result.value.Done? ==>
        && cache == old(cache) && saved == old(saved)
        && StoppedRight(ws, old(View()), View(), o, plan.selected, keepGoing, result.value)
        && (result.value.Aborted? || result.value.MissingDependency?)
      ensures result.Some? && result.value.MissingDependency? ==>
        var catalog := if useCatalog then Some(BuildCatalog(ws)) else None;
        predictive && plan.selected != PlanOf(ws, old(View()), r, catalog).selected
      ensures result.Some? && Succeeded(result.value) && FullScope(ws, r) && old(Sound(View(), tainted)) ==>
        && BuildInv(ws, View(), {}) && UpToDate(ws, files)
        && forall n :: n in plan.selected && n in ws.targets ==> ws.targets[n].out in files
      ensures old(BuildInv(ws, View(), tainted)) && result.Some? && !result.value.Done? ==>
        BuildInv(ws, View(), tainted + old(Suspect(ws, View())))
    {
      hide ValidStore, DoneRight, FullScope, BuildInv, UpToDate, ValidManifest, RepairClosed, PlanOf, Predicted,
          FailedSet, Failures, ReachesCycle, StoppedRight, ToldRight, ListedWriters, Acyclic, Screened, Unreverted,
          Suspect, WellRead;
      var catalog := if useCatalog then Some(BuildCatalog(ws)) else None;
      ghost var before := View();
      PlanFacts(ws, before, r, catalog, predictive);
      plan := BuildPlan(ws, View(), r, catalog, ws);
      plan := Pick(ws, plan, predictive);
      if dryRun {
        return plan, None;
      }
      ListedIsWellRead(ws, files, plan.selected);
      var done;
      ghost var first, events;
      done, first, events := ExecutePlan(plan.selected, jobs, critical, estimates, o, keepGoing, evicted);
      ghost var after := View();
      if !done.Done? {
        StoppedTells(ws, before, after, o, plan.selected, keepGoing, done);
        PlanStops(ws, before, o, plan.selected, keepGoing, done);
        if BuildInv(ws, before, tainted) {
          StopKeepsInv(ws, before, tainted, after, o, plan.selected, keepGoing, done);
        }
      } else if Sound(before, tainted) && FullScope(ws, r) && Succeeded(done) {
        BuildWasClean(ws, before, tainted, r, catalog, predictive, o, keepGoing, evicted, done, after);
      }
      result := Some(done);
    }
  }
}
