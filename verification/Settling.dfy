/**
 What a build leaves behind.

 `Settle` says, recursively, what a target's output must be once a selection has
 been built; a clean build is the case where everything is selected.  A target
 takes its source from whichever target writes it, and comes after it.  The fold
 `RunAll` of `execute_action` over a completion order is proved to reach it.
 */
module Settling {
  import opened Graph
  import opened SourceText
  import opened Traversals
  import opened Actions
  import opened Planner
  import opened Wrappers

  // ----- who reads what ------------------------------------------------------------

  /** The target that writes another one's source, if there is one. */
  ghost function WriterOf(ws: Workspace, n: Name): (b: Option<Name>)
    requires n in ws.targets
    ensures b.Some? ==> b.value in ws.targets && ws.targets[b.value].out == ws.targets[n].src
    ensures b.None? ==> forall m :: m in ws.targets ==> ws.targets[m].out != ws.targets[n].src
  {
    if exists m :: m in ws.targets && ws.targets[m].out == ws.targets[n].src then
      var m :| m in ws.targets && ws.targets[m].out == ws.targets[n].src; Some(m)
    else None
  }

  /** Every target with what it reads: its dependencies, and the writer of its source. */
  ghost function ReadGraph(ws: Workspace): Graph {
    map n | n in ws.targets ::
      Elems(ws.targets[n].deps) + if WriterOf(ws, n).Some? then {WriterOf(ws, n).value} else {}
  }

  ghost function Reads(ws: Workspace, sel: set<Name>): Graph {
    Induced(ReadGraph(ws), sel)
  }

  ghost function Below(g: Graph, n: Name): set<Name> {
    set m | m in g && StrictReach(g, n, m)
  }

  lemma BelowShrinks(g: Graph, n: Name, d: Name)
    requires Edge(g, n, d) && d in g && !ReachesCycle(g, n)
    ensures Below(g, d) < Below(g, n) && !ReachesCycle(g, d)
  {
    EdgeStrict(g, n, d);
    StrictIsReach(g, n, d);
    forall m | m in Below(g, d) ensures m in Below(g, n) {
      StrictTrans(g, n, d, m);
    }
    assert d in Below(g, n) && d !in Below(g, d);
    forall m | Reach(g, d, m) ensures !StrictReach(g, m, m) {
      ReachTrans(g, n, d, m);
    }
  }

  lemma ReadsShrink(ws: Workspace, sel: set<Name>, n: Name)
    requires Closed(DepGraph(ws)) && n in ws.targets && n in sel && !ReachesCycle(Reads(ws, sel), n)
    ensures KnownDeps(ws, n)
    ensures forall d :: d in ReadGraph(ws)[n] ==>
        d in ws.targets && (d in sel ==> Below(Reads(ws, sel), d) < Below(Reads(ws, sel), n))
  {
    DepEdge(ws, n);
    forall d | d in ReadGraph(ws)[n] && d in sel ensures Below(Reads(ws, sel), d) < Below(Reads(ws, sel), n) {
      assert Edge(Reads(ws, sel), n, d);
      BelowShrinks(Reads(ws, sel), n, d);
    }
  }

  lemma DepEdge(ws: Workspace, n: Name)
    requires Closed(DepGraph(ws)) && n in ws.targets
    ensures KnownDeps(ws, n)
    ensures forall d :: d in ws.targets[n].deps ==> Edge(DepGraph(ws), n, d)
  {
    forall d | d in ws.targets[n].deps ensures Edge(DepGraph(ws), n, d) && d in ws.targets {
      assert Edge(DepGraph(ws), n, d);
    }
  }

  // ----- settled outputs --------------------------------------------------------------

  predicate AllRan(outs: seq<Outcome>) {
    forall i :: 0 <= i < |outs| ==> outs[i].Ran?
  }

  function Datas(outs: seq<Outcome>): seq<string>
    requires AllRan(outs)
  {
    seq(|outs|, i requires 0 <= i < |outs| => outs[i].data)
  }

  /** The outcome of an action whose source and dependencies are known. */
  function Finish(ws: Workspace, n: Name, text: Option<string>, outs: seq<Outcome>): Outcome
    requires n in ws.targets && |outs| == |ws.targets[n].deps|
  {
    if text.Some? && AsksToFail(text.value) then Failed
    else if AllRan(outs) then Ran(ActionOutput(ws, n, text, Datas(outs)))
    else Crashed
  }

  /**
   What the output of `n` must hold after building `sel` from `files`.  An
   unselected target keeps its file; a selected one comes after everything it
   reads, which is impossible on a cycle.
   */
  ghost function Settle(ws: Workspace, files: Files, sel: set<Name>, n: Name): Outcome
    requires Closed(DepGraph(ws)) && n in ws.targets
    decreases if n in sel then 1 else 0, Below(Reads(ws, sel), n)
  {
    var t := ws.targets[n];
    if n !in sel then
      if t.out in files then Ran(files[t.out]) else Crashed
    else if ReachesCycle(Reads(ws, sel), n) then Crashed
    else
      ReadsShrink(ws, sel, n);
      var b := WriterOf(ws, n);
      var from := if b.Some? then Settle(ws, files, sel, b.value) else Crashed;
      if b.Some? && !from.Ran? then Crashed
      else
        var outs := seq(|t.deps|, i requires 0 <= i < |t.deps| => Settle(ws, files, sel, t.deps[i]));
        Finish(ws, n, if b.Some? then Some(from.data) else Read(files, t.src), outs)
  }

  /** A recursive from-scratch build of the current sources. */
  ghost function Clean(ws: Workspace, files: Files, n: Name): Outcome
    requires Closed(DepGraph(ws)) && n in ws.targets
  {
    Settle(ws, files, ws.targets.Keys, n)
  }

  ghost function DepOutcomes(ws: Workspace, files: Files, sel: set<Name>, n: Name): seq<Outcome>
    requires Closed(DepGraph(ws)) && n in ws.targets
  {
    DepEdge(ws, n);
    var deps := ws.targets[n].deps;
    seq(|deps|, i requires 0 <= i < |deps| => Settle(ws, files, sel, deps[i]))
  }

  /** The source a target reads when `sel` is built, `None` if its writer has no output. */
  ghost function TextOf(ws: Workspace, files: Files, sel: set<Name>, n: Name): Option<Option<string>>
    requires Closed(DepGraph(ws)) && n in ws.targets
  {
    match WriterOf(ws, n)
    case None => Some(Read(files, ws.targets[n].src))
    case Some(b) =>
      match Settle(ws, files, sel, b)
      case Ran(data) => Some(Some(data))
      case _ => None
  }

  lemma SettleUnfold(ws: Workspace, files: Files, sel: set<Name>, n: Name)
    requires Closed(DepGraph(ws)) && n in ws.targets && n in sel && !ReachesCycle(Reads(ws, sel), n)
    ensures Settle(ws, files, sel, n) ==
      (match TextOf(ws, files, sel, n)
       case None => Crashed
       case Some(text) => Finish(ws, n, text, DepOutcomes(ws, files, sel, n)))
  {
    ReadsShrink(ws, sel, n);
    var t := ws.targets[n];
    var outs := seq(|t.deps|, i requires 0 <= i < |t.deps| => Settle(ws, files, sel, t.deps[i]));
    assert outs == DepOutcomes(ws, files, sel, n);
  }

  /** Two builds that agree on everything `n` reads agree on `n`. */
  lemma SameReads(ws: Workspace, a: Files, sa: set<Name>, b: Files, sb: set<Name>, n: Name)
    requires Closed(DepGraph(ws)) && n in ws.targets && n in sa && n in sb
    requires !ReachesCycle(Reads(ws, sa), n) && !ReachesCycle(Reads(ws, sb), n)
    requires WriterOf(ws, n).None? ==> SameFile(a, b, ws.targets[n].src)
    requires forall d :: d in ReadGraph(ws)[n] ==> d in ws.targets && Settle(ws, a, sa, d) == Settle(ws, b, sb, d)
    ensures Settle(ws, a, sa, n) == Settle(ws, b, sb, n)
  {
    hide Settle, Finish, ReachesCycle;
    SettleUnfold(ws, a, sa, n);
    SettleUnfold(ws, b, sb, n);
    DepEdge(ws, n);
    assert DepOutcomes(ws, a, sa, n) == DepOutcomes(ws, b, sb, n);
  }

  /** Files no target writes decide: agreeing on the unwritten sources read below `n` means the same clean build. */
  lemma {:induction false} CleanReadsSources(ws: Workspace, a: Files, b: Files, n: Name)
    requires Closed(DepGraph(ws)) && n in ws.targets
    requires forall m :: m in ws.targets && Reach(Reads(ws, ws.targets.Keys), n, m) && WriterOf(ws, m).None? ==>
        SameFile(a, b, ws.targets[m].src)
    ensures Clean(ws, a, n) == Clean(ws, b, n)
    decreases Below(Reads(ws, ws.targets.Keys), n)
  {
    hide Settle, ReachesCycle, Reach;
    var g, all := Reads(ws, ws.targets.Keys), ws.targets.Keys;
    if ReachesCycle(g, n) {
      CycleCrashes(ws, a, all, n);
      CycleCrashes(ws, b, all, n);
    } else {
      ReadsShrink(ws, all, n);
      ReachRefl(g, n);
      forall d | d in ReadGraph(ws)[n] ensures Clean(ws, a, d) == Clean(ws, b, d) {
        assert Edge(g, n, d);
        forall m | m in ws.targets && Reach(g, d, m) && WriterOf(ws, m).None?
          ensures SameFile(a, b, ws.targets[m].src)
        {
          EdgeThenReach(g, n, d, m);
        }
        CleanReadsSources(ws, a, b, d);
      }
      SameReads(ws, a, all, b, all, n);
    }
  }

  lemma CycleCrashes(ws: Workspace, files: Files, sel: set<Name>, n: Name)
    requires Closed(DepGraph(ws)) && n in ws.targets && n in sel && ReachesCycle(Reads(ws, sel), n)
    ensures Settle(ws, files, sel, n) == Crashed
  {
  }

  /** Every existing output outside `sel` is what a clean build gives. */
  ghost predicate CleanOutside(ws: Workspace, files: Files, sel: set<Name>)
    requires Closed(DepGraph(ws))
  {
    forall n :: n in ws.targets && n !in sel && ws.targets[n].out in files ==>
        Clean(ws, files, n) == Ran(files[ws.targets[n].out])
  }

  /**
   No generated source is read too early: its writer is ordered before the
   reader, or is not built and has its output already (or is missed as a
   dependency).
   */
  ghost predicate WellRead(ws: Workspace, files: Files, sel: set<Name>) {
    forall a, b :: a in ws.targets && a in sel && WriterOf(ws, a) == Some(b) ==> InTime(ws, files, sel, a, b)
  }

  ghost predicate InTime(ws: Workspace, files: Files, sel: set<Name>, a: Name, b: Name)
    requires a in ws.targets
  {
    if b in sel then StrictReach(Induced(DepGraph(ws), sel), a, b)
    else b in ws.targets[a].deps || ws.targets[a].src in files
  }

  /** Outputs are distinct, and no target has to be built before itself. */
  ghost predicate Buildable(ws: Workspace) {
    ValidManifest(ws) && Acyclic(ReadGraph(ws))
  }

  lemma BuildableReads(ws: Workspace, sel: set<Name>, n: Name)
    requires Acyclic(ReadGraph(ws))
    ensures !ReachesCycle(Reads(ws, sel), n)
  {
    InducedAcyclic(ReadGraph(ws), sel);
  }

  /** Building a repaired selection on top of clean outputs gives clean outputs. */
  lemma {:induction false} SettleIsClean(ws: Workspace, files: Files, sel: set<Name>, n: Name)
    requires Buildable(ws) && n in ws.targets && n in sel
    requires CleanOutside(ws, files, sel) && RepairClosed(ws, files, sel) && WellRead(ws, files, sel)
    ensures Settle(ws, files, sel, n) == Clean(ws, files, n)
    decreases Below(Reads(ws, sel), n)
  {
    hide Settle, ReachesCycle, Acyclic;
    var all := ws.targets.Keys;
    BuildableReads(ws, sel, n);
    BuildableReads(ws, all, n);
    ReadsShrink(ws, sel, n);
    forall d | d in ReadGraph(ws)[n] ensures Settle(ws, files, sel, d) == Clean(ws, files, d) {
      if d in sel {
        SettleIsClean(ws, files, sel, d);
      } else {
        ReadIsThere(ws, files, sel, n, d);
        UnselectedKeeps(ws, files, sel, d);
      }
    }
    SameReads(ws, files, sel, files, all, n);
  }

  lemma UnselectedKeeps(ws: Workspace, files: Files, sel: set<Name>, n: Name)
    requires Closed(DepGraph(ws)) && n in ws.targets && n !in sel
    ensures Settle(ws, files, sel, n) == if ws.targets[n].out in files then Ran(files[ws.targets[n].out]) else Crashed
  {
  }

  lemma ReadIsThere(ws: Workspace, files: Files, sel: set<Name>, n: Name, d: Name)
    requires ValidManifest(ws) && n in ws.targets && n in sel && d in ReadGraph(ws)[n] && d in ws.targets && d !in sel
    requires RepairClosed(ws, files, sel) && WellRead(ws, files, sel)
    ensures ws.targets[d].out in files
  {
  }

  // ----- running a schedule ---------------------------------------------------------

  predicate Known(ws: Workspace, order: seq<Name>) {
    forall n :: n in order ==> KnownDeps(ws, n)
  }

  /** `execute_action` over a completion order; `None` once an action does not succeed. */
  function RunAll(ws: Workspace, w: World, o: Options, order: seq<Name>): Option<World>
    requires Known(ws, order)
  {
    if |order| == 0 then Some(w)
    else
      match RunAll(ws, w, o, order[..|order| - 1])
      case None => None
      case Some(v) =>
        var (next, status) := ExecuteAction(ws, v, o, order[|order| - 1]);
        if Succeeds(status) then Some(next) else None
  }

  lemma RunAllNext(ws: Workspace, w: World, o: Options, order: seq<Name>, n: Name)
    requires Known(ws, order) && KnownDeps(ws, n) && RunAll(ws, w, o, order).Some?
    ensures Known(ws, order + [n])
    ensures var (next, status) := ExecuteAction(ws, RunAll(ws, w, o, order).value, o, n);
      Succeeds(status) ==> RunAll(ws, w, o, order + [n]) == Some(next)
  {
    var longer := order + [n];
    assert longer[..|longer| - 1] == order && longer[|longer| - 1] == n;
  }

  function Outs(ws: Workspace, s: set<Name>): set<Path> {
    set n | n in s && n in ws.targets :: ws.targets[n].out
  }

  lemma OutsideOuts(ws: Workspace, done: set<Name>, n: Name)
    requires DistinctOuts(ws) && n in ws.targets
    ensures n !in done ==> ws.targets[n].out !in Outs(ws, done)
    ensures ws.targets[n].src in Outs(ws, done) ==> WriterOf(ws, n).Some? && WriterOf(ws, n).value in done
  {
  }

  ghost predicate SameDynamic(a: DynamicDeps, b: DynamicDeps, n: Name) {
    (n in a <==> n in b) && (n in a ==> a[n] == b[n])
  }

  /** What a run changes: the outputs of `done`, which are then there, and the recorded inputs of `done`. */
  ghost predicate Frame(ws: Workspace, start: World, now: World, done: set<Name>) {
    && (forall p :: p !in Outs(ws, done) ==> SameFile(start.files, now.files, p))
    && (forall n :: n in done && n in ws.targets ==> ws.targets[n].out in now.files)
    && (forall n :: n !in done ==> SameDynamic(start.dynamic, now.dynamic, n))
    && now.saved == start.saved
  }

  lemma FrameNext(ws: Workspace, start: World, v: World, o: Options, done: set<Name>, n: Name)
    requires KnownDeps(ws, n) && ValidStore(ws, v) && Frame(ws, start, v, done)
    requires Succeeds(ExecuteAction(ws, v, o, n).1)
    ensures var next := ExecuteAction(ws, v, o, n).0; ValidStore(ws, next) && Frame(ws, start, next, done + {n})
  {
    hide ValidStore, RunAction, Attempt, ActionKey;
    ActionEffect(ws, v, o, n);
    var next := ExecuteAction(ws, v, o, n).0;
    assert Outs(ws, done + {n}) == Outs(ws, done) + {ws.targets[n].out};
    forall p | p !in Outs(ws, done + {n}) ensures SameFile(start.files, next.files, p) {
      assert SameFile(start.files, v.files, p);
    }
    forall m | m !in done + {n} ensures SameDynamic(start.dynamic, next.dynamic, m) {
      assert SameDynamic(start.dynamic, v.dynamic, m);
    }
  }

  lemma {:induction false} RunFrame(ws: Workspace, w: World, o: Options, order: seq<Name>)
    requires ValidStore(ws, w) && Known(ws, order) && RunAll(ws, w, o, order).Some?
    ensures var v := RunAll(ws, w, o, order).value; ValidStore(ws, v) && Frame(ws, w, v, Elems(order))
    decreases |order|
  {
    if |order| == 0 {
      assert Elems(order) == {} && Outs(ws, {}) == {};
    } else {
      hide ValidStore, Frame, ExecuteAction;
      var before, n := order[..|order| - 1], order[|order| - 1];
      RunFrame(ws, w, o, before);
      FrameNext(ws, w, RunAll(ws, w, o, before).value, o, Elems(before), n);
      assert order == before + [n];
      ElemsAppend(before, [n]);
      assert Elems([n]) == {n};
    }
  }

  ghost predicate DepFirstIn(ws: Workspace, sel: set<Name>, order: seq<Name>) {
    && NoDup(order) && Elems(order) <= sel && Elems(order) <= ws.targets.Keys
    && DepFirst(Induced(DepGraph(ws), sel), order)
  }

  lemma DepFirstInPrefix(ws: Workspace, sel: set<Name>, order: seq<Name>)
    requires DepFirstIn(ws, sel, order) && |order| > 0
    ensures DepFirstIn(ws, sel, order[..|order| - 1])
    ensures Elems(order) == Elems(order[..|order| - 1]) + {order[|order| - 1]}
    ensures order[|order| - 1] !in Elems(order[..|order| - 1])
  {
    var g, o := Induced(DepGraph(ws), sel), order[..|order| - 1];
    assert order == o + [order[|order| - 1]];
    forall i | 0 <= i < |o| ensures Placed(g, o, i) {
      assert Placed(g, order, i) && order[..i] == o[..i];
    }
  }

  /** A completion order, of the whole selection or of a part of it, runs dependencies first. */
  lemma ScheduleIsDepFirstIn(ws: Workspace, sel: set<Name>, done: set<Name>, order: seq<Name>)
    requires sel <= ws.targets.Keys && done <= sel
    requires IsSchedule(Induced(DepGraph(ws), sel), done, order)
    ensures DepFirstIn(ws, sel, order) && DepFirstIn(ws, done, order)
  {
    var g := Induced(DepGraph(ws), sel);
    forall i | 0 <= i < |order| ensures Placed(Induced(DepGraph(ws), done), order, i) {
      assert Placed(g, order, i) && order[i] in Elems(order);
    }
  }

  /** The next target of an order finds its selected dependencies in front of it. */
  lemma LastIsPlaced(ws: Workspace, sel: set<Name>, order: seq<Name>)
    requires DepFirstIn(ws, sel, order) && |order| > 0
    ensures var n := order[|order| - 1];
      n in ws.targets && n in sel && Induced(DepGraph(ws), sel)[n] <= Elems(order[..|order| - 1])
  {
    assert Placed(Induced(DepGraph(ws), sel), order, |order| - 1);
    assert order[|order| - 1] in Elems(order);
  }

  /** Generated sources being well read, a dependency-first order has every writer in front of its readers too. */
  lemma ReadsFirst(ws: Workspace, files: Files, sel: set<Name>, order: seq<Name>)
    requires DepFirstIn(ws, sel, order) && WellRead(ws, files, sel)
    ensures DepFirst(Reads(ws, sel), order)
  {
    var g := Induced(DepGraph(ws), sel);
    forall i | 0 <= i < |order| ensures Placed(Reads(ws, sel), order, i) {
      var a := order[i];
      assert Placed(g, order, i) && a in Elems(order);
      forall b | b in Reads(ws, sel)[a] ensures b in Elems(order[..i]) {
        if b !in ws.targets[a].deps {
          WriterBefore(ws, files, sel, order, i, b);
        }
      }
    }
  }

  lemma WriterBefore(ws: Workspace, files: Files, sel: set<Name>, order: seq<Name>, i: nat, b: Name)
    requires DepFirstIn(ws, sel, order) && WellRead(ws, files, sel) && i < |order|
    requires order[i] in ws.targets && order[i] in sel && WriterOf(ws, order[i]) == Some(b) && b in sel
    ensures b in Elems(order[..i])
  {
    var g, a, before := Induced(DepGraph(ws), sel), order[i], order[..i];
    var d := FirstEdge(g, a, b);
    assert Placed(g, order, i);
    forall j | 0 <= j < |before| ensures Placed(g, before, j) {
      assert Placed(g, order, j) && before[..j] == order[..j];
    }
    DepFirstClosed(g, before);
    EdgeClosedReach(g, Elems(before), d, b);
  }

  /** What is well read in a selection is well read in the part of it that has run. */
  lemma WellReadPart(ws: Workspace, files: Files, sel: set<Name>, order: seq<Name>)
    requires DepFirstIn(ws, sel, order) && WellRead(ws, files, sel)
    ensures WellRead(ws, files, Elems(order))
  {
    forall a, b | a in ws.targets && a in Elems(order) && WriterOf(ws, a) == Some(b)
      ensures InTime(ws, files, Elems(order), a, b)
    {
      assert InTime(ws, files, sel, a, b);
      if b in sel {
        ReachPart(ws, sel, order, a, b);
      }
    }
  }

  lemma ReachPart(ws: Workspace, sel: set<Name>, order: seq<Name>, a: Name, b: Name)
    requires DepFirstIn(ws, sel, order) && a in Elems(order) && StrictReach(Induced(DepGraph(ws), sel), a, b)
    ensures b in Elems(order) && StrictReach(Induced(DepGraph(ws), Elems(order)), a, b)
  {
    var g, done := Induced(DepGraph(ws), sel), Elems(order);
    var p :| |p| >= 2 && IsPath(g, p, a, b);
    DepFirstClosed(g, order);
    forall i | 0 <= i < |p| ensures p[i] in done {
      EdgeClosedWalk(g, done, p, i);
    }
    forall i | 0 <= i < |p| - 1 ensures Step(Induced(DepGraph(ws), done), p, i) {
      assert Step(g, p, i);
    }
    assert IsPath(Induced(DepGraph(ws), done), p, a, b);
  }

  /** `now` holds the settled outputs of `done`. */
  ghost predicate SettledBy(ws: Workspace, start: Files, now: Files, sel: set<Name>, done: set<Name>)
    requires Closed(DepGraph(ws))
  {
    forall n :: n in done && n in ws.targets ==>
        ws.targets[n].out in now && Settle(ws, start, sel, n) == Ran(now[ws.targets[n].out])
  }

  /** What `n` reads is settled: its turn has come. */
  ghost predicate Turn(ws: Workspace, start: Files, sel: set<Name>, done: set<Name>, n: Name) {
    && n in ws.targets && n in sel && done <= sel && !ReachesCycle(Reads(ws, sel), n)
    && Reads(ws, sel)[n] <= done
    && (WriterOf(ws, n).Some? && WriterOf(ws, n).value !in sel ==>
          WriterOf(ws, n).value in ws.targets[n].deps || ws.targets[n].src in start)
  }

  lemma ReadSettled(ws: Workspace, start: World, now: World, sel: set<Name>, done: set<Name>, d: Name)
    requires ValidManifest(ws) && Frame(ws, start, now, done) && SettledBy(ws, start.files, now.files, sel, done)
    requires done <= sel && d in ws.targets && (d in sel ==> d in done)
    ensures Settle(ws, start.files, sel, d) ==
      if ws.targets[d].out in now.files then Ran(now.files[ws.targets[d].out]) else Crashed
  {
    if d !in sel {
      OutsideOuts(ws, done, d);
      assert SameFile(start.files, now.files, ws.targets[d].out);
    }
  }

  /** The source on disk is the settled one; where there is none to settle, a dependency is missing. */
  lemma TextNow(ws: Workspace, start: World, now: World, sel: set<Name>, done: set<Name>, n: Name)
    requires ValidManifest(ws) && Frame(ws, start, now, done) && SettledBy(ws, start.files, now.files, sel, done)
    requires Turn(ws, start.files, sel, done, n)
    ensures KnownDeps(ws, n)
    ensures match TextOf(ws, start.files, sel, n)
      case Some(text) => Read(now.files, ws.targets[n].src) == text
      case None => ws.targets[n].src !in now.files && !DepsPresent(ws, now.files, n)
  {
    hide Settle, SettledBy, ReachesCycle, DistinctOuts;
    DepEdge(ws, n);
    match WriterOf(ws, n)
    case None =>
      OutsideOuts(ws, done, n);
      assert SameFile(start.files, now.files, ws.targets[n].src);
    case Some(b) =>
      ReadSettled(ws, start, now, sel, done, b);
      if b !in sel {
        OutsideOuts(ws, done, b);
        assert SameFile(start.files, now.files, ws.targets[b].out);
      }
  }

  lemma DepsNow(ws: Workspace, start: World, now: World, sel: set<Name>, done: set<Name>, n: Name)
    requires ValidManifest(ws) && Frame(ws, start, now, done) && SettledBy(ws, start.files, now.files, sel, done)
    requires Turn(ws, start.files, sel, done, n)
    ensures KnownDeps(ws, n)
    ensures AllRan(DepOutcomes(ws, start.files, sel, n)) <==> DepsPresent(ws, now.files, n)
    ensures DepsPresent(ws, now.files, n) ==>
      Datas(DepOutcomes(ws, start.files, sel, n)) == DepData(ws, now.files, n)
  {
    hide Settle, Frame, SettledBy;
    DepEdge(ws, n);
    var deps, outs := ws.targets[n].deps, DepOutcomes(ws, start.files, sel, n);
    forall i | 0 <= i < |deps|
      ensures outs[i] ==
        if ws.targets[deps[i]].out in now.files then Ran(now.files[ws.targets[deps[i]].out]) else Crashed
    {
      ReadSettled(ws, start, now, sel, done, deps[i]);
    }
    if AllRan(outs) {
      forall d | d in deps ensures ws.targets[d].out in now.files {
        var i :| 0 <= i < |deps| && deps[i] == d;
        assert outs[i].Ran?;
      }
    }
  }

  /** A target whose turn has come computes exactly what `Settle` says. */
  lemma NextSettles(ws: Workspace, start: World, now: World, sel: set<Name>, done: set<Name>, n: Name)
    requires ValidManifest(ws) && Frame(ws, start, now, done) && SettledBy(ws, start.files, now.files, sel, done)
    requires Turn(ws, start.files, sel, done, n)
    ensures KnownDeps(ws, n)
    ensures RunAction(ws, now.files, n) == Settle(ws, start.files, sel, n)
  {
    hide Settle, Frame, SettledBy, TextOf, ReachesCycle, DepOutcomes, AsksToFail, ActionOutput;
    SettleUnfold(ws, start.files, sel, n);
    TextNow(ws, start, now, sel, done, n);
    DepsNow(ws, start, now, sel, done, n);
  }

  lemma SettledNext(ws: Workspace, start: Files, now: Files, sel: set<Name>, done: set<Name>, n: Name, data: string)
    requires ValidManifest(ws) && n in ws.targets && SettledBy(ws, start, now, sel, done)
    requires Settle(ws, start, sel, n) == Ran(data)
    ensures SettledBy(ws, start, now[ws.targets[n].out := data], sel, done + {n})
  {
    var next := now[ws.targets[n].out := data];
    forall m | m in done + {n} && m in ws.targets
      ensures ws.targets[m].out in next && Settle(ws, start, sel, m) == Ran(next[ws.targets[m].out])
    {
      if m != n {
        assert ws.targets[m].out != ws.targets[n].out;
      }
    }
  }

  /** The last target of a dependency-first order has its turn once the others are done. */
  lemma LastTurn(ws: Workspace, start: Files, sel: set<Name>, order: seq<Name>)
    requires DepFirstIn(ws, sel, order) && WellRead(ws, start, sel) && |order| > 0
    ensures Turn(ws, start, sel, Elems(order[..|order| - 1]), order[|order| - 1])
  {
    var i := |order| - 1;
    LastIsPlaced(ws, sel, order);
    ReadsFirst(ws, start, sel, order);
    DepFirstNoCycle(Reads(ws, sel), order, order[i]);
    assert Placed(Reads(ws, sel), order, i);
    assert Elems(order[..i]) <= Elems(order);
  }

  /** Along any dependency-first order, cached or not, every finished target holds its settled output. */
  lemma {:induction false} RunSettles(ws: Workspace, w: World, o: Options, sel: set<Name>, order: seq<Name>)
    requires ValidManifest(ws) && ValidStore(ws, w) && DepFirstIn(ws, sel, order) && WellRead(ws, w.files, sel)
    requires Known(ws, order) && RunAll(ws, w, o, order).Some?
    ensures var v := RunAll(ws, w, o, order).value;
      ValidStore(ws, v) && Frame(ws, w, v, Elems(order)) && SettledBy(ws, w.files, v.files, sel, Elems(order))
    decreases |order|
  {
    RunFrame(ws, w, o, order);
    if |order| > 0 {
      hide ValidStore, Frame, SettledBy, DepFirstIn, WellRead, Turn;
      var before, n := order[..|order| - 1], order[|order| - 1];
      DepFirstInPrefix(ws, sel, order);
      RunSettles(ws, w, o, sel, before);
      LastTurn(ws, w.files, sel, order);
      RunSettlesStep(ws, w, RunAll(ws, w, o, before).value, o, sel, Elems(before), n);
    } else {
      assert Elems(order) == {};
    }
  }

  lemma RunSettlesStep(ws: Workspace, start: World, v: World, o: Options, sel: set<Name>, done: set<Name>, n: Name)
    requires ValidManifest(ws) && ValidStore(ws, v) && Frame(ws, start, v, done)
    requires SettledBy(ws, start.files, v.files, sel, done) && Turn(ws, start.files, sel, done, n)
    ensures KnownDeps(ws, n)
    ensures var (next, status) := ExecuteAction(ws, v, o, n);
      Succeeds(status) ==> SettledBy(ws, start.files, next.files, sel, done + {n})
  {
    hide ValidStore, Frame, SettledBy, Turn, RunAction, Attempt, Settle;
    NextSettles(ws, start, v, sel, done, n);
    ActionEffect(ws, v, o, n);
    if Succeeds(ExecuteAction(ws, v, o, n).1) {
      SettledNext(ws, start.files, v.files, sel, done, n, RunAction(ws, v.files, n).data);
    }
  }

  /**
   Schedule independence of the produced files: of one selection, any two orders in which the same
   part of it completed leave the same files.
   */
  lemma OutputsIgnoreSchedule(ws: Workspace, w: World, o1: Options, o2: Options, sel: set<Name>, done: set<Name>,
          a: seq<Name>, b: seq<Name>)
    requires ValidManifest(ws) && ValidStore(ws, w) && sel <= ws.targets.Keys && done <= sel
    requires WellRead(ws, w.files, sel)
    requires IsSchedule(Induced(DepGraph(ws), sel), done, a) && IsSchedule(Induced(DepGraph(ws), sel), done, b)
    requires Known(ws, a) && Known(ws, b)
    requires RunAll(ws, w, o1, a).Some? && RunAll(ws, w, o2, b).Some?
    ensures RunAll(ws, w, o1, a).value.files == RunAll(ws, w, o2, b).value.files
  {
    hide ValidStore, WellRead;
    ScheduleIsDepFirstIn(ws, sel, done, a);
    ScheduleIsDepFirstIn(ws, sel, done, b);
    RunSettles(ws, w, o1, sel, a);
    RunSettles(ws, w, o2, sel, b);
    SettledUnique(ws, w, RunAll(ws, w, o1, a).value, RunAll(ws, w, o2, b).value, sel, done);
  }

  lemma SettledUnique(ws: Workspace, start: World, a: World, b: World, sel: set<Name>, done: set<Name>)
    requires Closed(DepGraph(ws)) && Frame(ws, start, a, done) && Frame(ws, start, b, done)
    requires SettledBy(ws, start.files, a.files, sel, done) && SettledBy(ws, start.files, b.files, sel, done)
    ensures a.files == b.files
  {
    forall p ensures SameFile(a.files, b.files, p) {
      if p in Outs(ws, done) {
        var n :| n in done && n in ws.targets && ws.targets[n].out == p;
      } else {
        assert SameFile(start.files, a.files, p) && SameFile(start.files, b.files, p);
      }
    }
    assert forall p :: p in a.files ==> SameFile(a.files, b.files, p);
    assert forall p :: p in b.files ==> SameFile(a.files, b.files, p);
  }

  /** Actions that all succeeded found every dependency: built before them, or there from the start. */
  lemma {:induction false} RunNeedsRepair(ws: Workspace, w: World, o: Options, sel: set<Name>, order: seq<Name>)
    requires ValidManifest(ws) && ValidStore(ws, w) && DepFirstIn(ws, sel, order) && Known(ws, order)
    requires RunAll(ws, w, o, order).Some?
    ensures RepairClosed(ws, w.files, Elems(order))
    decreases |order|
  {
    if |order| > 0 {
      var before, n := order[..|order| - 1], order[|order| - 1];
      DepFirstInPrefix(ws, sel, order);
      RunNeedsRepair(ws, w, o, sel, before);
      RunFrame(ws, w, o, before);
      var v := RunAll(ws, w, o, before).value;
      hide ValidStore, Attempt;
      ActionEffect(ws, v, o, n);
      forall d | d in ws.targets[n].deps && d !in Elems(before) ensures ws.targets[d].out in w.files {
        OutsideOuts(ws, Elems(before), d);
        assert SameFile(w.files, v.files, ws.targets[d].out);
      }
    }
  }

  // ----- up to date -------------------------------------------------------------------

  /** Every existing output is what a from-scratch build of the current sources gives. */
  ghost predicate UpToDate(ws: Workspace, files: Files)
    requires Closed(DepGraph(ws))
  {
    CleanOutside(ws, files, {})
  }

  /** A run does not change what a clean build gives. */
  lemma CleanSurvives(ws: Workspace, start: World, now: World, done: set<Name>, n: Name)
    requires ValidManifest(ws) && Frame(ws, start, now, done) && n in ws.targets
    ensures Clean(ws, now.files, n) == Clean(ws, start.files, n)
  {
    forall m | m in ws.targets && WriterOf(ws, m).None? ensures SameFile(start.files, now.files, ws.targets[m].src) {
      OutsideOuts(ws, done, m);
    }
    CleanReadsSources(ws, start.files, now.files, n);
  }

  /** After a settled run over a clean remainder, everything is up to date. */
  lemma SettledIsUpToDate(ws: Workspace, start: World, now: World, done: set<Name>)
    requires Buildable(ws) && Frame(ws, start, now, done) && SettledBy(ws, start.files, now.files, done, done)
    requires CleanOutside(ws, start.files, done) && RepairClosed(ws, start.files, done) &&
        WellRead(ws, start.files, done)
    ensures UpToDate(ws, now.files)
  {
    hide Clean, Settle, RepairClosed, WellRead, Acyclic;
    forall n | n in ws.targets && ws.targets[n].out in now.files
      ensures Clean(ws, now.files, n) == Ran(now.files[ws.targets[n].out])
    {
      CleanSurvives(ws, start, now, done, n);
      if n in done {
        SettleIsClean(ws, start.files, done, n);
      } else {
        OutsideOuts(ws, done, n);
        assert SameFile(start.files, now.files, ws.targets[n].out);
      }
    }
  }

  // ----- manifests whose sources are well read ----------------------------------------------

  /** Whoever reads a generated source lists its writer as a dependency. */
  ghost predicate ListedWriters(ws: Workspace) {
    forall a, b :: a in ws.targets && b in ws.targets && ws.targets[a].src == ws.targets[b].out ==>
      b in ws.targets[a].deps
  }

  lemma ListedIsWellRead(ws: Workspace, files: Files, sel: set<Name>)
    requires ListedWriters(ws)
    ensures WellRead(ws, files, sel)
  {
    forall a, b | a in ws.targets && a in sel && WriterOf(ws, a) == Some(b) && b in sel
      ensures InTime(ws, files, sel, a, b)
    {
      assert Edge(Induced(DepGraph(ws), sel), a, b);
      EdgeStrict(Induced(DepGraph(ws), sel), a, b);
    }
  }

  /**
   Whoever reads a generated source depends, directly or not, on a reader of
   that source (itself perhaps) that lists the writer as a dependency.
   */
  ghost predicate DeclaredWriters(ws: Workspace) {
    forall a, b :: a in ws.targets && b in ws.targets && ws.targets[a].src == ws.targets[b].out ==>
      Declares(ws, a, b)
  }

  ghost predicate Declares(ws: Workspace, a: Name, b: Name)
    requires a in ws.targets
  {
    exists u :: Lister(ws, a, b, u)
  }

  ghost predicate Lister(ws: Workspace, a: Name, b: Name, u: Name)
    requires a in ws.targets
  {
    u in ws.targets && Reach(DepGraph(ws), a, u) && ws.targets[u].src == ws.targets[a].src && b in ws.targets[u].deps
  }

  /** With declared writers, what a target reads it also depends on. */
  lemma DeclaredReach(ws: Workspace, n: Name, m: Name)
    requires Closed(DepGraph(ws)) && DeclaredWriters(ws) && StrictReach(ReadGraph(ws), n, m)
    ensures StrictReach(DepGraph(ws), n, m)
  {
    var p :| |p| >= 2 && IsPath(ReadGraph(ws), p, n, m);
    DeclaredWalk(ws, p, |p| - 1);
  }

  lemma {:induction false} DeclaredWalk(ws: Workspace, p: seq<Name>, i: nat)
    requires Closed(DepGraph(ws)) && DeclaredWriters(ws) && Walk(ReadGraph(ws), p) && 0 < i < |p|
    ensures StrictReach(DepGraph(ws), p[0], p[i])
  {
    hide Reach, StrictReach;
    assert Step(ReadGraph(ws), p, i - 1);
    DeclaredEdge(ws, p[i - 1], p[i]);
    if i > 1 {
      DeclaredWalk(ws, p, i - 1);
      StrictTrans(DepGraph(ws), p[0], p[i - 1], p[i]);
    }
  }

  lemma ReadEdge(ws: Workspace, a: Name, b: Name)
    requires Edge(ReadGraph(ws), a, b)
    ensures a in ws.targets && (b in ws.targets[a].deps || WriterOf(ws, a) == Some(b))
  {
  }

  lemma ListerReaches(ws: Workspace, a: Name, b: Name, u: Name)
    requires a in ws.targets && Lister(ws, a, b, u)
    ensures StrictReach(DepGraph(ws), a, b)
  {
    assert Edge(DepGraph(ws), u, b);
    ReachThenEdge(DepGraph(ws), a, u, b);
  }

  lemma DeclaredEdge(ws: Workspace, a: Name, b: Name)
    requires Closed(DepGraph(ws)) && DeclaredWriters(ws) && Edge(ReadGraph(ws), a, b)
    ensures StrictReach(DepGraph(ws), a, b)
  {
    hide Reach, StrictReach, ReadGraph, Lister, Closed;
    ReadEdge(ws, a, b);
    if b in ws.targets[a].deps {
      assert Edge(DepGraph(ws), a, b);
      EdgeStrict(DepGraph(ws), a, b);
    } else {
      var u :| Lister(ws, a, b, u);
      ListerReaches(ws, a, b, u);
    }
  }

  lemma DeclaredIsBuildable(ws: Workspace)
    requires ValidManifest(ws) && DeclaredWriters(ws) && Acyclic(DepGraph(ws))
    ensures Buildable(ws)
  {
    forall n ensures !StrictReach(ReadGraph(ws), n, n) {
      if StrictReach(ReadGraph(ws), n, n) {
        DeclaredReach(ws, n, n);
      }
    }
  }

  lemma ListedIsDeclared(ws: Workspace)
    requires ListedWriters(ws)
    ensures DeclaredWriters(ws)
  {
    forall a, b | a in ws.targets && b in ws.targets && ws.targets[a].src == ws.targets[b].out
      ensures Declares(ws, a, b)
    {
      ReachRefl(DepGraph(ws), a);
      assert Lister(ws, a, b, a);
    }
  }
}
