/**
 The parallel scheduler of `execute_plan` as a step system.

 `waiting` is `deps_in_subset`, `ready` is the deque or heap, and the order in
 which futures finish is left open: a run is any sequence of enabled events.
 The two scheduling policies differ only in which ready position they submit,
 so a statement about every run covers both, for every number of workers.
 */
module Scheduler {
  import opened Graph

  datatype State = State(
    waiting: map<Name, set<Name>>,
    ready: seq<Name>,
    running: set<Name>,
    completed: seq<Name>,
    failed: set<Name>,
    skipped: set<Name>)

  datatype Event =
    | Submit(i: nat)
    | Succeed(n: Name, released: seq<Name>)
    | Fail(n: Name)

  /** `s` lists the members of `u`, once each, in some order. */
  ghost predicate Enumerates(s: seq<Name>, u: set<Name>) {
    NoDup(s) && Elems(s) == u
  }

  function Leaves(g: Graph): set<Name> {
    set n | n in g && g[n] == {}
  }

  function Init(g: Graph, first: seq<Name>): State {
    State(g, first, {}, [], {}, {})
  }

  /** Users of `n` that have nothing left to wait for once `n` is done. */
  function Released(g: Graph, s: State, n: Name): set<Name> {
    set p | p in g && n in g[p] && p !in s.skipped && p in s.waiting && s.waiting[p] - {n} == {}
  }

  ghost predicate Enabled(g: Graph, fails: set<Name>, jobs: nat, s: State, e: Event) {
    match e
    case Submit(i) => i < |s.ready| && |s.running| < jobs
    case Succeed(n, released) => n in s.running && n !in fails && Enumerates(released, Released(g, s, n))
    case Fail(n) => n in s.running && n in fails
  }

  function WithoutIndex(r: seq<Name>, i: nat): seq<Name>
    requires i < |r|
  {
    r[..i] + r[i + 1..]
  }

  /** `deps_in_subset[p].remove(n)` for every user of `n` that is not skipped. */
  function Discharge(g: Graph, s: State, n: Name): map<Name, set<Name>> {
    map p | p in s.waiting :: if p in g && n in g[p] && p !in s.skipped then s.waiting[p] - {n} else s.waiting[p]
  }

  function Apply(g: Graph, s: State, e: Event): State {
    match e
    case Submit(i) =>
      if i < |s.ready| then s.(ready := WithoutIndex(s.ready, i), running := s.running + {s.ready[i]}) else s
    case Succeed(n, released) =>
      s.(waiting := Discharge(g, s, n), ready := s.ready + released,
         running := s.running - {n}, completed := s.completed + [n])
    case Fail(n) =>
      s.(running := s.running - {n}, failed := s.failed + {n}, skipped := s.skipped + Users(g, n))
  }

  function After(g: Graph, s: State, es: seq<Event>): State {
    if |es| == 0 then s else Apply(g, After(g, s, es[..|es| - 1]), es[|es| - 1])
  }

  ghost predicate ValidRun(g: Graph, fails: set<Name>, jobs: nat, s: State, es: seq<Event>) {
    |es| == 0 ||
    (ValidRun(g, fails, jobs, s, es[..|es| - 1]) &&
     Enabled(g, fails, jobs, After(g, s, es[..|es| - 1]), es[|es| - 1]))
  }

  predicate Finished(s: State) {
    s.ready == [] && s.running == {}
  }

  /** `now` is what the events lead to from the start. */
  ghost predicate Reached(g: Graph, fails: set<Name>, jobs: nat, first: seq<Name>, events: seq<Event>, now: State) {
    && Enumerates(first, Leaves(g))
    && ValidRun(g, fails, jobs, Init(g, first), events)
    && After(g, Init(g, first), events) == now
  }

  // ----- what the run must end in -------------------------------------------

  /** Neither `n` nor anything below it fails or lies on a cycle. */
  ghost predicate Clear(g: Graph, fails: set<Name>, n: Name) {
    !ReachesCycle(g, n) && forall m :: Reach(g, n, m) ==> m !in fails
  }

  /** `n` fails, while everything strictly below it succeeds. */
  ghost predicate FirstFailure(g: Graph, fails: set<Name>, n: Name) {
    n in fails && !ReachesCycle(g, n) && forall m :: StrictReach(g, n, m) ==> m !in fails
  }

  ghost function CompletedSet(g: Graph, fails: set<Name>): set<Name> {
    set n | n in g && Clear(g, fails, n)
  }

  ghost function FailedSet(g: Graph, fails: set<Name>): set<Name> {
    set n | n in g && FirstFailure(g, fails, n)
  }

  /** The strict dependents of a set. */
  ghost function Blocked(g: Graph, s: set<Name>): set<Name> {
    set n | n in g && exists f :: f in s && StrictReach(g, n, f)
  }

  /** `skipped` after the sweep that follows the main loop. */
  ghost function FinalSkipped(g: Graph, s: State): set<Name> {
    s.skipped + (Blocked(g, s.failed) - Elems(s.completed) - s.failed)
  }

  // ----- invariant ------------------------------------------------------------

  /** The sets behind a state: ready, running, completed, failed, skipped. */
  datatype Sets = Sets(ready: set<Name>, running: set<Name>, completed: set<Name>, failed: set<Name>,
          skipped: set<Name>)
  {
    function Started(): set<Name> { ready + running + completed + failed }
  }

  function SetsOf(s: State): Sets {
    Sets(Elems(s.ready), s.running, Elems(s.completed), s.failed, s.skipped)
  }

  ghost predicate Separate(g: Graph, v: Sets) {
    && v.Started() + v.skipped <= g.Keys
    && v.ready !! v.running !! v.completed !! v.failed !! v.skipped
  }

  ghost predicate WaitingIsExact(g: Graph, w: map<Name, set<Name>>, v: Sets) {
    && w.Keys == g.Keys
    && forall n :: n in g && n !in v.skipped ==> w[n] == g[n] - v.completed
  }

  /** A target has started exactly when everything it depends on has completed. */
  ghost predicate StartedWhenReady(g: Graph, v: Sets) {
    && (forall n :: n in v.Started() && n in g ==> g[n] <= v.completed)
    && (forall n :: n in g && n !in v.skipped && g[n] <= v.completed ==> n in v.Started())
  }

  ghost predicate FailuresAreReal(g: Graph, fails: set<Name>, v: Sets) {
    && v.failed <= fails
    && v.completed !! fails
    && forall n :: n in g ==> (n in v.skipped <==> g[n] * v.failed != {})
  }

  ghost predicate SetInv(g: Graph, fails: set<Name>, w: map<Name, set<Name>>, v: Sets) {
    && Separate(g, v)
    && WaitingIsExact(g, w, v)
    && StartedWhenReady(g, v)
    && FailuresAreReal(g, fails, v)
  }

  ghost predicate Inv(g: Graph, fails: set<Name>, s: State) {
    && SetInv(g, fails, s.waiting, SetsOf(s))
    && NoDup(s.ready) && NoDup(s.completed) && DepFirst(g, s.completed)
  }

  lemma InitSetInv(g: Graph, fails: set<Name>)
    ensures SetInv(g, fails, g, Sets(Leaves(g), {}, {}, {}, {}))
  {
    var v := Sets(Leaves(g), {}, {}, {}, {});
    assert v.Started() == Leaves(g);
    assert forall n :: n in g ==> g[n] * v.failed == {};
    assert forall n :: n in g ==> g[n] - v.completed == g[n];
  }

  lemma InitInv(g: Graph, fails: set<Name>, first: seq<Name>)
    requires Enumerates(first, Leaves(g))
    ensures Inv(g, fails, Init(g, first))
  {
    InitSetInv(g, fails);
    var none: seq<Name> := [];
    assert Elems(none) == {};
    assert SetsOf(Init(g, first)) == Sets(Leaves(g), {}, {}, {}, {});
  }

  lemma WithoutIndexElems(r: seq<Name>, i: nat)
    requires i < |r| && NoDup(r)
    ensures NoDup(WithoutIndex(r, i)) && Elems(WithoutIndex(r, i)) == Elems(r) - {r[i]} && r[i] in Elems(r)
  {
    var q := WithoutIndex(r, i);
    forall n | n in Elems(r) - {r[i]} ensures n in Elems(q) {
      var k :| 0 <= k < |r| && r[k] == n;
      assert q[if k < i then k else k - 1] == n;
    }
  }

  lemma SubmitInv(g: Graph, fails: set<Name>, w: map<Name, set<Name>>, v: Sets, n: Name)
    requires SetInv(g, fails, w, v) && n in v.ready
    ensures SetInv(g, fails, w, v.(ready := v.ready - {n}, running := v.running + {n}))
  {
    assert v.(ready := v.ready - {n}, running := v.running + {n}).Started() == v.Started();
  }

  lemma FailInv(g: Graph, fails: set<Name>, w: map<Name, set<Name>>, v: Sets, n: Name)
    requires SetInv(g, fails, w, v) && n in v.running && n in fails
    ensures SetInv(g, fails, w, v.(running := v.running - {n}, failed := v.failed + {n},
        skipped := v.skipped + Users(g, n)))
  {
    var t := v.(running := v.running - {n}, failed := v.failed + {n}, skipped := v.skipped + Users(g, n));
    assert t.Started() == v.Started();
    assert Users(g, n) !! v.Started() by {
      forall m | m in Users(g, n) ensures m !in v.Started() {
        assert m in g && n in g[m];
        assert n !in v.completed;
      }
    }
    forall m | m in g ensures m in t.skipped <==> g[m] * t.failed != {} {
      assert g[m] * t.failed == g[m] * v.failed + g[m] * {n};
      assert n in g[m] ==> n in g[m] * {n};
    }
  }

  lemma SucceedSeparate(g: Graph, fails: set<Name>, s: State, n: Name, released: set<Name>)
    requires SetInv(g, fails, s.waiting, SetsOf(s)) && n in s.running && n !in fails
    requires released == Released(g, s, n)
    ensures var v := SetsOf(s);
      && released !! v.Started() + v.skipped
      && released <= g.Keys
      && forall m :: m in released ==> g[m] <= v.completed + {n}
  {
    var v := SetsOf(s);
    forall m | m in released
      ensures m in g && m !in v.Started() && m !in v.skipped && g[m] <= v.completed + {n}
    {
      assert s.waiting[m] == g[m] - v.completed;
      assert n in g[m] && n !in v.completed;
    }
  }

  lemma SucceedInv(g: Graph, fails: set<Name>, s: State, n: Name)
    requires SetInv(g, fails, s.waiting, SetsOf(s)) && n in s.running && n !in fails
    ensures var v := SetsOf(s);
      SetInv(g, fails, Discharge(g, s, n),
             v.(ready := v.ready + Released(g, s, n), running := v.running - {n}, completed := v.completed + {n}))
  {
    var v := SetsOf(s);
    var rel := Released(g, s, n);
    var t := v.(ready := v.ready + rel, running := v.running - {n}, completed := v.completed + {n});
    SucceedSeparate(g, fails, s, n, rel);
    assert t.Started() == v.Started() + rel;
    assert Separate(g, t);
    assert WaitingIsExact(g, Discharge(g, s, n), t) by {
      forall m | m in g && m !in t.skipped ensures Discharge(g, s, n)[m] == g[m] - t.completed {
        assert s.waiting[m] == g[m] - v.completed;
      }
    }
    forall m | m in g && m !in t.skipped && g[m] <= t.completed ensures m in t.Started() {
      if !(g[m] <= v.completed) {
        assert n in g[m];
        assert s.waiting[m] == g[m] - v.completed;
        assert m in rel;
      }
    }
  }

  lemma SucceedOrder(g: Graph, c: seq<Name>, n: Name)
    requires NoDup(c) && DepFirst(g, c) && n !in c && n in g && g[n] <= Elems(c)
    ensures NoDup(c + [n]) && DepFirst(g, c + [n])
  {
    var d := c + [n];
    forall i | 0 <= i < |d| ensures Placed(g, d, i) {
      if i < |c| { assert Placed(g, c, i); }
      assert d[..i] == if i < |c| then c[..i] else c;
    }
  }

  lemma NoDupAppend(a: seq<Name>, b: seq<Name>)
    requires NoDup(a) && NoDup(b) && Elems(a) !! Elems(b)
    ensures NoDup(a + b)
  {
    var c := a + b;
    forall i, j | 0 <= i < j < |c| ensures c[i] != c[j] {
      if i < |a| <= j {
        assert c[i] in Elems(a) && c[j] in Elems(b);
      }
    }
  }

  lemma StepSubmit(g: Graph, fails: set<Name>, jobs: nat, s: State, i: nat)
    requires Inv(g, fails, s) && Enabled(g, fails, jobs, s, Submit(i))
    ensures Inv(g, fails, Apply(g, s, Submit(i)))
  {
    var v, t, n := SetsOf(s), Apply(g, s, Submit(i)), s.ready[i];
    WithoutIndexElems(s.ready, i);
    SubmitInv(g, fails, s.waiting, v, n);
    assert SetsOf(t) == v.(ready := v.ready - {n}, running := v.running + {n});
  }

  lemma SucceedSets(g: Graph, fails: set<Name>, jobs: nat, s: State, n: Name, released: seq<Name>)
    requires Inv(g, fails, s) && Enabled(g, fails, jobs, s, Succeed(n, released))
    ensures var v := SetsOf(s);
      SetsOf(Apply(g, s, Succeed(n, released))) ==
      v.(ready := v.ready + Released(g, s, n), running := v.running - {n}, completed := v.completed + {n})
  {
    hide Inv, Released, Users;
    var t := Apply(g, s, Succeed(n, released));
    assert t.ready == s.ready + released && t.completed == s.completed + [n];
    assert t.failed == s.failed && t.skipped == s.skipped && t.running == s.running - {n};
    ElemsAppend(s.ready, released);
    ElemsAppend(s.completed, [n]);
    assert Elems([n]) == {n};
    assert Elems(released) == Released(g, s, n);
  }

  lemma SucceedSeqs(g: Graph, fails: set<Name>, jobs: nat, s: State, n: Name, released: seq<Name>)
    requires Inv(g, fails, s) && Enabled(g, fails, jobs, s, Succeed(n, released))
    ensures NoDup(s.ready + released) && NoDup(s.completed + [n]) && DepFirst(g, s.completed + [n])
  {
    var v := SetsOf(s);
    SucceedSeparate(g, fails, s, n, Released(g, s, n));
    assert v.ready <= v.Started();
    NoDupAppend(s.ready, released);
    assert n in v.Started() && n !in v.completed;
    SucceedOrder(g, s.completed, n);
  }

  lemma StepSucceed(g: Graph, fails: set<Name>, jobs: nat, s: State, n: Name, released: seq<Name>)
    requires Inv(g, fails, s) && Enabled(g, fails, jobs, s, Succeed(n, released))
    ensures Inv(g, fails, Apply(g, s, Succeed(n, released)))
  {
    SucceedSets(g, fails, jobs, s, n, released);
    SucceedSeqs(g, fails, jobs, s, n, released);
    SucceedInv(g, fails, s, n);
    SubsetSize(s.running - {n}, s.running);
  }

  lemma SubsetSize<T>(a: set<T>, b: set<T>)
    requires a <= b
    ensures |a| <= |b|
  {
    assert b == a + (b - a);
  }

  lemma StepFail(g: Graph, fails: set<Name>, jobs: nat, s: State, n: Name)
    requires Inv(g, fails, s) && Enabled(g, fails, jobs, s, Fail(n))
    ensures Inv(g, fails, Apply(g, s, Fail(n)))
  {
    var v, t := SetsOf(s), Apply(g, s, Fail(n));
    FailInv(g, fails, s.waiting, v, n);
    assert SetsOf(t) == v.(running := v.running - {n}, failed := v.failed + {n}, skipped := v.skipped + Users(g, n));
    SubsetSize(t.running, s.running);
  }

  /** Every event keeps the invariant. */
  lemma {:induction false} StepInv(g: Graph, fails: set<Name>, jobs: nat, s: State, e: Event)
    requires Inv(g, fails, s) && Enabled(g, fails, jobs, s, e)
    ensures Inv(g, fails, Apply(g, s, e))
  {
    match e
    case Submit(i) => StepSubmit(g, fails, jobs, s, i);
    case Succeed(n, released) => StepSucceed(g, fails, jobs, s, n, released);
    case Fail(n) => StepFail(g, fails, jobs, s, n);
  }

  lemma StepLimit(g: Graph, fails: set<Name>, jobs: nat, s: State, e: Event)
    requires Enabled(g, fails, jobs, s, e) && |s.running| <= jobs
    ensures |Apply(g, s, e).running| <= jobs
  {
    match e
    case Submit(i) =>
    case Succeed(n, _) => assert s.running == s.running - {n} + {n};
    case Fail(n) => assert s.running == s.running - {n} + {n};
  }

  /** Never more than `jobs` actions at once. */
  lemma {:induction false} RunLimit(g: Graph, fails: set<Name>, jobs: nat, s: State, es: seq<Event>)
    requires ValidRun(g, fails, jobs, s, es) && |s.running| <= jobs
    ensures |After(g, s, es).running| <= jobs
  {
    if |es| > 0 {
      var before := es[..|es| - 1];
      RunLimit(g, fails, jobs, s, before);
      StepLimit(g, fails, jobs, After(g, s, before), es[|es| - 1]);
    }
  }

  lemma {:induction false} RunInv(g: Graph, fails: set<Name>, jobs: nat, first: seq<Name>, es: seq<Event>)
    requires Enumerates(first, Leaves(g))
    requires ValidRun(g, fails, jobs, Init(g, first), es)
    ensures Inv(g, fails, After(g, Init(g, first), es))
    decreases |es|
  {
    if |es| == 0 {
      InitInv(g, fails, first);
    } else {
      var before := es[..|es| - 1];
      RunInv(g, fails, jobs, first, before);
      StepInv(g, fails, jobs, After(g, Init(g, first), before), es[|es| - 1]);
    }
  }

  // ----- outcome ----------------------------------------------------------------

  /** Everything below a completed target has completed too. */
  lemma CompletedIsClosed(g: Graph, fails: set<Name>, w: map<Name, set<Name>>, v: Sets)
    requires SetInv(g, fails, w, v)
    ensures EdgeClosed(g, v.completed)
  {
    forall a, b | a in v.completed && Edge(g, a, b) ensures b in v.completed {
      assert a in v.Started();
    }
  }

  lemma BelowStarted(g: Graph, fails: set<Name>, w: map<Name, set<Name>>, v: Sets, n: Name, m: Name)
    requires SetInv(g, fails, w, v) && n in v.Started() && StrictReach(g, n, m)
    ensures m in v.completed
  {
    var b := FirstEdge(g, n, m);
    CompletedIsClosed(g, fails, w, v);
    EdgeClosedReach(g, v.completed, b, m);
  }

  lemma CompletedIsClear(g: Graph, fails: set<Name>, s: State, n: Name)
    requires Inv(g, fails, s) && n in s.completed
    ensures Clear(g, fails, n)
  {
    DepFirstNoCycle(g, s.completed, n);
    CompletedIsClosed(g, fails, s.waiting, SetsOf(s));
    forall m | Reach(g, n, m) ensures m !in fails {
      EdgeClosedReach(g, Elems(s.completed), n, m);
    }
  }

  lemma FailedIsFirst(g: Graph, fails: set<Name>, s: State, n: Name)
    requires Inv(g, fails, s) && n in s.failed
    ensures FirstFailure(g, fails, n)
  {
    var v := SetsOf(s);
    forall m | StrictReach(g, n, m) ensures m in s.completed && m !in fails {
      BelowStarted(g, fails, s.waiting, v, n, m);
    }
    if ReachesCycle(g, n) {
      var m :| Reach(g, n, m) && StrictReach(g, m, m);
      ReachTrans(g, n, m, m);
      assert m in s.completed;
      ReachRefl(g, m);
      DepFirstNoCycle(g, s.completed, m);
    }
  }

  /** Targets that never started and depend on no failure. */
  ghost function Stuck(g: Graph, v: Sets): set<Name> {
    g.Keys - v.completed - v.failed - Blocked(g, v.failed)
  }

  lemma StuckHasSuccessor(g: Graph, fails: set<Name>, w: map<Name, set<Name>>, v: Sets, n: Name)
    requires Closed(g) && SetInv(g, fails, w, v) && v.ready == {} && v.running == {}
    requires n in Stuck(g, v)
    ensures HasSuccessorIn(g, Stuck(g, v), n)
  {
    if n in v.skipped {
      var f :| f in g[n] * v.failed;
      assert Edge(g, n, f);
      EdgeStrict(g, n, f);
      assert false;
    }
    assert n !in v.Started();
    var d :| d in g[n] && d !in v.completed;
    assert Edge(g, n, d);
    if d in v.failed {
      EdgeStrict(g, n, d);
      assert false;
    }
    if d in Blocked(g, v.failed) {
      var f :| f in v.failed && StrictReach(g, d, f);
      EdgeThenReach(g, n, d, f);
      assert false;
    }
    assert d in Stuck(g, v);
  }

  lemma StuckReachesCycle(g: Graph, fails: set<Name>, s: State, n: Name)
    requires Closed(g) && Inv(g, fails, s) && Finished(s)
    requires n in Stuck(g, SetsOf(s))
    ensures ReachesCycle(g, n)
  {
    var v := SetsOf(s);
    forall a | a in Stuck(g, v) ensures HasSuccessorIn(g, Stuck(g, v), a) {
      StuckHasSuccessor(g, fails, s.waiting, v, a);
    }
    NoSinkReachesCycle(g, Stuck(g, v), n);
  }

  lemma BlockedIsNeither(g: Graph, fails: set<Name>, w: map<Name, set<Name>>, v: Sets)
    requires SetInv(g, fails, w, v)
    ensures Blocked(g, v.failed) !! v.Started()
    ensures v.skipped <= Blocked(g, v.failed)
  {
    forall n | n in Blocked(g, v.failed) && n in v.Started() ensures false {
      var f :| f in v.failed && StrictReach(g, n, f);
      BelowStarted(g, fails, w, v, n, f);
    }
    forall n | n in v.skipped ensures n in Blocked(g, v.failed) {
      var f :| f in g[n] * v.failed;
      assert Edge(g, n, f);
      EdgeStrict(g, n, f);
    }
  }

  /** A target above no failure is not blocked. */
  lemma ClearNotBlocked(g: Graph, fails: set<Name>, s: set<Name>, n: Name)
    requires s <= fails
    requires forall m :: StrictReach(g, n, m) ==> m !in fails
    ensures n !in Blocked(g, s)
  {
  }

  lemma ClearIsStrictlyClear(g: Graph, fails: set<Name>, n: Name)
    requires Clear(g, fails, n)
    ensures forall m :: StrictReach(g, n, m) ==> m !in fails
    ensures n !in fails
  {
    ReachRefl(g, n);
    forall m | StrictReach(g, n, m) ensures m !in fails {
      StrictIsReach(g, n, m);
    }
  }

  lemma CompletedOutcome(g: Graph, fails: set<Name>, s: State)
    requires Closed(g) && Inv(g, fails, s) && Finished(s)
    ensures Elems(s.completed) == CompletedSet(g, fails)
  {
    var v := SetsOf(s);
    forall n | n in v.completed ensures n in CompletedSet(g, fails) {
      CompletedIsClear(g, fails, s, n);
    }
    forall n | n in CompletedSet(g, fails) ensures n in v.completed {
      ClearIsStrictlyClear(g, fails, n);
      ClearNotBlocked(g, fails, v.failed, n);
      if n in Stuck(g, v) {
        StuckReachesCycle(g, fails, s, n);
      }
    }
  }

  lemma FailedOutcome(g: Graph, fails: set<Name>, s: State)
    requires Closed(g) && Inv(g, fails, s) && Finished(s)
    ensures s.failed == FailedSet(g, fails)
  {
    var v := SetsOf(s);
    forall n | n in v.failed ensures n in FailedSet(g, fails) {
      FailedIsFirst(g, fails, s, n);
    }
    forall n | n in FailedSet(g, fails) ensures n in v.failed {
      ClearNotBlocked(g, fails, v.failed, n);
      if n in Stuck(g, v) {
        StuckReachesCycle(g, fails, s, n);
      }
    }
  }

  /**
   Schedule independence: whatever the interleaving, the policy and the number
   of workers, a finished keep-going run ends in the same three sets.
   */
  lemma ScheduleIndependence(g: Graph, fails: set<Name>, jobs: nat, first: seq<Name>, es: seq<Event>, s: State)
    requires Closed(g) && Reached(g, fails, jobs, first, es, s) && Finished(s)
    ensures Elems(s.completed) == CompletedSet(g, fails)
    ensures s.failed == FailedSet(g, fails)
    ensures FinalSkipped(g, s) == Blocked(g, FailedSet(g, fails))
    ensures IsSchedule(g, CompletedSet(g, fails), s.completed)
  {
    RunInv(g, fails, jobs, first, es);
    FinishedOutcome(g, fails, s);
  }

  lemma FinishedOutcome(g: Graph, fails: set<Name>, s: State)
    requires Closed(g) && Inv(g, fails, s) && Finished(s)
    ensures Elems(s.completed) == CompletedSet(g, fails)
    ensures s.failed == FailedSet(g, fails)
    ensures FinalSkipped(g, s) == Blocked(g, FailedSet(g, fails))
    ensures IsSchedule(g, CompletedSet(g, fails), s.completed)
  {
    CompletedOutcome(g, fails, s);
    FailedOutcome(g, fails, s);
    BlockedIsNeither(g, fails, s.waiting, SetsOf(s));
  }

  /** On an acyclic subset the three sets split the whole selection. */
  lemma {:induction false} AcyclicPartition(g: Graph, fails: set<Name>)
    requires Closed(g) && Acyclic(g)
    ensures CompletedSet(g, fails) + FailedSet(g, fails) + Blocked(g, FailedSet(g, fails)) == g.Keys
    ensures CompletedSet(g, fails) !! FailedSet(g, fails) !! Blocked(g, FailedSet(g, fails))
  {
    forall n | n in FailedSet(g, fails) ensures n !in Blocked(g, FailedSet(g, fails)) {
      ClearNotBlocked(g, fails, FailedSet(g, fails), n);
    }
    AcyclicIffNoCycleReached(g);
    forall n | n in g ensures n in CompletedSet(g, fails) + FailedSet(g, fails) + Blocked(g, FailedSet(g, fails)) {
      if !Clear(g, fails, n) {
        FailureBelow(g, fails, n);
      }
    }
    forall n | n in CompletedSet(g, fails) ensures n !in FailedSet(g, fails) && n !in Blocked(g, FailedSet(g, fails)) {
      ClearIsStrictlyClear(g, fails, n);
      ClearNotBlocked(g, fails, FailedSet(g, fails), n);
    }
  }

  /** Descending from a failing target in an acyclic graph ends in a first failure. */
  lemma FailureBelow(g: Graph, fails: set<Name>, n: Name)
    requires Closed(g) && Acyclic(g) && n in g
    requires exists m :: Reach(g, n, m) && m in fails
    ensures n in FailedSet(g, fails) + Blocked(g, FailedSet(g, fails))
  {
    AcyclicIffNoCycleReached(g);
    var failing := set m | m in g && Reach(g, n, m) && m in fails;
    var m0 :| Reach(g, n, m0) && m0 in fails;
    ReachStays(g, n, m0);
    assert m0 in failing;
    if forall m {:trigger StrictlyAbove(g, failing, m)} :: m in failing ==> StrictlyAbove(g, failing, m) {
      SinkIn(g, failing, m0);
      assert false;
    }
    var f :| f in failing && !StrictlyAbove(g, failing, f);
    forall m | StrictReach(g, f, m) ensures m !in fails {
      StrictIsReach(g, f, m);
      ReachTrans(g, n, f, m);
      ReachStays(g, n, m);
    }
    assert f in FailedSet(g, fails);
    ReachIsEqOrStrict(g, n, f);
  }

  ghost predicate StrictlyAbove(g: Graph, s: set<Name>, a: Name) {
    exists b :: b in s && StrictReach(g, a, b)
  }

  ghost function BelowIn(g: Graph, s: set<Name>, a: Name): set<Name> {
    set m | m in s && StrictReach(g, a, m)
  }

  lemma BelowKeepsDescending(g: Graph, s: set<Name>, a: Name, m: Name)
    requires m in BelowIn(g, s, a) && StrictlyAbove(g, s, m)
    ensures StrictlyAbove(g, BelowIn(g, s, a), m)
  {
    var x :| x in s && StrictReach(g, m, x);
    StrictTrans(g, a, m, x);
    assert x in BelowIn(g, s, a);
  }

  /** In an acyclic graph a finite set cannot descend forever. */
  lemma {:induction false} SinkIn(g: Graph, s: set<Name>, a: Name)
    requires Acyclic(g) && a in s
    requires forall m {:trigger StrictlyAbove(g, s, m)} :: m in s ==> StrictlyAbove(g, s, m)
    ensures false
    decreases s
  {
    var below := BelowIn(g, s, a);
    assert StrictlyAbove(g, s, a);
    var b :| b in s && StrictReach(g, a, b);
    forall m | m in below ensures StrictlyAbove(g, below, m) {
      BelowKeepsDescending(g, s, a, m);
    }
    assert a in s && a !in below;
    SinkIn(g, below, b);
  }

  /**
   With nothing failing, the targets a finished run leaves out, the ones
   reported as `missing`, are exactly those that can reach a cycle.
   */
  lemma MissingIffReachesCycle(g: Graph, jobs: nat, first: seq<Name>, es: seq<Event>, s: State)
    requires Closed(g) && Reached(g, {}, jobs, first, es, s) && Finished(s)
    ensures s.failed == {} && FinalSkipped(g, s) == {}
    ensures forall n :: n in g.Keys - Elems(s.completed) <==> n in g && ReachesCycle(g, n)
  {
    ScheduleIndependence(g, {}, jobs, first, es, s);
    assert s.failed == {};
    assert Blocked(g, {}) == {};
  }

  // ----- progress -----------------------------------------------------------------

  /** An unfinished run with a worker to spare always has an enabled event. */
  lemma {:induction false} NotStuck(g: Graph, fails: set<Name>, jobs: nat, s: State)
    requires Inv(g, fails, s) && !Finished(s) && jobs >= 1
    ensures exists e :: Enabled(g, fails, jobs, s, e)
  {
    if s.running == {} {
      assert Enabled(g, fails, jobs, s, Submit(0));
    } else {
      var n :| n in s.running;
      if n in fails {
        assert Enabled(g, fails, jobs, s, Fail(n));
      } else {
        var released := Enumeration(Released(g, s, n));
        assert Enabled(g, fails, jobs, s, Succeed(n, released));
      }
    }
  }

  lemma {:induction false} Enumeration(u: set<Name>) returns (s: seq<Name>)
    ensures Enumerates(s, u)
  {
    if u == {} {
      s := [];
    } else {
      var x :| x in u;
      var r := Enumeration(u - {x});
      s := r + [x];
      assert x !in Elems(r);
      ElemsAppend(r, [x]);
    }
  }
}
