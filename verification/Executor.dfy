/**
 `execute_plan` and a whole build, as they update their variables.

 `Run` holds the scheduler's variables; its methods are the submit loop, the two
 ways an action can finish, and the final sweep, each proved to take enabled
 events of the step system.  `Engine` owns the files and stores on disk.
 */
module Executor {
  import opened Graph
  import opened Scheduler
  import opened Traversals

  // ----- orders -------------------------------------------------------------

  predicate Ascending(q: seq<Name>) {
    forall i, j :: 0 <= i < j < |q| ==> q[i] < q[j]
  }

  /** `sorted(s)` */
  method SortedNames(s: set<Name>) returns (q: seq<Name>)
    ensures Enumerates(q, s) && Ascending(q)
  {
    q := [];
    var rest := s;
    while rest != {}
      invariant rest <= s && Elems(q) == s - rest
      invariant Ascending(q)
      invariant forall i, y :: 0 <= i < |q| && y in rest ==> q[i] < y
      decreases rest
    {
      LeastExists(rest);
      var x :| IsLeast(x, rest);
      ElemsAppend(q, [x]);
      assert Elems([x]) == {x};
      q := q + [x];
      rest := rest - {x};
    }
  }

  datatype Policy = Fifo | CriticalPathFirst(priorities: map<Name, real>)

  /** A heap entry of `ready_heap`: the negated priority, then the name. */
  function HeapEntry(priorities: map<Name, real>, n: Name): (real, Name) {
    (-(if n in priorities then priorities[n] else 0.0), n)
  }

  /** The order of pairs. */
  predicate EntryBefore(a: (real, Name), b: (real, Name)) {
    a.0 < b.0 || (a.0 == b.0 && a.1 < b.1)
  }

  /** Where a policy takes the next target from: the front of the deque, or a largest priority, least name first. */
  predicate Chosen(p: Policy, ready: seq<Name>, i: nat) {
    && i < |ready|
    && match p
       case Fifo => i == 0
       case CriticalPathFirst(priorities) =>
         forall j :: 0 <= j < |ready| && ready[j] in priorities && ready[i] in priorities ==>
           && priorities[ready[j]] <= priorities[ready[i]]
           && (priorities[ready[j]] == priorities[ready[i]] ==> ready[i] <= ready[j])
  }

  /** The position `pop_ready` takes: the front of the deque, or the least heap entry. */
  method PopIndex(p: Policy, ready: seq<Name>) returns (i: nat)
    requires |ready| > 0
    ensures i < |ready| && (p.Fifo? ==> i == 0)
    ensures p.CriticalPathFirst? ==>
      forall j :: 0 <= j < |ready| && ready[j] in p.priorities && ready[i] in p.priorities ==>
        && p.priorities[ready[j]] <= p.priorities[ready[i]]
        && (p.priorities[ready[j]] == p.priorities[ready[i]] ==> ready[i] <= ready[j])
  {
    i := 0;
    if p.CriticalPathFirst? {
      var k := 1;
      while k < |ready|
        invariant i < k <= |ready|
        invariant forall j :: 0 <= j < k ==>
          !EntryBefore(HeapEntry(p.priorities, ready[j]), HeapEntry(p.priorities, ready[i]))
      {
        if EntryBefore(HeapEntry(p.priorities, ready[k]), HeapEntry(p.priorities, ready[i])) {
          i := k;
        }
        k := k + 1;
      }
    }
  }

  // ----- the order of a run --------------------------------------------------------

  /** The `k`-th event follows the policy: it takes the target that is due, or pushes by name. */
  ghost predicate Follows(g: Graph, p: Policy, first: seq<Name>, events: seq<Event>, k: nat)
    requires k < |events|
  {
    match events[k]
    case Submit(i) => Chosen(p, After(g, Init(g, first), events[..k]).ready, i)
    case Succeed(_, released) => Ascending(released)
    case Fail(_) => true
  }

  ghost predicate InOrder(g: Graph, p: Policy, first: seq<Name>, events: seq<Event>) {
    Ascending(first) && forall k :: 0 <= k < |events| ==> Follows(g, p, first, events, k)
  }

  lemma InOrderNext(g: Graph, p: Policy, first: seq<Name>, events: seq<Event>, e: Event)
    requires InOrder(g, p, first, events)
    requires match e
      case Submit(i) => Chosen(p, After(g, Init(g, first), events).ready, i)
      case Succeed(_, released) => Ascending(released)
      case Fail(_) => true
    ensures InOrder(g, p, first, events + [e])
  {
    hide After, Chosen;
    var es := events + [e];
    forall k | 0 <= k < |es| ensures Follows(g, p, first, es, k) {
      assert es[..k] == events[..k];
      if k < |events| {
        assert Follows(g, p, first, events, k);
      } else {
        assert es[..k] == events;
      }
    }
  }

  // ----- the scheduler's variables ----------------------------------------------

  lemma ReachedNext(g: Graph, fails: set<Name>, jobs: nat, first: seq<Name>, events: seq<Event>, now: State, e: Event)
    requires Reached(g, fails, jobs, first, events, now) && Enabled(g, fails, jobs, now, e)
    ensures Reached(g, fails, jobs, first, events + [e], Apply(g, now, e))
  {
    var es := events + [e];
    assert es[..|es| - 1] == events && es[|es| - 1] == e;
  }

  lemma ReachedFacts(g: Graph, fails: set<Name>, jobs: nat, first: seq<Name>, events: seq<Event>, now: State)
    requires Reached(g, fails, jobs, first, events, now)
    ensures now.waiting.Keys == g.Keys && now.running <= g.Keys && |now.running| <= jobs
  {
    RunInv(g, fails, jobs, first, events);
    RunLimit(g, fails, jobs, Init(g, first), events);
  }

  lemma StartedBounded(g: Graph, fails: set<Name>, w: map<Name, set<Name>>, v: Sets)
    requires SetInv(g, fails, w, v)
    ensures |v.running| + |v.completed| + |v.failed| <= |g.Keys|
  {
    SubsetSize(v.running + v.completed + v.failed, g.Keys);
    assert |v.running + v.completed + v.failed| == |v.running| + |v.completed| + |v.failed|;
  }

  lemma ReachedBounded(g: Graph, fails: set<Name>, jobs: nat, first: seq<Name>, events: seq<Event>, now: State)
    requires Reached(g, fails, jobs, first, events, now)
    ensures |now.running| + |now.completed| + |now.failed| <= |g.Keys|
  {
    RunInv(g, fails, jobs, first, events);
    NoDupCard(now.completed);
    StartedBounded(g, fails, now.waiting, SetsOf(now));
  }

  /** The loop below after the users in `done`: what they wait for, and which of them are pushed. */
  ghost predicate PartReleased(g: Graph, s: State, n: Name, done: set<Name>, w: map<Name, set<Name>>,
          pushed: set<Name>)
    requires s.waiting.Keys == g.Keys
  {
    && w.Keys == g.Keys && pushed == Released(g, s, n) * done
    && forall m :: m in g ==> w[m] == if m in done then Discharge(g, s, n)[m] else s.waiting[m]
  }

  lemma ReleaseOne(g: Graph, s: State, n: Name, done: set<Name>, w: map<Name, set<Name>>, pushed: set<Name>, p: Name)
    requires s.waiting.Keys == g.Keys && PartReleased(g, s, n, done, w, pushed)
    requires p in Users(g, n) && p !in done
    ensures p in g
    ensures var rest := s.waiting[p] - {n};
      PartReleased(g, s, n, done + {p}, if p in s.skipped then w else w[p := rest],
                   if p in s.skipped || rest != {} then pushed else pushed + {p})
  {
  }

  lemma AllReleased(g: Graph, s: State, n: Name, w: map<Name, set<Name>>, pushed: set<Name>)
    requires s.waiting.Keys == g.Keys && PartReleased(g, s, n, Users(g, n), w, pushed)
    ensures w == Discharge(g, s, n) && pushed == Released(g, s, n)
  {
  }

  lemma AscendingMore(q: seq<Name>, x: Name)
    requires Ascending(q) && (q == [] || q[|q| - 1] < x)
    ensures Ascending(q + [x]) && Elems(q + [x]) == Elems(q) + {x}
  {
    ElemsAppend(q, [x]);
    assert Elems([x]) == {x};
  }

  lemma AscendingNext(q: seq<Name>, i: nat)
    requires Ascending(q) && i < |q|
    ensures q[i] in Elems(q) && q[i] !in Elems(q[..i]) && (i > 0 ==> q[i - 1] < q[i])
    ensures Elems(q[..i + 1]) == Elems(q[..i]) + {q[i]}
  {
    assert q[..i + 1] == q[..i] + [q[i]];
    ElemsAppend(q[..i], [q[i]]);
    assert Elems([q[i]]) == {q[i]};
  }

  lemma AscendingIsNoDup(q: seq<Name>)
    requires Ascending(q)
    ensures NoDup(q)
  {
  }

  /** The loop over `sorted(reverse[n])`: updates `deps_in_subset` and collects what becomes ready. */
  method Release(g: Graph, ghost s: State, waiting: map<Name, set<Name>>, skipped: set<Name>, n: Name, users: seq<Name>)
      returns (w: map<Name, set<Name>>, pushed: seq<Name>)
    requires s.waiting == waiting && s.skipped == skipped && waiting.Keys == g.Keys
    requires Enumerates(users, Users(g, n)) && Ascending(users)
    ensures w == Discharge(g, s, n) && Enumerates(pushed, Released(g, s, n)) && Ascending(pushed)
  {
    w, pushed := waiting, [];
    NothingYet(users);
    assert PartReleased(g, s, n, {}, w, {});
    hide Ascending, NoDup, Elems, Users, PartReleased, Discharge, Released;
    var i := 0;
    while i < |users|
      invariant 0 <= i <= |users| && PartReleased(g, s, n, Elems(users[..i]), w, Elems(pushed))
      invariant Ascending(pushed) && (pushed == [] || (i > 0 && pushed[|pushed| - 1] <= users[i - 1]))
    {
      var p := users[i];
      AscendingNext(users, i);
      ReleaseOne(g, s, n, Elems(users[..i]), w, Elems(pushed), p);
      if p !in skipped {
        w := w[p := waiting[p] - {n}];
        if w[p] == {} {
          AscendingMore(pushed, p);
          pushed := pushed + [p];
        }
      }
      i := i + 1;
    }
    assert users[..i] == users;
    AllReleased(g, s, n, w, Elems(pushed));
    AscendingIsNoDup(pushed);
  }

  lemma NothingYet(q: seq<Name>)
    ensures q[..0] == [] && Elems(q[..0]) == {} && Ascending(q[..0])
  {
  }

  class Run {
    const g: Graph
    ghost const fails: set<Name>
    const jobs: nat
    const policy: Policy
    ghost const first: seq<Name>
    var waiting: map<Name, set<Name>>
    var ready: seq<Name>
    var running: set<Name>
    var completed: seq<Name>
    var failed: set<Name>
    var skipped: set<Name>
    ghost var events: seq<Event>

    ghost function Now(): State
      reads this
    {
      State(waiting, ready, running, completed, failed, skipped)
    }

    /** The variables hold what a run of the step system has reached, and the run has followed its policy. */
    ghost predicate Valid()
      reads this
    {
      Reached(g, fails, jobs, first, events, Now()) && InOrder(g, policy, first, events)
    }

    constructor (g: Graph, ghost fails: set<Name>, jobs: nat, policy: Policy, first: seq<Name>)
      requires Enumerates(first, Leaves(g)) && Ascending(first)
      ensures Valid() && this.g == g && this.fails == fails && this.jobs == jobs && this.policy == policy
      ensures completed == [] && failed == {} && running == {}
    {
      this.g, this.fails, this.jobs, this.policy, this.first := g, fails, jobs, policy, first;
      waiting, ready, running, completed, failed, skipped := g, first, {}, [], {}, {};
      events := [];
    }

    /** The inner loop: submit while something is ready and a worker is free. */
    method Refill()
      requires Valid()
      modifies this
      ensures Valid() && completed == old(completed) && failed == old(failed)
      ensures ready == [] || |running| >= jobs
    {
      hide InOrder;
      while |ready| > 0 && |running| < jobs
        invariant Valid() && completed == old(completed) && failed == old(failed)
        decreases |ready|
      {
        var i := PopIndex(policy, ready);
        ghost var before := Now();
        var n := ready[i];
        ready := WithoutIndex(ready, i);
        running := running + {n};
        ReachedNext(g, fails, jobs, first, events, before, Submit(i));
        InOrderNext(g, policy, first, events, Submit(i));
        events := events + [Submit(i)];
      }
    }

    /** A future that returned: each unskipped user waits for one dependency less, and is pushed when none is left. */
    method Succeed(n: Name)
      requires Valid() && n in running && n !in fails
      modifies this
      ensures Valid() && completed == old(completed) + [n] && failed == old(failed) && running == old(running) - {n}
    {
      hide Users, Discharge, Released, Reached, SetsOf, InOrder, Ascending;
      ghost var before := Now();
      ReachedFacts(g, fails, jobs, first, events, before);
      var users := SortedNames(Users(g, n));
      var w, pushed := Release(g, before, waiting, skipped, n, users);
      running := running - {n};
      completed := completed + [n];
      waiting := w;
      ready := ready + pushed;
      ReachedNext(g, fails, jobs, first, events, before, Scheduler.Event.Succeed(n, pushed));
      InOrderNext(g, policy, first, events, Scheduler.Event.Succeed(n, pushed));
      events := events + [Scheduler.Event.Succeed(n, pushed)];
    }

    /** A future that raised, in keep-going mode: its direct users are skipped. */
    method Fail(n: Name)
      requires Valid() && n in running && n in fails
      modifies this
      ensures Valid() && completed == old(completed) && failed == old(failed) + {n} && running == old(running) - {n}
    {
      ghost var before := Now();
      running := running - {n};
      failed := failed + {n};
      skipped := skipped + Users(g, n);
      ReachedNext(g, fails, jobs, first, events, before, Scheduler.Event.Fail(n));
      InOrderNext(g, policy, first, events, Scheduler.Event.Fail(n));
      events := events + [Scheduler.Event.Fail(n)];
    }

    /** The sweep after the loop: everything above a failure that did not finish is skipped. */
    method Sweep()
      requires Valid() && Finished(Now()) && Closed(g)
      modifies this`skipped
      ensures skipped == Blocked(g, FailedSet(g, fails))
      ensures Elems(completed) == CompletedSet(g, fails) && failed == FailedSet(g, fails)
      ensures IsSchedule(g, CompletedSet(g, fails), completed)
    {
      ghost var before := Now();
      ScheduleIndependence(g, fails, jobs, first, events, before);
      var blocked := AllAbove(g, failed);
      skipped := skipped + (blocked - Elems(completed) - failed);
      assert skipped == FinalSkipped(g, before);
    }
  }

  /** The queue loop of the sweep: everything strictly above a failed target. */
  method AllAbove(g: Graph, failed: set<Name>) returns (blocked: set<Name>)
    ensures blocked == Blocked(g, failed)
  {
    hide Blocked, Users;
    blocked := {};
    var q := SortedNames(failed);
    while q != []
      invariant Elems(q) <= failed + blocked && blocked <= Blocked(g, failed)
      invariant forall a :: a in failed + blocked - Elems(q) ==> Users(g, a) <= blocked
      decreases Blocked(g, failed) - blocked, |q|
    {
      var n := q[0];
      assert q == [n] + q[1..];
      ElemsAppend([n], q[1..]);
      assert Elems([n]) == {n};
      BlockedUsers(g, failed, n);
      blocked, q := Enqueue(blocked, q[1..], Users(g, n));
    }
    BlockedIsLeast(g, failed, blocked);
  }

  lemma BlockedUsers(g: Graph, failed: set<Name>, n: Name)
    requires n in failed || n in Blocked(g, failed)
    ensures Users(g, n) <= Blocked(g, failed)
  {
    forall u | u in Users(g, n) ensures u in Blocked(g, failed) {
      assert Edge(g, u, n);
      if n in failed {
        EdgeStrict(g, u, n);
      } else {
        var f :| f in failed && StrictReach(g, n, f);
        StrictIsReach(g, n, f);
        EdgeThenReach(g, u, n, f);
      }
    }
  }

  /** A set that holds the users of the failures and of its own members holds every strict dependent. */
  lemma BlockedIsLeast(g: Graph, failed: set<Name>, s: set<Name>)
    requires s <= Blocked(g, failed)
    requires forall a :: a in failed + s ==> Users(g, a) <= s
    ensures s == Blocked(g, failed)
  {
    forall n | n in Blocked(g, failed) ensures n in s {
      var f :| f in failed && StrictReach(g, n, f);
      var b := LastEdge(g, n, f);
      assert b in Users(g, f);
      ClosedUnderUsers(g, s, n, b);
    }
  }
}
