/**
 Which target a free worker is given, over whole runs: stated with chains of
 users and their weights, or with the order of becoming ready, instead of with
 priorities and heap entries.
 */
module StartOrder {
  import opened Graph
  import opened Scheduler
  import opened Executor
  import opened ListScheduling

  /** A chain of users above `n`: each target depends on the next one, and the last one is `n`. */
  ghost predicate ChainAbove(g: Graph, p: seq<Name>, n: Name) {
    |p| >= 1 && Walk(g, p) && p[|p| - 1] == n
  }

  /** Some chain of users above `a` weighs at least as much as every chain of users above `b`. */
  ghost predicate AsHeavy(g: Graph, d: Durations, a: Name, b: Name) {
    exists p :: ChainAbove(g, p, a) && forall q :: ChainAbove(g, q, b) ==> Weight(d, q) <= Weight(d, p)
  }

  /**
   What is started at the `k`-th event is due.  With `critical` no other ready target has more work left above it,
   and of those with as much it has the least name; without, it has been ready for longest.
   */
  ghost predicate StartsDue(g: Graph, d: Durations, critical: bool, first: seq<Name>, events: seq<Event>, k: nat)
    requires k < |events|
  {
    var ready := After(g, Init(g, first), events[..k]).ready;
    match events[k]
    case Submit(i) =>
      && i < |ready|
      && if critical
         then forall j :: 0 <= j < |ready| ==>
           AsHeavy(g, d, ready[i], ready[j]) && (AsHeavy(g, d, ready[j], ready[i]) ==> ready[i] <= ready[j])
         else i == 0
    case Succeed(_, released) => Ascending(released)
    case Fail(_) => true
  }

  /** The events are a run of the step system in which whatever is started is due. */
  ghost predicate RanInOrder(g: Graph, fails: set<Name>, d: Durations, critical: bool, jobs: nat, first: seq<Name>,
          events: seq<Event>)
  {
    && Ascending(first) && Reached(g, fails, jobs, first, events, After(g, Init(g, first), events))
    && forall k :: 0 <= k < |events| ==> StartsDue(g, d, critical, first, events, k)
  }

  lemma AsHeavyIsScore(g: Graph, d: Durations, a: Name, b: Name)
    requires Acyclic(g) && NonNegative(d) && a in g && b in g
    ensures AsHeavy(g, d, a, b) <==> Score(g, d, b) <= Score(g, d, a)
  {
    var p := ScoreAttained(g, d, a);
    var q := ScoreAttained(g, d, b);
    assert ChainAbove(g, p, a) && ChainAbove(g, q, b);
    if Score(g, d, b) <= Score(g, d, a) {
      forall r | ChainAbove(g, r, b) ensures Weight(d, r) <= Weight(d, p) {
        ScoreBoundsWalks(g, d, r);
      }
    }
    if AsHeavy(g, d, a, b) {
      var r :| ChainAbove(g, r, a) && forall q :: ChainAbove(g, q, b) ==> Weight(d, q) <= Weight(d, r);
      ScoreBoundsWalks(g, d, r);
    }
  }

  lemma {:induction false} PrefixReached(g: Graph, fails: set<Name>, jobs: nat, first: seq<Name>, events: seq<Event>,
          now: State, k: nat)
    requires Reached(g, fails, jobs, first, events, now) && k <= |events|
    ensures Reached(g, fails, jobs, first, events[..k], After(g, Init(g, first), events[..k]))
    decreases |events|
  {
    var last := |events| - 1;
    if k < |events| {
      PrefixReached(g, fails, jobs, first, events[..last], After(g, Init(g, first), events[..last]), k);
      assert events[..last][..k] == events[..k];
    } else {
      assert events[..k] == events;
    }
  }

  lemma ReadyInGraph(g: Graph, fails: set<Name>, jobs: nat, first: seq<Name>, events: seq<Event>, now: State)
    requires Reached(g, fails, jobs, first, events, now)
    ensures Elems(now.ready) <= g.Keys
  {
    RunInv(g, fails, jobs, first, events);
    assert SetsOf(now).ready <= SetsOf(now).Started();
  }

  lemma PriorityIsDue(g: Graph, d: Durations, priorities: map<Name, real>, ready: seq<Name>, i: nat)
    requires Acyclic(g) && NonNegative(d) && Elems(ready) <= g.Keys
    requires priorities.Keys == g.Keys && forall n :: n in g ==> priorities[n] == Score(g, d, n)
    requires Chosen(CriticalPathFirst(priorities), ready, i)
    ensures forall j :: 0 <= j < |ready| ==>
        AsHeavy(g, d, ready[i], ready[j]) && (AsHeavy(g, d, ready[j], ready[i]) ==> ready[i] <= ready[j])
  {
    forall j | 0 <= j < |ready|
      ensures AsHeavy(g, d, ready[i], ready[j]) && (AsHeavy(g, d, ready[j], ready[i]) ==> ready[i] <= ready[j])
    {
      assert ready[i] in Elems(ready) && ready[j] in Elems(ready);
      AsHeavyIsScore(g, d, ready[i], ready[j]);
      AsHeavyIsScore(g, d, ready[j], ready[i]);
    }
  }

  /**
   A run that follows exact priorities starts the heaviest remaining path first: whenever a target is started, it has
   a chain of users at least as heavy as any chain of users of any other ready target.
   */
  lemma CriticalPathFirstIsDue(g: Graph, fails: set<Name>, d: Durations, priorities: map<Name, real>, jobs: nat,
          first: seq<Name>, events: seq<Event>, now: State)
    requires Acyclic(g) && NonNegative(d)
    requires priorities.Keys == g.Keys && forall n :: n in g ==> priorities[n] == Score(g, d, n)
    requires Reached(g, fails, jobs, first, events, now) && InOrder(g, CriticalPathFirst(priorities), first, events)
    ensures RanInOrder(g, fails, d, true, jobs, first, events)
  {
    hide After, AsHeavy, Reached, Score, Chosen;
    AfterIsNow(g, fails, jobs, first, events, now);
    forall k | 0 <= k < |events| ensures StartsDue(g, d, true, first, events, k) {
      assert Follows(g, CriticalPathFirst(priorities), first, events, k);
      if events[k].Submit? {
        var before := After(g, Init(g, first), events[..k]);
        PrefixReached(g, fails, jobs, first, events, now, k);
        ReadyInGraph(g, fails, jobs, first, events[..k], before);
        ChosenIndex(CriticalPathFirst(priorities), before.ready, events[k].i);
        PriorityIsDue(g, d, priorities, before.ready, events[k].i);
      }
    }
  }

  lemma AfterIsNow(g: Graph, fails: set<Name>, jobs: nat, first: seq<Name>, events: seq<Event>, now: State)
    requires Reached(g, fails, jobs, first, events, now)
    ensures now == After(g, Init(g, first), events)
  {
  }

  lemma ChosenIndex(p: Policy, ready: seq<Name>, i: nat)
    requires Chosen(p, ready, i)
    ensures i < |ready| && (p.Fifo? ==> i == 0)
  {
  }

  lemma FifoIsDue(g: Graph, fails: set<Name>, d: Durations, jobs: nat, first: seq<Name>, events: seq<Event>,
          now: State)
    requires Reached(g, fails, jobs, first, events, now) && InOrder(g, Fifo, first, events)
    ensures RanInOrder(g, fails, d, false, jobs, first, events)
  {
    hide After, Reached, Chosen;
    AfterIsNow(g, fails, jobs, first, events, now);
    forall k | 0 <= k < |events| ensures StartsDue(g, d, false, first, events, k) {
      assert Follows(g, Fifo, first, events, k);
      if events[k].Submit? {
        ChosenIndex(Fifo, After(g, Init(g, first), events[..k]).ready, events[k].i);
      }
    }
  }

  /** Either policy, from the variables of a run. */
  lemma PolicyIsDue(g: Graph, fails: set<Name>, d: Durations, critical: bool, policy: Policy, jobs: nat,
          first: seq<Name>, events: seq<Event>, now: State)
    requires if critical then Acyclic(g) && NonNegative(d) && IsExact(g, d, policy) else policy == Fifo
    requires Reached(g, fails, jobs, first, events, now) && InOrder(g, policy, first, events)
    ensures RanInOrder(g, fails, d, critical, jobs, first, events) && After(g, Init(g, first), events) == now
  {
    hide RanInOrder, InOrder;
    if critical {
      CriticalPathFirstIsDue(g, fails, d, policy.priorities, jobs, first, events, now);
    } else {
      FifoIsDue(g, fails, d, jobs, first, events, now);
    }
  }

  ghost predicate IsExact(g: Graph, d: Durations, p: Policy)
    requires Acyclic(g)
  {
    p.CriticalPathFirst? && p.priorities.Keys == g.Keys && forall n :: n in g ==> p.priorities[n] == Score(g, d, n)
  }

  /** `priorities` of `execute_plan`, and whether the heap is used at all. */
  method PolicyFor(g: Graph, critical: bool, estimates: Durations) returns (policy: Policy)
    requires critical ==> Acyclic(g) && NonNegative(estimates)
    ensures if critical then IsExact(g, estimates, policy) else policy == Fifo
  {
    if critical {
      var priorities := CriticalPathPriorities(g, estimates);
      policy := CriticalPathFirst(priorities);
    } else {
      policy := Fifo;
    }
  }

  // ----- first in, first out ----------------------------------------------------------

  /** The targets in the order in which they are started. */
  function Started(g: Graph, first: seq<Name>, events: seq<Event>): seq<Name> {
    if events == [] then []
    else
      var before := events[..|events| - 1];
      var ready := After(g, Init(g, first), before).ready;
      match events[|events| - 1]
      case Submit(i) => Started(g, first, before) + if i < |ready| then [ready[i]] else []
      case _ => Started(g, first, before)
  }

  /** The targets in the order in which they become ready. */
  function Pushed(first: seq<Name>, events: seq<Event>): seq<Name> {
    if events == [] then first
    else
      match events[|events| - 1]
      case Succeed(_, released) => Pushed(first, events[..|events| - 1]) + released
      case _ => Pushed(first, events[..|events| - 1])
  }

  lemma RanInOrderBefore(g: Graph, fails: set<Name>, d: Durations, jobs: nat, first: seq<Name>, events: seq<Event>)
    requires RanInOrder(g, fails, d, false, jobs, first, events) && events != []
    ensures RanInOrder(g, fails, d, false, jobs, first, events[..|events| - 1])
    ensures events[|events| - 1].Submit? ==>
      events[|events| - 1].i == 0 < |After(g, Init(g, first), events[..|events| - 1]).ready|
  {
    hide After, Reached;
    var last := |events| - 1;
    var before := events[..last];
    PrefixReached(g, fails, jobs, first, events, After(g, Init(g, first), events), last);
    forall k | 0 <= k < |before| ensures StartsDue(g, d, false, first, before, k) {
      assert StartsDue(g, d, false, first, events, k) && before[..k] == events[..k];
    }
    assert StartsDue(g, d, false, first, events, last);
  }

  /** Without priorities targets are started exactly in the order in which they became ready. */
  lemma {:induction false} FifoIsQueue(g: Graph, fails: set<Name>, d: Durations, jobs: nat, first: seq<Name>,
          events: seq<Event>)
    requires RanInOrder(g, fails, d, false, jobs, first, events)
    ensures Started(g, first, events) + After(g, Init(g, first), events).ready == Pushed(first, events)
    decreases |events|
  {
    if events != [] {
      hide RanInOrder;
      var before := events[..|events| - 1];
      RanInOrderBefore(g, fails, d, jobs, first, events);
      FifoIsQueue(g, fails, d, jobs, first, before);
      QueueStep(g, After(g, Init(g, first), before), events[|events| - 1], Started(g, first, before));
    }
  }

  /** Taking the front of the ready list moves it to what was started, and a success appends to the list. */
  lemma QueueStep(g: Graph, s: State, e: Event, started: seq<Name>)
    requires e.Submit? ==> e.i == 0 < |s.ready|
    ensures var ready := Apply(g, s, e).ready;
      match e
      case Submit(i) => started + [s.ready[i]] + ready == started + s.ready
      case Succeed(_, released) => started + ready == started + s.ready + released
      case Fail(_) => ready == s.ready
  {
  }
}
