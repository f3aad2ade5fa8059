/**
 How long the greedy refill loop of `execute_plan` takes.

 The scheduler's events are put on a virtual clock: a started action runs for
 its estimated duration, and time passes only while the refill loop has nothing
 to submit, either because no target is ready or because every worker is busy.
 The makespan is compared with the total work and with the critical path, the
 largest of the priorities of `critical_path_priorities`.
 */
module ListScheduling {
  import opened Graph
  import opened Scheduler

  type Durations = map<Name, real>

  function Dur(d: Durations, n: Name): (r: real)
    ensures n in d ==> r == d[n]
  {
    if n in d then d[n] else 0.0
  }

  ghost predicate NonNegative(d: Durations) {
    forall n :: n in d ==> d[n] >= 0.0
  }

  function Weight(d: Durations, p: seq<Name>): real {
    if |p| == 0 then 0.0 else Dur(d, p[0]) + Weight(d, p[1..])
  }

  // ----- priorities ---------------------------------------------------------

  ghost function Above(g: Graph, n: Name): set<Name> {
    set m | m in g && StrictReach(g, m, n)
  }

  lemma AboveShrinks(g: Graph, n: Name, u: Name)
    requires Acyclic(g) && u in Users(g, n)
    ensures Above(g, u) < Above(g, n)
  {
    assert Edge(g, u, n);
    EdgeStrict(g, u, n);
    forall m | m in Above(g, u) ensures m in Above(g, n) {
      StrictTrans(g, m, u, n);
    }
    assert u in Above(g, n) && u !in Above(g, u);
  }

  function Max(a: real, b: real): real {
    if a >= b then a else b
  }

  /** `score`: own duration plus the best score among the users. */
  ghost function Score(g: Graph, d: Durations, n: Name): real
    requires Acyclic(g)
    decreases Above(g, n), 1
  {
    Dur(d, n) + BestUser(g, d, n, Users(g, n))
  }

  ghost function BestUser(g: Graph, d: Durations, n: Name, us: set<Name>): real
    requires Acyclic(g) && us <= Users(g, n)
    decreases Above(g, n), 0, us
  {
    if us == {} then 0.0
    else
      var u :| u in us;
      AboveShrinks(g, n, u);
      Max(Score(g, d, u), BestUser(g, d, n, us - {u}))
  }

  ghost function Up(g: Graph, d: Durations, n: Name): real
    requires Acyclic(g)
  {
    BestUser(g, d, n, Users(g, n))
  }

  lemma BestUserUnfold(g: Graph, d: Durations, n: Name, us: set<Name>) returns (v: Name)
    requires Acyclic(g) && us <= Users(g, n) && us != {}
    ensures v in us && us - {v} <= Users(g, n)
    ensures BestUser(g, d, n, us) >= Score(g, d, v)
    ensures BestUser(g, d, n, us) >= BestUser(g, d, n, us - {v})
    ensures BestUser(g, d, n, us) == Score(g, d, v) || BestUser(g, d, n, us) == BestUser(g, d, n, us - {v})
  {
    v :| v in us && BestUser(g, d, n, us) == Max(Score(g, d, v), BestUser(g, d, n, us - {v}));
    var a, b := Score(g, d, v), BestUser(g, d, n, us - {v});
    assert BestUser(g, d, n, us) == Max(a, b);
  }

  lemma {:induction false} BestUserBounds(g: Graph, d: Durations, n: Name, us: set<Name>, u: Name)
    requires Acyclic(g) && us <= Users(g, n) && u in us
    ensures Score(g, d, u) <= BestUser(g, d, n, us)
    decreases us
  {
    var v := BestUserUnfold(g, d, n, us);
    if u != v {
      BestUserBounds(g, d, n, us - {v}, u);
    }
  }

  lemma {:induction false} BestUserNonNegative(g: Graph, d: Durations, n: Name, us: set<Name>)
    requires Acyclic(g) && us <= Users(g, n)
    ensures BestUser(g, d, n, us) >= 0.0
    decreases us
  {
    if us != {} {
      var v := BestUserUnfold(g, d, n, us);
      BestUserNonNegative(g, d, n, us - {v});
    }
  }

  lemma EdgeScore(g: Graph, d: Durations, a: Name, b: Name)
    requires Acyclic(g) && NonNegative(d) && Edge(g, a, b)
    ensures Score(g, d, a) <= Up(g, d, b) <= Score(g, d, b)
  {
    BestUserBounds(g, d, b, Users(g, b), a);
  }

  lemma {:induction false} WalkScore(g: Graph, d: Durations, p: seq<Name>)
    requires Acyclic(g) && NonNegative(d) && |p| >= 1 && Walk(g, p)
    ensures Score(g, d, p[0]) <= Score(g, d, p[|p| - 1])
    decreases |p|
  {
    if |p| > 1 {
      assert Step(g, p, 0);
      EdgeScore(g, d, p[0], p[1]);
      SubWalk(g, p, 1, |p| - 1);
      assert p[1..|p| - 1 + 1] == p[1..];
      WalkScore(g, d, p[1..]);
    }
  }

  lemma StrictReachScore(g: Graph, d: Durations, a: Name, b: Name)
    requires Acyclic(g) && NonNegative(d) && StrictReach(g, a, b)
    ensures Score(g, d, a) <= Up(g, d, b)
  {
    var c := LastEdge(g, a, b);
    var p :| IsPath(g, p, a, c);
    WalkScore(g, d, p);
    EdgeScore(g, d, c, b);
  }

  lemma {:induction false} WeightAppend(d: Durations, p: seq<Name>, n: Name)
    ensures Weight(d, p + [n]) == Weight(d, p) + Dur(d, n)
    decreases |p|
  {
    if |p| == 0 {
      assert p + [n] == [n];
      assert [n][1..] == [];
    } else {
      assert (p + [n])[1..] == p[1..] + [n];
      WeightAppend(d, p[1..], n);
    }
  }

  /** No chain of users above `n` weighs more than the priority of `n`. */
  lemma {:induction false} ScoreBoundsWalks(g: Graph, d: Durations, p: seq<Name>)
    requires Acyclic(g) && NonNegative(d) && |p| >= 1 && Walk(g, p)
    ensures Weight(d, p) <= Score(g, d, p[|p| - 1])
    decreases |p|
  {
    var n := p[|p| - 1];
    var q := p[..|p| - 1];
    assert p == q + [n];
    WeightAppend(d, q, n);
    BestUserNonNegative(g, d, n, Users(g, n));
    if |q| > 0 {
      assert Step(g, p, |p| - 2);
      EdgeScore(g, d, q[|q| - 1], n);
      WalkPrefix(g, p, |p| - 1);
      ScoreBoundsWalks(g, d, q);
    }
  }

  lemma {:induction false} BestUserAttained(g: Graph, d: Durations, n: Name, us: set<Name>) returns (u: Name)
    requires Acyclic(g) && us <= Users(g, n) && us != {} && NonNegative(d)
    ensures u in us && BestUser(g, d, n, us) == Score(g, d, u)
    decreases us
  {
    u := BestUserUnfold(g, d, n, us);
    BestUserNonNegative(g, d, u, Users(g, u));
    if us - {u} != {} && BestUser(g, d, n, us) != Score(g, d, u) {
      u := BestUserAttained(g, d, n, us - {u});
    }
  }

  /** The priority of `n` is the weight of some chain of users ending in `n`. */
  lemma {:induction false} ScoreAttained(g: Graph, d: Durations, n: Name) returns (p: seq<Name>)
    requires Acyclic(g) && NonNegative(d) && n in g
    ensures |p| >= 1 && Walk(g, p) && p[|p| - 1] == n && Weight(d, p) == Score(g, d, n) && Elems(p) <= g.Keys
    decreases Above(g, n)
  {
    if Users(g, n) == {} {
      p := [n];
      assert p[1..] == [];
    } else {
      var u := BestUserAttained(g, d, n, Users(g, n));
      AboveShrinks(g, n, u);
      var q := ScoreAttained(g, d, u);
      p := q + [n];
      WeightAppend(d, q, n);
      ElemsAppend(q, [n]);
      WalkAppend(g, q, n);
    }
  }

  ghost function BestScore(g: Graph, d: Durations, s: set<Name>): real
    requires Acyclic(g)
  {
    if s == {} then 0.0
    else var n :| n in s; Max(Score(g, d, n), BestScore(g, d, s - {n}))
  }

  /** The largest priority. */
  ghost function CriticalPath(g: Graph, d: Durations): real
    requires Acyclic(g)
  {
    BestScore(g, d, g.Keys)
  }

  lemma BestScoreUnfold(g: Graph, d: Durations, s: set<Name>) returns (v: Name)
    requires Acyclic(g) && s != {}
    ensures v in s
    ensures BestScore(g, d, s) >= Score(g, d, v)
    ensures BestScore(g, d, s) >= BestScore(g, d, s - {v})
    ensures BestScore(g, d, s) == Score(g, d, v) || BestScore(g, d, s) == BestScore(g, d, s - {v})
  {
    v :| v in s && BestScore(g, d, s) == Max(Score(g, d, v), BestScore(g, d, s - {v}));
    var a, b := Score(g, d, v), BestScore(g, d, s - {v});
    assert BestScore(g, d, s) == Max(a, b);
  }

  lemma {:induction false} BestScoreBounds(g: Graph, d: Durations, s: set<Name>, n: Name)
    requires Acyclic(g) && n in s
    ensures Score(g, d, n) <= BestScore(g, d, s)
  {
    var m := BestScoreUnfold(g, d, s);
    if n != m {
      BestScoreBounds(g, d, s - {m}, n);
    }
  }

  lemma {:induction false} BestScoreAttained(g: Graph, d: Durations, s: set<Name>) returns (n: Name)
    requires Acyclic(g) && s != {} && NonNegative(d)
    ensures n in s && BestScore(g, d, s) == Score(g, d, n)
  {
    n := BestScoreUnfold(g, d, s);
    BestUserNonNegative(g, d, n, Users(g, n));
    if s - {n} != {} && BestScore(g, d, s) != Score(g, d, n) {
      n := BestScoreAttained(g, d, s - {n});
    }
  }

  /** The critical path is the weight of a heaviest dependency chain. */
  lemma {:induction false} CriticalPathIsLongest(g: Graph, d: Durations)
    requires Closed(g) && Acyclic(g) && NonNegative(d) && g.Keys != {}
    ensures forall p :: |p| >= 1 && Walk(g, p) && p[|p| - 1] in g ==> Weight(d, p) <= CriticalPath(g, d)
    ensures exists p :: |p| >= 1 && Walk(g, p) && p[|p| - 1] in g && Weight(d, p) == CriticalPath(g, d)
  {
    forall p | |p| >= 1 && Walk(g, p) && p[|p| - 1] in g ensures Weight(d, p) <= CriticalPath(g, d) {
      ScoreBoundsWalks(g, d, p);
      BestScoreBounds(g, d, g.Keys, p[|p| - 1]);
    }
    var n := BestScoreAttained(g, d, g.Keys);
    var p := ScoreAttained(g, d, n);
  }

  ghost predicate MemoIsExact(g: Graph, d: Durations, memo: map<Name, real>)
    requires Acyclic(g)
  {
    forall n :: n in memo ==> n in g && memo[n] == Score(g, d, n)
  }

  /** The memoised recursion `score` of `critical_path_priorities`. */
  method MemoScore(g: Graph, d: Durations, memo0: map<Name, real>, n: Name) returns (memo: map<Name, real>)
    requires Acyclic(g) && n in g && NonNegative(d) && MemoIsExact(g, d, memo0)
    ensures MemoIsExact(g, d, memo) && n in memo && memo0.Keys <= memo.Keys
    decreases Above(g, n)
  {
    memo := memo0;
    if n in memo {
      return;
    }
    var best := 0.0;
    var rest := Users(g, n);
    ghost var seen: set<Name> := {};
    while rest != {}
      invariant rest <= Users(g, n) && seen == Users(g, n) - rest
      invariant MemoIsExact(g, d, memo) && memo0.Keys <= memo.Keys
      invariant best >= 0.0 && forall u :: u in seen ==> Score(g, d, u) <= best
      invariant best == 0.0 || exists u :: u in seen && best == Score(g, d, u)
      decreases rest
    {
      var u :| u in rest;
      AboveShrinks(g, n, u);
      memo := MemoScore(g, d, memo, u);
      if memo[u] > best {
        best := memo[u];
      }
      seen := seen + {u};
      rest := rest - {u};
    }
    BestIsUp(g, d, n, best);
    memo := memo[n := Dur(d, n) + best];
  }

  lemma BestIsUp(g: Graph, d: Durations, n: Name, best: real)
    requires Acyclic(g) && NonNegative(d) && best >= 0.0
    requires forall u :: u in Users(g, n) ==> Score(g, d, u) <= best
    requires best == 0.0 || exists u :: u in Users(g, n) && best == Score(g, d, u)
    ensures best == Up(g, d, n)
  {
    BestUserNonNegative(g, d, n, Users(g, n));
    if Users(g, n) != {} {
      var v := BestUserAttained(g, d, n, Users(g, n));
    }
    if best != 0.0 {
      var u :| u in Users(g, n) && best == Score(g, d, u);
      BestUserBounds(g, d, n, Users(g, n), u);
    }
  }

  /** `critical_path_priorities`: every target gets its longest remaining path. */
  method CriticalPathPriorities(g: Graph, d: Durations) returns (p: map<Name, real>)
    requires Acyclic(g) && NonNegative(d)
    ensures p.Keys == g.Keys && forall n :: n in g ==> p[n] == Score(g, d, n)
  {
    p := map[];
    var rest := g.Keys;
    while rest != {}
      invariant rest <= g.Keys && g.Keys - rest <= p.Keys
      invariant MemoIsExact(g, d, p)
      decreases rest
    {
      var n :| n in rest;
      p := MemoScore(g, d, p, n);
      rest := rest - {n};
    }
    assert p.Keys <= g.Keys by {
      forall n | n in p.Keys ensures n in g {}
    }
  }

  // ----- sums over sets ---------------------------------------------------------

  ghost function Sum(d: Durations, s: set<Name>): real {
    if s == {} then 0.0 else var n :| n in s; Dur(d, n) + Sum(d, s - {n})
  }

  lemma {:induction false} SumRemove(d: Durations, s: set<Name>, n: Name)
    requires n in s
    ensures Sum(d, s) == Dur(d, n) + Sum(d, s - {n})
    decreases s
  {
    var m :| m in s && Sum(d, s) == Dur(d, m) + Sum(d, s - {m});
    if m != n {
      SumRemove(d, s - {m}, n);
      SumRemove(d, s - {n}, m);
      assert s - {m} - {n} == s - {n} - {m};
    }
  }

  lemma SumAdd(d: Durations, s: set<Name>, n: Name)
    requires n !in s
    ensures Sum(d, s + {n}) == Dur(d, n) + Sum(d, s)
  {
    SumRemove(d, s + {n}, n);
    assert s + {n} - {n} == s;
  }

  lemma {:induction false} SumShift(a: Durations, b: Durations, s: set<Name>, x: real)
    requires forall n :: n in s ==> Dur(b, n) == Dur(a, n) - x
    ensures Sum(b, s) == Sum(a, s) - Times(|s|, x)
    decreases s
  {
    if s != {} {
      var n :| n in s;
      SumRemove(a, s, n);
      SumRemove(b, s, n);
      SumShift(a, b, s - {n}, x);
      assert |s| == |s - {n}| + 1;
      TimesSucc(|s - {n}|, x);
    }
  }

  lemma {:induction false} SumSame(a: Durations, b: Durations, s: set<Name>)
    requires forall n :: n in s ==> Dur(b, n) == Dur(a, n)
    ensures Sum(b, s) == Sum(a, s)
    decreases s
  {
    if s != {} {
      var n :| n in s;
      SumRemove(a, s, n);
      SumRemove(b, s, n);
      SumSame(a, b, s - {n});
    }
  }

  /** `k` workers for a time `x`. */
  function Times(k: nat, x: real): real {
    k as real * x
  }

  lemma TimesSucc(k: nat, x: real)
    ensures Times(k + 1, x) == Times(k, x) + x
  {
  }

  lemma TimesAdd(k: nat, x: real, y: real)
    ensures Times(k, x + y) == Times(k, x) + Times(k, y)
  {
  }

  lemma ProductNotNegative(a: real, b: real)
    requires a >= 0.0 && b >= 0.0
    ensures a * b >= 0.0
  {
  }

  lemma TimesMonotone(a: nat, b: nat, x: real)
    requires a <= b && x >= 0.0
    ensures Times(a, x) <= Times(b, x)
  {
    ProductNotNegative((b - a) as real, x);
    assert Times(b, x) - Times(a, x) == (b - a) as real * x;
  }

  lemma TimesGrows(k: nat, x: real, y: real)
    requires x <= y
    ensures Times(k, x) <= Times(k, y)
  {
    ProductNotNegative(k as real, y - x);
    assert Times(k, y) - Times(k, x) == k as real * (y - x);
  }

  lemma SumZero(d: Durations)
    ensures Sum(d, {}) == 0.0
  {
  }

  // ----- the timed run ----------------------------------------------------------

  /**
   `left` is the time each running action still needs, `worked` the worker time
   spent so far and `idle` the time during which some worker had nothing to do.
   */
  datatype Timed = Timed(sched: State, clock: real, left: Durations, worked: real, idle: real)

  datatype TimedEvent =
    | Start(i: nat)
    | Finish(n: Name, released: seq<Name>)

  ghost predicate Saturated(jobs: nat, t: Timed) {
    t.sched.ready == [] || |t.sched.running| >= jobs
  }

  /**
   The loop only waits once it has refilled, so time passes only when saturated.
   Actions that end at the same instant come back in one batch: the later ones
   of a batch are handled at once, with no refill in between.
   */
  ghost predicate TimedEnabled(g: Graph, jobs: nat, t: Timed, e: TimedEvent) {
    match e
    case Start(i) => Enabled(g, {}, jobs, t.sched, Submit(i))
    case Finish(n, released) =>
      && (Saturated(jobs, t) || Dur(t.left, n) == 0.0)
      && Enabled(g, {}, jobs, t.sched, Succeed(n, released))
      && forall m :: m in t.sched.running ==> Dur(t.left, n) <= Dur(t.left, m)
  }

  function TimedApply(g: Graph, d: Durations, jobs: nat, t: Timed, e: TimedEvent): Timed {
    match e
    case Start(i) =>
      if i < |t.sched.ready| then
        var n := t.sched.ready[i];
        t.(sched := Apply(g, t.sched, Submit(i)), left := t.left[n := Dur(d, n)])
      else t
    case Finish(n, released) =>
      var dt := Dur(t.left, n);
      Timed(Apply(g, t.sched, Succeed(n, released)),
            t.clock + dt,
            map m | m in t.sched.running && m != n :: Dur(t.left, m) - dt,
            t.worked + Times(|t.sched.running|, dt),
            if |t.sched.running| < jobs then t.idle + dt else t.idle)
  }

  /** Of actions that end at one instant, the next may be handled right after the first, before any refill. */
  lemma BatchContinues(g: Graph, d: Durations, jobs: nat, t: Timed, n: Name, released: seq<Name>, m: Name,
          released': seq<Name>)
    requires TimedEnabled(g, jobs, t, Finish(n, released)) && m in t.sched.running && Dur(t.left, m) == Dur(t.left, n)
    requires t.left.Keys == t.sched.running
    requires Enabled(g, {}, jobs, TimedApply(g, d, jobs, t, Finish(n, released)).sched, Succeed(m, released'))
    ensures TimedEnabled(g, jobs, TimedApply(g, d, jobs, t, Finish(n, released)), Finish(m, released'))
  {
    var next := TimedApply(g, d, jobs, t, Finish(n, released));
    assert m in next.sched.running && next.sched.running == t.sched.running - {n};
    forall x | x in next.sched.running ensures Dur(next.left, m) <= Dur(next.left, x) {
      assert Dur(next.left, x) == Dur(t.left, x) - Dur(t.left, n);
    }
  }

  function TimedAfter(g: Graph, d: Durations, jobs: nat, t: Timed, es: seq<TimedEvent>): Timed {
    if |es| == 0 then t else TimedApply(g, d, jobs, TimedAfter(g, d, jobs, t, es[..|es| - 1]), es[|es| - 1])
  }

  ghost predicate TimedRun(g: Graph, d: Durations, jobs: nat, t: Timed, es: seq<TimedEvent>) {
    |es| == 0 ||
    (TimedRun(g, d, jobs, t, es[..|es| - 1]) &&
     TimedEnabled(g, jobs, TimedAfter(g, d, jobs, t, es[..|es| - 1]), es[|es| - 1]))
  }

  function TimedInit(g: Graph, first: seq<Name>): Timed {
    Timed(Init(g, first), 0.0, map[], 0.0, 0.0)
  }

  // ----- invariant ----------------------------------------------------------------

  ghost predicate WalksBy(g: Graph, d: Durations, n: Name, bound: real) {
    forall p :: |p| >= 1 && Walk(g, p) && p[0] == n ==> Weight(d, p) <= bound
  }

  /** The parts of a timed state that the accounting is about. */
  datatype Account = Account(done: set<Name>, running: set<Name>, left: Durations, clock: real, worked: real,
          idle: real)

  function AccountOf(t: Timed): Account {
    Account(Elems(t.sched.completed), t.sched.running, t.left, t.clock, t.worked, t.idle)
  }

  /** Every chain below a finished action fits in the time elapsed. */
  ghost predicate ChainsFit(g: Graph, d: Durations, a: Account) {
    && (forall n :: n in a.done ==> WalksBy(g, d, n, a.clock))
    && (forall n :: n in a.running ==> WalksBy(g, d, n, a.clock + Dur(a.left, n)))
  }

  ghost predicate WorkIsCounted(d: Durations, a: Account) {
    a.worked == Sum(d, a.done + a.running) - Sum(a.left, a.running)
  }

  /** What an unfinished action still heads, added to the idle time, stays within `cp`. */
  ghost predicate IdleFits(g: Graph, d: Durations, a: Account, cp: real)
    requires Acyclic(g)
  {
    && a.idle <= cp
    && (forall n :: n in a.running ==> Dur(a.left, n) + Up(g, d, n) + a.idle <= cp)
    && (forall n :: n in g && n !in a.running && n !in a.done ==> Score(g, d, n) + a.idle <= cp)
  }

  ghost predicate WorkersAccounted(jobs: nat, a: Account)
    requires jobs >= 1
  {
    && a.worked <= Times(jobs, a.clock)
    && Times(jobs, a.clock) <= a.worked + Times(jobs - 1, a.idle)
  }

  ghost predicate AccountInv(g: Graph, d: Durations, jobs: nat, a: Account)
    requires Acyclic(g) && jobs >= 1
  {
    && a.left.Keys == a.running && NonNegative(a.left) && a.clock >= 0.0
    && a.running !! a.done
    && WorkIsCounted(d, a)
    && ChainsFit(g, d, a)
    && IdleFits(g, d, a, CriticalPath(g, d))
    && WorkersAccounted(jobs, a)
  }

  ghost predicate TimedInv(g: Graph, d: Durations, jobs: nat, t: Timed)
    requires Acyclic(g) && jobs >= 1
  {
    && Inv(g, {}, t.sched) && t.sched.failed == {} && |t.sched.running| <= jobs
    && AccountInv(g, d, jobs, AccountOf(t))
  }

  lemma BestScoreNonNegative(g: Graph, d: Durations, s: set<Name>)
    requires Acyclic(g) && NonNegative(d)
    ensures BestScore(g, d, s) >= 0.0
  {
    if s != {} {
      var n := BestScoreAttained(g, d, s);
      BestUserNonNegative(g, d, n, Users(g, n));
    }
  }

  lemma CriticalPathFits(g: Graph, d: Durations)
    requires Acyclic(g) && NonNegative(d)
    ensures CriticalPath(g, d) >= 0.0 && forall n :: n in g ==> Score(g, d, n) <= CriticalPath(g, d)
  {
    hide Score, BestScore, Acyclic;
    BestScoreNonNegative(g, d, g.Keys);
    forall n | n in g ensures Score(g, d, n) <= CriticalPath(g, d) {
      BestScoreBounds(g, d, g.Keys, n);
    }
  }

  lemma TimedInitInv(g: Graph, d: Durations, jobs: nat, first: seq<Name>)
    requires Acyclic(g) && NonNegative(d) && Enumerates(first, Leaves(g)) && jobs >= 1
    ensures TimedInv(g, d, jobs, TimedInit(g, first))
  {
    hide Score, CriticalPath, Sum, Acyclic, Inv;
    var a := AccountOf(TimedInit(g, first));
    InitInv(g, {}, first);
    var none: seq<Name> := [];
    assert a.done == {} && a.done + {} == {};
    SumZero(d);
    SumZero(a.left);
    CriticalPathFits(g, d);
  }

  // A start: time does not move, one action joins the running ones.

  function Begin(d: Durations, a: Account, n: Name): Account {
    a.(running := a.running + {n}, left := a.left[n := Dur(d, n)])
  }

  lemma BeginWork(d: Durations, a: Account, n: Name)
    requires WorkIsCounted(d, a) && n !in a.running && n !in a.done
    ensures WorkIsCounted(d, Begin(d, a, n))
  {
    var b := Begin(d, a, n);
    SumAdd(d, a.done + a.running, n);
    assert a.done + a.running + {n} == b.done + b.running;
    SumAdd(b.left, a.running, n);
    SumSame(a.left, b.left, a.running);
  }

  lemma BeginWalk(g: Graph, d: Durations, a: Account, n: Name, p: seq<Name>)
    requires ChainsFit(g, d, a) && n in g && g[n] <= a.done && a.clock >= 0.0
    requires |p| >= 1 && Walk(g, p) && p[0] == n
    ensures Weight(d, p) <= a.clock + Dur(d, n)
  {
    if |p| > 1 {
      assert Step(g, p, 0);
      SubWalk(g, p, 1, |p| - 1);
      assert p[1..|p| - 1 + 1] == p[1..];
      assert WalksBy(g, d, p[1], a.clock);
    } else {
      assert p[1..] == [];
    }
  }

  lemma BeginChains(g: Graph, d: Durations, a: Account, n: Name)
    requires ChainsFit(g, d, a) && n in g && g[n] <= a.done && n !in a.running && a.clock >= 0.0
    ensures ChainsFit(g, d, Begin(d, a, n))
  {
    var b := Begin(d, a, n);
    assert WalksBy(g, d, n, a.clock + Dur(d, n)) by {
      forall p | |p| >= 1 && Walk(g, p) && p[0] == n ensures Weight(d, p) <= a.clock + Dur(d, n) {
        BeginWalk(g, d, a, n, p);
      }
    }
    forall m | m in b.running ensures WalksBy(g, d, m, b.clock + Dur(b.left, m)) {
      if m != n {
        assert m in a.running && Dur(b.left, m) == Dur(a.left, m);
      }
    }
  }

  lemma BeginInv(g: Graph, d: Durations, jobs: nat, a: Account, n: Name)
    requires Acyclic(g) && jobs >= 1 && NonNegative(d) && AccountInv(g, d, jobs, a)
    requires n in g && g[n] <= a.done && n !in a.running && n !in a.done
    ensures AccountInv(g, d, jobs, Begin(d, a, n))
  {
    BeginWork(d, a, n);
    BeginChains(g, d, a, n);
    var b := Begin(d, a, n);
    forall m | m in b.running ensures Dur(b.left, m) + Up(g, d, m) + b.idle <= CriticalPath(g, d) {
      if m != n {
        assert m in a.running && Dur(b.left, m) == Dur(a.left, m);
      } else {
        assert Score(g, d, n) == Dur(d, n) + Up(g, d, n);
      }
    }
  }

  // A finish: the clock advances to the earliest completion.

  function Advance(jobs: nat, a: Account, n: Name): Account {
    var dt := Dur(a.left, n);
    Account(a.done + {n}, a.running - {n}, map m | m in a.running && m != n :: Dur(a.left, m) - dt,
            a.clock + dt, a.worked + Times(|a.running|, dt), if |a.running| < jobs then a.idle + dt else a.idle)
  }

  ghost predicate Earliest(a: Account, n: Name) {
    n in a.running && forall m :: m in a.running ==> Dur(a.left, n) <= Dur(a.left, m)
  }

  lemma AdvanceLeft(jobs: nat, a: Account, n: Name)
    requires n in a.running
    ensures var b := Advance(jobs, a, n);
      Sum(b.left, b.running) == Sum(a.left, a.running) - Times(|a.running|, Dur(a.left, n))
  {
    var b, dt := Advance(jobs, a, n), Dur(a.left, n);
    SumRemove(a.left, a.running, n);
    SumShift(a.left, b.left, b.running, dt);
    assert |a.running| == |b.running| + 1;
    TimesSucc(|b.running|, dt);
  }

  lemma AdvanceWork(d: Durations, jobs: nat, a: Account, n: Name)
    requires WorkIsCounted(d, a) && n in a.running
    ensures WorkIsCounted(d, Advance(jobs, a, n))
  {
    AdvanceLeft(jobs, a, n);
    var b := Advance(jobs, a, n);
    assert b.done + b.running == a.done + a.running;
  }

  lemma AdvanceChains(g: Graph, d: Durations, jobs: nat, a: Account, n: Name)
    requires ChainsFit(g, d, a) && n in a.running && Dur(a.left, n) >= 0.0
    ensures ChainsFit(g, d, Advance(jobs, a, n))
  {
    var b := Advance(jobs, a, n);
    forall m | m in b.done ensures WalksBy(g, d, m, b.clock) {
      if m == n {
        assert WalksBy(g, d, n, a.clock + Dur(a.left, n));
      } else {
        assert WalksBy(g, d, m, a.clock);
      }
    }
    forall m | m in b.running ensures WalksBy(g, d, m, b.clock + Dur(b.left, m)) {
      assert WalksBy(g, d, m, a.clock + Dur(a.left, m));
    }
  }

  lemma AdvanceIdle(g: Graph, d: Durations, jobs: nat, a: Account, n: Name, cp: real)
    requires Acyclic(g) && NonNegative(d) && IdleFits(g, d, a, cp) && Earliest(a, n) && Dur(a.left, n) >= 0.0
    requires |a.running| < jobs && Dur(a.left, n) != 0.0 ==>
      forall m :: m in g && m !in a.running && m !in a.done ==> exists r :: r in a.running && StrictReach(g, m, r)
    ensures IdleFits(g, d, Advance(jobs, a, n), cp)
  {
    var b, dt := Advance(jobs, a, n), Dur(a.left, n);
    BestUserNonNegative(g, d, n, Users(g, n));
    forall m | m in b.running ensures Dur(b.left, m) + Up(g, d, m) + b.idle <= cp {
      assert m in a.running && Dur(b.left, m) == Dur(a.left, m) - dt;
    }
    forall m | m in g && m !in b.running && m !in b.done ensures Score(g, d, m) + b.idle <= cp {
      if |a.running| < jobs && dt != 0.0 {
        var r :| r in a.running && StrictReach(g, m, r);
        StrictReachScore(g, d, m, r);
        assert dt <= Dur(a.left, r);
      }
    }
  }

  lemma AdvanceWorkers(jobs: nat, a: Account, n: Name)
    requires jobs >= 1 && WorkersAccounted(jobs, a) && n in a.running && |a.running| <= jobs && Dur(a.left, n) >= 0.0
    ensures WorkersAccounted(jobs, Advance(jobs, a, n))
  {
    var r, dt := |a.running|, Dur(a.left, n);
    TimesAdd(jobs, a.clock, dt);
    TimesMonotone(r, jobs, dt);
    if r < jobs {
      assert r >= 1 by { SubsetSize({n}, a.running); }
      TimesAdd(jobs - 1, a.idle, dt);
      TimesMonotone(1, r, dt);
      TimesSucc(jobs - 1, dt);
    }
  }

  ghost function Unstarted(g: Graph, s: State): set<Name> {
    set n | n in g && n !in s.running && n !in Elems(s.completed)
  }

  ghost function Detached(g: Graph, s: State): set<Name> {
    set n | n in Unstarted(g, s) && forall r :: r in s.running ==> !StrictReach(g, n, r)
  }

  lemma DetachedHasSuccessor(g: Graph, w: map<Name, set<Name>>, s: State, a: Name)
    requires Closed(g) && SetInv(g, {}, w, SetsOf(s)) && s.failed == {} && s.ready == [] && a in Detached(g, s)
    ensures HasSuccessorIn(g, Detached(g, s), a)
  {
    var v := SetsOf(s);
    assert v.ready == {} && v.failed == {};
    assert g[a] * v.failed == {};
    assert a !in v.skipped && a !in v.Started();
    var b :| b in g[a] && b !in v.completed;
    assert Edge(g, a, b);
    EdgeStrict(g, a, b);
    forall r | r in s.running ensures !StrictReach(g, b, r) {
      if StrictReach(g, b, r) {
        StrictTrans(g, a, b, r);
      }
    }
    assert b in Detached(g, s);
  }

  /** With nothing ready, whatever has not started waits for something running. */
  lemma WaitsForRunning(g: Graph, w: map<Name, set<Name>>, s: State, n: Name)
    requires Closed(g) && Acyclic(g) && SetInv(g, {}, w, SetsOf(s)) && s.failed == {} && s.ready == [] &&
        n in Unstarted(g, s)
    ensures exists r :: r in s.running && StrictReach(g, n, r)
  {
    AcyclicIffNoCycleReached(g);
    if n in Detached(g, s) {
      forall a | a in Detached(g, s) ensures HasSuccessorIn(g, Detached(g, s), a) {
        DetachedHasSuccessor(g, w, s, a);
      }
      NoSinkReachesCycle(g, Detached(g, s), n);
    }
  }

  lemma AdvanceInv(g: Graph, d: Durations, jobs: nat, a: Account, n: Name)
    requires Acyclic(g) && NonNegative(d) && jobs >= 1 && AccountInv(g, d, jobs, a)
    requires Earliest(a, n) && |a.running| <= jobs
    requires |a.running| < jobs && Dur(a.left, n) != 0.0 ==>
      forall m :: m in g && m !in a.running && m !in a.done ==> exists r :: r in a.running && StrictReach(g, m, r)
    ensures AccountInv(g, d, jobs, Advance(jobs, a, n))
  {
    AdvanceWork(d, jobs, a, n);
    AdvanceChains(g, d, jobs, a, n);
    AdvanceIdle(g, d, jobs, a, n, CriticalPath(g, d));
    AdvanceWorkers(jobs, a, n);
  }

  lemma TimedStartAccount(g: Graph, d: Durations, jobs: nat, t: Timed, i: nat)
    requires i < |t.sched.ready|
    ensures AccountOf(TimedApply(g, d, jobs, t, Start(i))) == Begin(d, AccountOf(t), t.sched.ready[i])
    ensures TimedApply(g, d, jobs, t, Start(i)).sched == Apply(g, t.sched, Submit(i))
  {
  }

  lemma ReadyFacts(g: Graph, fails: set<Name>, w: map<Name, set<Name>>, v: Sets, n: Name)
    requires SetInv(g, fails, w, v) && n in v.ready
    ensures n in g && g[n] <= v.completed && n !in v.running && n !in v.completed
  {
    assert n in v.Started();
  }

  lemma TimedStart(g: Graph, d: Durations, jobs: nat, t: Timed, i: nat)
    requires Acyclic(g) && NonNegative(d) && jobs >= 1 && TimedInv(g, d, jobs, t)
    requires TimedEnabled(g, jobs, t, Start(i))
    ensures TimedInv(g, d, jobs, TimedApply(g, d, jobs, t, Start(i)))
  {
    var n := t.sched.ready[i];
    assert n in Elems(t.sched.ready);
    ReadyFacts(g, {}, t.sched.waiting, SetsOf(t.sched), n);
    StepInv(g, {}, jobs, t.sched, Submit(i));
    BeginInv(g, d, jobs, AccountOf(t), n);
    TimedStartAccount(g, d, jobs, t, i);
  }

  lemma TimedFinishAccount(g: Graph, d: Durations, jobs: nat, t: Timed, n: Name, released: seq<Name>)
    ensures AccountOf(TimedApply(g, d, jobs, t, Finish(n, released))) == Advance(jobs, AccountOf(t), n)
    ensures TimedApply(g, d, jobs, t, Finish(n, released)).sched == Apply(g, t.sched, Succeed(n, released))
  {
    ElemsAppend(t.sched.completed, [n]);
    assert Elems([n]) == {n};
  }

  lemma IdleMeansWaiting(g: Graph, jobs: nat, t: Timed)
    requires Closed(g) && Acyclic(g) && Inv(g, {}, t.sched) && t.sched.failed == {} && Saturated(jobs, t)
    ensures var a := AccountOf(t);
      |a.running| < jobs ==>
        forall m :: m in g && m !in a.running && m !in a.done ==> exists r :: r in a.running && StrictReach(g, m, r)
  {
    var a := AccountOf(t);
    if |a.running| < jobs {
      forall m | m in g && m !in a.running && m !in a.done ensures exists r :: r in a.running && StrictReach(g, m, r) {
        WaitsForRunning(g, t.sched.waiting, t.sched, m);
      }
    }
  }

  lemma TimedFinish(g: Graph, d: Durations, jobs: nat, t: Timed, n: Name, released: seq<Name>)
    requires Closed(g) && Acyclic(g) && NonNegative(d) && jobs >= 1 && TimedInv(g, d, jobs, t)
    requires TimedEnabled(g, jobs, t, Finish(n, released))
    ensures TimedInv(g, d, jobs, TimedApply(g, d, jobs, t, Finish(n, released)))
  {
    StepInv(g, {}, jobs, t.sched, Succeed(n, released));
    TimedFinishAccount(g, d, jobs, t, n, released);
    if Saturated(jobs, t) {
      IdleMeansWaiting(g, jobs, t);
    }
    AdvanceInv(g, d, jobs, AccountOf(t), n);
  }

  lemma {:induction false} TimedRunInv(g: Graph, d: Durations, jobs: nat, first: seq<Name>, es: seq<TimedEvent>)
    requires Closed(g) && Acyclic(g) && NonNegative(d) && jobs >= 1 && Enumerates(first, Leaves(g))
    requires TimedRun(g, d, jobs, TimedInit(g, first), es)
    ensures TimedInv(g, d, jobs, TimedAfter(g, d, jobs, TimedInit(g, first), es))
    decreases |es|
  {
    if |es| == 0 {
      TimedInitInv(g, d, jobs, first);
    } else {
      var before := es[..|es| - 1];
      TimedRunInv(g, d, jobs, first, before);
      var t := TimedAfter(g, d, jobs, TimedInit(g, first), before);
      match es[|es| - 1]
      case Start(i) => TimedStart(g, d, jobs, t, i);
      case Finish(n, released) => TimedFinish(g, d, jobs, t, n, released);
    }
  }

  lemma {:induction false} SoonestExists(left: Durations, s: set<Name>) returns (n: Name)
    requires s != {}
    ensures n in s && forall m :: m in s ==> Dur(left, n) <= Dur(left, m)
  {
    n :| n in s;
    var rest := s - {n};
    assert forall x :: x in s ==> x == n || x in rest;
    if rest != {} {
      var m := SoonestExists(left, rest);
      n := if Dur(left, m) < Dur(left, n) then m else n;
    }
  }

  /** No timed run gets stuck: until everything has finished, the loop can start an action or time can pass. */
  lemma TimedProgress(g: Graph, d: Durations, jobs: nat, first: seq<Name>, es: seq<TimedEvent>, t: Timed)
      returns (e: TimedEvent)
    requires Closed(g) && Acyclic(g) && NonNegative(d) && jobs >= 1 && Enumerates(first, Leaves(g))
    requires TimedRun(g, d, jobs, TimedInit(g, first), es)
    requires t == TimedAfter(g, d, jobs, TimedInit(g, first), es) && !Finished(t.sched)
    ensures TimedEnabled(g, jobs, t, e)
  {
    TimedRunInv(g, d, jobs, first, es);
    if t.sched.ready != [] && |t.sched.running| < jobs {
      e := Start(0);
    } else {
      assert t.sched.running != {};
      var n := SoonestExists(t.left, t.sched.running);
      var released := Enumeration(Released(g, t.sched, n));
      e := Finish(n, released);
    }
  }

  /** The scheduler's event behind a timed one. */
  function Untimed(e: TimedEvent): Event {
    match e
    case Start(i) => Submit(i)
    case Finish(n, released) => Succeed(n, released)
  }

  function UntimedAll(es: seq<TimedEvent>): (r: seq<Event>)
    ensures |r| == |es|
  {
    if es == [] then [] else UntimedAll(es[..|es| - 1]) + [Untimed(es[|es| - 1])]
  }

  /** A timed run is a run of the step system with a clock. */
  lemma {:induction false} TimedIsRun(g: Graph, d: Durations, jobs: nat, first: seq<Name>, es: seq<TimedEvent>)
    requires TimedRun(g, d, jobs, TimedInit(g, first), es)
    ensures ValidRun(g, {}, jobs, Init(g, first), UntimedAll(es))
    ensures TimedAfter(g, d, jobs, TimedInit(g, first), es).sched == After(g, Init(g, first), UntimedAll(es))
    decreases |es|
  {
    if es != [] {
      var before := es[..|es| - 1];
      TimedIsRun(g, d, jobs, first, before);
      assert UntimedAll(es)[..|es| - 1] == UntimedAll(before);
    }
  }

  lemma StartedFit(g: Graph, s: State)
    requires Inv(g, {}, s)
    ensures |s.running| + |s.completed| <= |g.Keys|
  {
    var v := SetsOf(s);
    SubsetSize(v.running + v.completed, g.Keys);
    NoDupCard(s.completed);
    assert |v.running + v.completed| == |v.running| + |v.completed|;
  }

  /** Every timed run can be continued to a finished one: the bound below speaks about all of them. */
  lemma {:induction false} TimedCanFinish(g: Graph, d: Durations, jobs: nat, first: seq<Name>, es: seq<TimedEvent>)
      returns (all: seq<TimedEvent>)
    requires Closed(g) && Acyclic(g) && NonNegative(d) && jobs >= 1 && Enumerates(first, Leaves(g))
    requires TimedRun(g, d, jobs, TimedInit(g, first), es)
    ensures es <= all && TimedRun(g, d, jobs, TimedInit(g, first), all)
    ensures Finished(TimedAfter(g, d, jobs, TimedInit(g, first), all).sched)
    decreases ToDo(g, TimedAfter(g, d, jobs, TimedInit(g, first), es))
  {
    var t := TimedAfter(g, d, jobs, TimedInit(g, first), es);
    if Finished(t.sched) {
      all := es;
    } else {
      hide TimedAfter, TimedApply, TimedRun, TimedEnabled, TimedInit, Inv, Acyclic, Closed, NonNegative, Enumerates;
      var e := TimedProgress(g, d, jobs, first, es, t);
      var more := es + [e];
      TimedNext(g, d, jobs, first, es, e);
      TimedStateInv(g, d, jobs, first, es);
      TimedStateInv(g, d, jobs, first, more);
      EventCounts(g, d, jobs, t, e);
      hide ToDo;
      all := TimedCanFinish(g, d, jobs, first, more);
      PrefixOfPrefix(es, more, all);
    }
  }

  /** The events still to come. */
  function ToDo(g: Graph, t: Timed): int {
    2 * |g.Keys| - |t.sched.running| - 2 * |t.sched.completed|
  }

  lemma PrefixOfPrefix<T>(a: seq<T>, b: seq<T>, c: seq<T>)
    requires a <= b <= c
    ensures a <= c
  {
  }

  lemma TimedNext(g: Graph, d: Durations, jobs: nat, first: seq<Name>, es: seq<TimedEvent>, e: TimedEvent)
    requires TimedRun(g, d, jobs, TimedInit(g, first), es)
    requires TimedEnabled(g, jobs, TimedAfter(g, d, jobs, TimedInit(g, first), es), e)
    ensures TimedRun(g, d, jobs, TimedInit(g, first), es + [e])
    ensures TimedAfter(g, d, jobs, TimedInit(g, first), es + [e]) ==
      TimedApply(g, d, jobs, TimedAfter(g, d, jobs, TimedInit(g, first), es), e)
  {
    var more := es + [e];
    assert more[..|more| - 1] == es && more[|more| - 1] == e;
  }

  lemma TimedStateInv(g: Graph, d: Durations, jobs: nat, first: seq<Name>, es: seq<TimedEvent>)
    requires Closed(g) && Acyclic(g) && NonNegative(d) && jobs >= 1 && Enumerates(first, Leaves(g))
    requires TimedRun(g, d, jobs, TimedInit(g, first), es)
    ensures Inv(g, {}, TimedAfter(g, d, jobs, TimedInit(g, first), es).sched)
  {
    TimedRunInv(g, d, jobs, first, es);
  }

  lemma EventCounts(g: Graph, d: Durations, jobs: nat, t: Timed, e: TimedEvent)
    requires Inv(g, {}, t.sched) && TimedEnabled(g, jobs, t, e)
    ensures 0 <= ToDo(g, t) && ToDo(g, TimedApply(g, d, jobs, t, e)) == ToDo(g, t) - 1
  {
    hide Inv, TimedApply, Released, Discharge, Enumerates, AccountOf, Begin, Advance;
    StartedFit(g, t.sched);
    match e {
      case Start(i) =>
        ReadyIsNotRunning(g, t.sched, i);
        TimedStartAccount(g, d, jobs, t, i);
        assert |t.sched.running + {t.sched.ready[i]}| == |t.sched.running| + 1;
      case Finish(n, released) =>
        TimedFinishAccount(g, d, jobs, t, n, released);
        assert |t.sched.running - {n}| == |t.sched.running| - 1;
    }
  }

  lemma ReadyIsNotRunning(g: Graph, s: State, i: nat)
    requires Inv(g, {}, s) && i < |s.ready|
    ensures s.ready[i] !in s.running
  {
    assert s.ready[i] in SetsOf(s).ready && SetsOf(s).ready !! SetsOf(s).running;
  }

  /** A chain of dependencies cannot finish before its own total duration. */
  lemma MakespanCoversCriticalPath(g: Graph, d: Durations, a: Account)
    requires Closed(g) && Acyclic(g) && NonNegative(d) && ChainsFit(g, d, a) && a.done == g.Keys && a.clock >= 0.0
    ensures a.clock >= CriticalPath(g, d)
  {
    if g.Keys != {} {
      CriticalPathIsLongest(g, d);
      var p :| |p| >= 1 && Walk(g, p) && p[|p| - 1] in g && Weight(d, p) == CriticalPath(g, d);
      if |p| > 1 {
        assert Step(g, p, 0);
      }
      assert WalksBy(g, d, p[0], a.clock);
    }
  }

  lemma AcyclicRunCompletes(g: Graph, s: State)
    requires Closed(g) && Acyclic(g) && Inv(g, {}, s) && Finished(s)
    ensures Elems(s.completed) == g.Keys
  {
    FinishedOutcome(g, {}, s);
    AcyclicPartition(g, {});
    assert FailedSet(g, {}) == {};
    assert Blocked(g, {}) == {};
  }

  /**
   The list-scheduling bound.  Whatever ready target the policy prefers, and
   however many actions end at one instant before the next refill, a finished
   run of the greedy loop on `jobs` workers takes a time T with
   T >= critical path, jobs * T >= work and
   jobs * T <= work + (jobs - 1) * critical path.
   */
  lemma ListSchedulingBound(g: Graph, d: Durations, jobs: nat, first: seq<Name>, es: seq<TimedEvent>, t: Timed)
    requires Closed(g) && Acyclic(g) && NonNegative(d) && jobs >= 1 && Enumerates(first, Leaves(g))
    requires TimedRun(g, d, jobs, TimedInit(g, first), es)
    requires t == TimedAfter(g, d, jobs, TimedInit(g, first), es) && Finished(t.sched)
    ensures t.clock >= CriticalPath(g, d)
    ensures Times(jobs, t.clock) >= Sum(d, g.Keys)
    ensures Times(jobs, t.clock) <= Sum(d, g.Keys) + Times(jobs - 1, CriticalPath(g, d))
  {
    TimedRunInv(g, d, jobs, first, es);
    AcyclicRunCompletes(g, t.sched);
    FinishedAccount(g, d, jobs, AccountOf(t));
  }

  lemma FinishedAccount(g: Graph, d: Durations, jobs: nat, a: Account)
    requires Closed(g) && Acyclic(g) && NonNegative(d) && jobs >= 1 && AccountInv(g, d, jobs, a)
    requires a.done == g.Keys && a.running == {}
    ensures a.clock >= CriticalPath(g, d)
    ensures Times(jobs, a.clock) >= Sum(d, g.Keys)
    ensures Times(jobs, a.clock) <= Sum(d, g.Keys) + Times(jobs - 1, CriticalPath(g, d))
  {
    assert a.done + a.running == g.Keys;
    SumZero(a.left);
    MakespanCoversCriticalPath(g, d, a);
    TimesGrows(jobs - 1, a.idle, CriticalPath(g, d));
  }
}
