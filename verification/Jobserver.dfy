/**
 The token pipe of a make jobserver shared by several frost processes: the lease
 each of them takes, and the tokens over every interleaving of their steps.
 The protocol is section 13.1.1, "POSIX Jobserver Interaction", of the GNU make manual.
 */
module Jobserver {
  import opened Numbers

  // ----- one lease -----------------------------------------------------------------------

  /** A pipe of one-byte tokens; either end may be unusable for this process. */
  class TokenPipe {
    var tokens: nat
    const readable: bool
    const writable: bool

    constructor (tokens: nat, readable: bool, writable: bool)
      ensures this.tokens == tokens && this.readable == readable && this.writable == writable
    {
      this.tokens, this.readable, this.writable := tokens, readable, writable;
    }
  }

  /** `borrow_pipe_tokens`: single-byte reads that stop at the limit, when reading would block, or on an error. */
  method BorrowPipeTokens(pipe: TokenPipe, limit: int) returns (borrowed: nat)
    modifies pipe
    ensures borrowed == if pipe.readable then Min(Max(0, limit), old(pipe.tokens)) else 0
    ensures pipe.tokens + borrowed == old(pipe.tokens)
  {
    if limit <= 0 {
      return 0;
    }
    borrowed := 0;
    if !pipe.readable {
      return;
    }
    while borrowed < limit
      invariant borrowed <= limit && pipe.tokens + borrowed == old(pipe.tokens)
    {
      if pipe.tokens == 0 {
        break;
      }
      pipe.tokens := pipe.tokens - 1;
      borrowed := borrowed + 1;
    }
  }

  /** What `MAKEFLAGS` names: no jobserver, one that cannot be parsed, or a pipe or fifo (which may fail to open). */
  datatype Auth = NoAuth | Malformed | Descriptors(pipe: TokenPipe) | Fifo(pipe: TokenPipe, opens: bool)

  datatype Mode = Disabled | Client

  class JobserverLease {
    const mode: Mode
    const effectiveJobs: nat
    const borrowedTokens: nat
    const pipe: TokenPipe?

    ghost predicate Valid(requested: int) {
      && (mode == Client <==> pipe != null)
      && (mode == Disabled ==> borrowedTokens == 0 && effectiveJobs == Max(1, requested))
      && (mode == Client ==> effectiveJobs == 1 + borrowedTokens <= Max(1, requested))
    }

    constructor Off(requested: int)
      ensures Valid(requested) && mode == Disabled
    {
      mode, effectiveJobs, borrowedTokens, pipe := Disabled, Max(1, requested), 0, null;
    }

    constructor Borrow(requested: int, pipe: TokenPipe)
      modifies pipe
      ensures Valid(requested) && mode == Client && this.pipe == pipe
      ensures pipe.tokens + borrowedTokens == old(pipe.tokens)
      ensures pipe.readable ==> effectiveJobs == Max(1, requested) || pipe.tokens == 0
    {
      var wanted := Max(1, requested);
      var borrowed := BorrowPipeTokens(pipe, Max(0, wanted - 1));
      mode, borrowedTokens, this.pipe := Client, borrowed, pipe;
      effectiveJobs := Max(1, Min(wanted, 1 + borrowed));
    }

    /** `close`: every borrowed token goes back, unless the write fails. */
    method Close()
      modifies if pipe != null then {pipe} else {}
      ensures pipe != null ==> pipe.tokens == old(pipe.tokens) + if pipe.writable then borrowedTokens else 0
    {
      if borrowedTokens > 0 && pipe != null {
        if pipe.writable {
          pipe.tokens := pipe.tokens + borrowedTokens;
        }
      }
    }
  }

  /**
   `from_environment`: without a usable jobserver the lease is the whole request, otherwise one job
   plus what it could borrow.
   */
  method FromEnvironment(requested: int, auth: Auth) returns (lease: JobserverLease)
    modifies if auth.Descriptors? || auth.Fifo? then {auth.pipe} else {}
    ensures lease.Valid(requested)
    ensures lease.mode == Client <==> auth.Descriptors? || (auth.Fifo? && auth.opens)
    ensures lease.mode == Client ==>
              lease.pipe == auth.pipe && auth.pipe.tokens + lease.borrowedTokens == old(auth.pipe.tokens)
    ensures auth.Fifo? && !auth.opens ==> auth.pipe.tokens == old(auth.pipe.tokens)
  {
    if auth.Descriptors? || (auth.Fifo? && auth.opens) {
      lease := new JobserverLease.Borrow(requested, auth.pipe);
    } else {
      lease := new JobserverLease.Off(requested);
    }
  }

  // ----- many clients ------------------------------------------------------------------------

  /** `Borrowing` is inside `borrow_pipe_tokens`, `Building` inside the worker pool, `Closed` after `close`. */
  datatype Phase = Borrowing | Building | Closed

  datatype Process = Process(requested: nat, borrowed: nat, phase: Phase, running: nat)

  /** `tokens` lie in the pipe and `lost` were not written back; processes are numbered in order of arrival. */
  datatype State = State(tokens: nat, lost: nat, processes: seq<Process>)

  /** The server of `-j n` writes `n - 1` tokens. */
  function Serve(n: nat): State {
    State(Max(1, n) - 1, 0, [])
  }

  datatype Event =
    | Join(jobs: int)
    | Take(id: nat)
    | Stop(id: nat)
    | Start(id: nat)
    | Finish(id: nat)
    | Close(id: nat, written: bool)

  function EffectiveJobs(p: Process): nat {
    Max(1, Min(p.requested, 1 + p.borrowed))
  }

  predicate Enabled(s: State, e: Event) {
    match e
    case Join(_) => true
    case Take(id) =>
      id < |s.processes| && s.processes[id].phase == Borrowing && s.tokens > 0
      && s.processes[id].borrowed < Max(0, s.processes[id].requested - 1)
    case Stop(id) => id < |s.processes| && s.processes[id].phase == Borrowing
    case Start(id) =>
      id < |s.processes| && s.processes[id].phase == Building &&
          s.processes[id].running < EffectiveJobs(s.processes[id])
    case Finish(id) => id < |s.processes| && s.processes[id].phase == Building && s.processes[id].running > 0
    case Close(id, _) => id < |s.processes| && s.processes[id].phase == Building && s.processes[id].running == 0
  }

  function Next(s: State, e: Event): State
    requires Enabled(s, e)
  {
    match e
    case Join(jobs) => s.(processes := s.processes + [Process(Max(1, jobs), 0, Borrowing, 0)])
    case Take(id) =>
      var p := s.processes[id];
      s.(tokens := s.tokens - 1, processes := s.processes[id := p.(borrowed := p.borrowed + 1)])
    case Stop(id) => s.(processes := s.processes[id := s.processes[id].(phase := Building)])
    case Start(id) =>
      var p := s.processes[id];
      s.(processes := s.processes[id := p.(running := p.running + 1)])
    case Finish(id) =>
      var p := s.processes[id];
      s.(processes := s.processes[id := p.(running := p.running - 1)])
    case Close(id, written) =>
      var p := s.processes[id];
      s.(tokens := s.tokens + (if written then p.borrowed else 0),
         lost := s.lost + (if written then 0 else p.borrowed),
         processes := s.processes[id := p.(phase := Closed)])
  }

  ghost predicate IsRun(s: State, events: seq<Event>)
    decreases |events|
  {
    events != [] ==> Enabled(s, events[0]) && IsRun(Next(s, events[0]), events[1..])
  }

  ghost function After(s: State, events: seq<Event>): State
    requires IsRun(s, events)
    decreases |events|
  {
    if events == [] then s else After(Next(s, events[0]), events[1..])
  }

  /** Total of a measure over the processes. */
  function Total(ps: seq<Process>, f: Process -> nat): nat {
    if ps == [] then 0 else f(ps[0]) + Total(ps[1..], f)
  }

  const LIVE: Process -> nat := (p: Process) => if p.phase == Closed then 0 else 1
  const BORROWED: Process -> nat := (p: Process) => if p.phase == Closed then 0 else p.borrowed
  const RUNNING: Process -> nat := (p: Process) => p.running

  lemma {:induction false} TotalAppend(ps: seq<Process>, p: Process, f: Process -> nat)
    ensures Total(ps + [p], f) == Total(ps, f) + f(p)
  {
    if ps == [] {
      assert ps + [p] == [p];
    } else {
      assert (ps + [p])[1..] == ps[1..] + [p];
      TotalAppend(ps[1..], p, f);
    }
  }

  lemma {:induction false} TotalUpdate(ps: seq<Process>, i: nat, p: Process, f: Process -> nat)
    requires i < |ps|
    ensures Total(ps[i := p], f) + f(ps[i]) == Total(ps, f) + f(p)
  {
    if i == 0 {
      assert ps[i := p][1..] == ps[1..];
    } else {
      assert ps[i := p][1..] == ps[1..][i - 1 := p];
      TotalUpdate(ps[1..], i - 1, p, f);
    }
  }

  /**
   What a lease promises: jobs are one plus the borrowed tokens, never more than asked for; a closed
   one runs nothing.
   */
  predicate LeaseKept(p: Process) {
    && p.borrowed + 1 <= p.requested
    && EffectiveJobs(p) == 1 + p.borrowed
    && p.running <= EffectiveJobs(p)
    && (p.phase != Building ==> p.running == 0)
  }

  ghost predicate Inv(n: nat, s: State) {
    && s.tokens + Total(s.processes, BORROWED) + s.lost == Max(1, n) - 1
    && forall i :: 0 <= i < |s.processes| ==> LeaseKept(s.processes[i])
  }

  /** Replacing one process by another changes a total by the difference of the two. */
  lemma StepTotal(s: State, e: Event, f: Process -> nat)
    requires Enabled(s, e)
    ensures var t := Next(s, e).processes;
            if e.Join? then Total(t, f) == Total(s.processes, f) + f(t[|s.processes|])
            else Total(t, f) + f(s.processes[e.id]) == Total(s.processes, f) + f(t[e.id])
  {
    if e.Join? {
      TotalAppend(s.processes, Process(Max(1, e.jobs), 0, Borrowing, 0), f);
    } else {
      TotalUpdate(s.processes, e.id, Next(s, e).processes[e.id], f);
    }
  }

  lemma StepLease(s: State, e: Event, i: nat)
    requires Enabled(s, e) && i < |Next(s, e).processes|
    requires forall k :: 0 <= k < |s.processes| ==> LeaseKept(s.processes[k])
    ensures LeaseKept(Next(s, e).processes[i])
  {
    if i < |s.processes| {
      assert LeaseKept(s.processes[i]);
    }
  }

  lemma {:induction false} StepInv(n: nat, s: State, e: Event)
    requires Inv(n, s) && Enabled(s, e)
    ensures Inv(n, Next(s, e))
  {
    StepTotal(s, e, BORROWED);
    forall i | 0 <= i < |Next(s, e).processes| ensures LeaseKept(Next(s, e).processes[i]) {
      StepLease(s, e, i);
    }
    hide Total, LeaseKept;
  }

  lemma {:induction false} RunInv(n: nat, s: State, events: seq<Event>)
    requires Inv(n, s) && IsRun(s, events)
    ensures Inv(n, After(s, events))
    decreases |events|
  {
    if events != [] {
      StepInv(n, s, events[0]);
      RunInv(n, Next(s, events[0]), events[1..]);
    }
  }

  lemma {:induction false} RunningBound(ps: seq<Process>)
    requires forall i :: 0 <= i < |ps| ==> LeaseKept(ps[i])
    ensures Total(ps, RUNNING) <= Total(ps, LIVE) + Total(ps, BORROWED)
  {
    if ps != [] {
      assert LeaseKept(ps[0]);
      RunningBound(ps[1..]);
    }
  }

  /**
   Whatever the interleaving: tokens are neither made nor forgotten, except
   those a failed write lost, and the running actions never outnumber the
   server's tokens plus one per live process.
   */
  lemma {:induction false} TokensConserved(n: nat, events: seq<Event>)
    requires IsRun(Serve(n), events)
    ensures var s := After(Serve(n), events);
            && s.tokens + Total(s.processes, BORROWED) + s.lost == Max(1, n) - 1
            && Total(s.processes, RUNNING) <= Max(1, n) - 1 + Total(s.processes, LIVE)
            && (forall i :: 0 <= i < |s.processes| ==> LeaseKept(s.processes[i]))
  {
    RunInv(n, Serve(n), events);
    RunningBound(After(Serve(n), events).processes);
  }

  ghost predicate AllClosed(s: State) {
    forall i :: 0 <= i < |s.processes| ==> s.processes[i].phase == Closed
  }

  lemma {:induction false} ClosedHoldNothing(ps: seq<Process>)
    requires forall i :: 0 <= i < |ps| ==> ps[i].phase == Closed
    ensures Total(ps, BORROWED) == 0 && Total(ps, LIVE) == 0
  {
    if ps != [] {
      ClosedHoldNothing(ps[1..]);
    }
  }

  ghost predicate AllWritten(events: seq<Event>) {
    forall i :: 0 <= i < |events| && events[i].Close? ==> events[i].written
  }

  /** Only a failed write at `close` loses tokens. */
  lemma {:induction false} LostOnlyByWrites(s: State, events: seq<Event>)
    requires IsRun(s, events)
    ensures s.lost <= After(s, events).lost
    ensures AllWritten(events) ==> After(s, events).lost == s.lost
    decreases |events|
  {
    if events != [] {
      LostOnlyByWrites(Next(s, events[0]), events[1..]);
      assert AllWritten(events) ==> AllWritten(events[1..]);
    }
  }

  /** Once every process has closed its lease the server has all its tokens back, if every write got through. */
  lemma {:induction false} TokensComeBack(n: nat, events: seq<Event>)
    requires IsRun(Serve(n), events) && AllClosed(After(Serve(n), events))
    ensures After(Serve(n), events).tokens + After(Serve(n), events).lost == Max(1, n) - 1
    ensures AllWritten(events) ==> After(Serve(n), events).tokens == Max(1, n) - 1
  {
    TokensConserved(n, events);
    ClosedHoldNothing(After(Serve(n), events).processes);
    LostOnlyByWrites(Serve(n), events);
  }

  /** `borrow_pipe_tokens` without interference is a run of `Take` steps: as many as the limit and the pipe allow. */
  lemma {:induction false} BorrowIsRun(s: State, id: nat, k: nat)
    requires id < |s.processes| && s.processes[id].phase == Borrowing && k <= s.tokens
    requires s.processes[id].borrowed + k <= Max(0, s.processes[id].requested - 1)
    ensures var p := s.processes[id]; var takes := seq(k, _ => Take(id));
            && IsRun(s, takes)
            && After(s, takes) == s.(tokens := s.tokens - k,
                processes := s.processes[id := p.(borrowed := p.borrowed + k)])
    decreases k
  {
    var takes := seq(k, _ => Take(id));
    if k > 0 {
      assert takes[0] == Take(id) && takes[1..] == seq(k - 1, _ => Take(id));
      BorrowIsRun(Next(s, Take(id)), id, k - 1);
    }
  }

  /** No process waits for another: with or without tokens it may always run one action. */
  lemma NeverStarved(n: nat, events: seq<Event>, id: nat)
    requires IsRun(Serve(n), events) && id < |After(Serve(n), events).processes|
    requires var p := After(Serve(n), events).processes[id]; p.phase == Building && p.running == 0
    ensures Enabled(After(Serve(n), events), Start(id))
  {
    TokensConserved(n, events);
  }
}
