/**
 The byte totals of the DeltaCDC measurement, and what every charge keeps.
 */
module DeltaTotals {
  import opened BaseSelection
  import opened DeltaChunks
  import opened DeltaStore
  import opened DeltaTransfer
  import opened Numbers
  import opened Wrappers

  // ----- the totals ----------------------------------------------------------------------------------------

  datatype Totals = Totals(
    raw: nat, zstd: nat, cdc: nat, cdcZstd: nat,
    blobDelta: map<nat, nat>, deltaCdc: map<Plan, nat>,
    residualChunks: nat, residualBytes: nat,
    selFound: map<Selector, nat>, selNone: map<Selector, nat>,
    exactChunkHits: nat, exactBlobHits: nat, misses: nat, oneChunkMisses: nat,
    fallbacks: map<Plan, nat>)

  /** One entry per selector and engine. */
  ghost predicate Tabled(tot: Totals, engines: nat) {
    && (forall s: Selector :: s in tot.selFound && s in tot.selNone)
    && (forall e :: e in tot.blobDelta <==> 0 <= e < engines)
    && (forall p: Plan :: p in tot.deltaCdc <==> p.1 < engines)
    && (forall p: Plan :: p in tot.fallbacks <==> p.1 < engines)
  }

  /** No scheme transfers more than the one it improves on, and every residual chunk is accounted for. */
  ghost predicate Ordering(tot: Totals) {
    && tot.cdc == tot.residualBytes <= tot.raw
    && (forall e :: e in tot.blobDelta ==> tot.blobDelta[e] <= tot.raw)
    && (forall p :: p in tot.deltaCdc ==> tot.deltaCdc[p] <= tot.cdcZstd)
    && (forall p :: p in tot.fallbacks ==> tot.fallbacks[p] <= tot.residualChunks)
    && (forall s :: s in tot.selFound && s in tot.selNone ==> tot.selFound[s] + tot.selNone[s] == tot.residualChunks)
    && tot.oneChunkMisses <= tot.misses
  }

  lemma PlanCases(e: nat)
    ensures forall p: Plan :: p.1 == e ==> p in {(Pos, e), (Sk, e), (Hy, e)}
  {
    forall p: Plan | p.1 == e ensures p in {(Pos, e), (Sk, e), (Hy, e)} {
      match p.0 {
        case Pos => assert p == (Pos, e);
        case Sk => assert p == (Sk, e);
        case Hy => assert p == (Hy, e);
      }
    }
  }

  function ZeroPlans(engines: nat): (r: map<Plan, nat>)
    ensures forall p: Plan :: p in r <==> p.1 < engines
    ensures forall p :: p in r ==> r[p] == 0
  {
    if engines == 0 then map[]
    else
      var e := engines - 1;
      PlanCases(e);
      ZeroPlans(e)[(Pos, e) := 0][(Sk, e) := 0][(Hy, e) := 0]
  }

  lemma EverySelector<T>(m: map<Selector, T>)
    requires Pos in m && Sk in m && Hy in m
    ensures forall s: Selector :: s in m
  {
    forall s: Selector ensures s in m {
      match s {
        case Pos => assert s in m;
        case Sk => assert s in m;
        case Hy => assert s in m;
      }
    }
  }

  function ZeroSelectors(): (r: map<Selector, nat>)
    ensures forall s: Selector :: s in r && r[s] == 0
  {
    var r := map[Pos := 0, Sk := 0, Hy := 0];
    EverySelector(r);
    r
  }

  function ZeroEngines(engines: nat): (r: map<nat, nat>)
    ensures forall e :: e in r <==> 0 <= e < engines
    ensures forall e :: e in r ==> r[e] == 0
  {
    if engines == 0 then map[] else ZeroEngines(engines - 1)[engines - 1 := 0]
  }

  function One(b: bool): nat {
    if b then 1 else 0
  }

  /** What one residual chunk adds. */
  ghost function Charge(t: Tools, h: Held, tot: Totals, c: ChunkRef): Totals
    requires Tabled(tot, |t.engines|) && c.length > 0
  {
    tot.(cdcZstd := tot.cdcZstd + |t.z.compress(c.Data())|,
         deltaCdc := map p | p in tot.deltaCdc :: tot.deltaCdc[p] + Size(Send(t, h, p, c)),
         fallbacks := map p | p in tot.fallbacks :: tot.fallbacks[p] + One(Send(t, h, p, c).Whole?),
         selFound := map s | s in tot.selFound :: tot.selFound[s] + One(Candidate(h, s, c).Some?),
         selNone := map s | s in tot.selNone :: tot.selNone[s] + One(Candidate(h, s, c).None?))
  }

  ghost function ChargeAll(t: Tools, h: Held, tot: Totals, chunks: seq<ChunkRef>): (r: Totals)
    requires Tabled(tot, |t.engines|) && forall c :: c in chunks ==> c.length > 0
    ensures Tabled(r, |t.engines|)
  {
    if chunks == [] then tot
    else Charge(t, h, ChargeAll(t, h, tot, chunks[..|chunks| - 1]), chunks[|chunks| - 1])
  }

  /** What sending a chunk whole costs. */
  function WholeCost(t: Tools): ChunkRef -> nat {
    (c: ChunkRef) => |t.z.compress(c.Data())|
  }

  /** What a plan pays for a chunk: the smaller of its delta, if there is a base for one, and the whole chunk. */
  function PlanCost(t: Tools, h: Held, p: Plan, c: ChunkRef): nat
    requires p.1 < |t.engines|
  {
    var full := |t.z.compress(c.Data())|;
    match if c.length > 0 then Candidate(h, p.0, c) else None
    case None => full
    case Some(b) => Min(|t.engines[p.1].diff(b.Data(), c.Data())|, full)
  }

  /** Whether a plan falls back on the whole chunk: no base, or a delta that saves nothing. */
  predicate FallsBack(t: Tools, h: Held, p: Plan, c: ChunkRef)
    requires p.1 < |t.engines|
  {
    match if c.length > 0 then Candidate(h, p.0, c) else None
    case None => true
    case Some(b) => |t.engines[p.1].diff(b.Data(), c.Data())| >= |t.z.compress(c.Data())|
  }

  function PlanCosts(t: Tools, h: Held, p: Plan): ChunkRef -> nat
    requires p.1 < |t.engines|
  {
    (c: ChunkRef) => PlanCost(t, h, p, c)
  }

  function Fallbacks(t: Tools, h: Held, p: Plan): ChunkRef -> nat
    requires p.1 < |t.engines|
  {
    (c: ChunkRef) => One(FallsBack(t, h, p, c))
  }

  function Finds(h: Held, s: Selector): ChunkRef -> nat {
    (c: ChunkRef) => One(c.length > 0 && Candidate(h, s, c).Some?)
  }

  /** `b` is `a` after an artifact of these bytes and chunks: its bytes, its hits and its whole-artifact deltas. */
  ghost predicate PaysForArtifact(t: Tools, prev: Option<Bytes>, a: Totals, b: Totals, data: Bytes, chunks: nat,
          residual: seq<ChunkRef>)
    requires Tabled(a, |t.engines|) && Tabled(b, |t.engines|)
  {
    && b.misses == a.misses + 1 && b.exactBlobHits == a.exactBlobHits
    && b.oneChunkMisses == a.oneChunkMisses + (if chunks == 1 then 1 else 0)
    && b.raw == a.raw + |data| && b.zstd == a.zstd + |t.z.compress(data)|
    && b.residualChunks == a.residualChunks + |residual|
    && b.exactChunkHits + b.residualChunks == a.exactChunkHits + a.residualChunks + chunks
    && b.residualBytes == a.residualBytes + Sum(residual, LENGTH) && b.cdc == a.cdc + Sum(residual, LENGTH)
    && forall e :: 0 <= e < |t.engines| ==>
      b.blobDelta[e]
      == a.blobDelta[e] + if prev.Some? then Min(|t.engines[e].diff(prev.value, data)|, |data|) else |data|
  }

  /** What these chunks cost under one plan. */
  ghost predicate PaysUnder(t: Tools, h: Held, p: Plan, a: Totals, b: Totals, chunks: seq<ChunkRef>)
    requires p.1 < |t.engines| && Tabled(a, |t.engines|) && Tabled(b, |t.engines|)
  {
    && b.deltaCdc[p] == a.deltaCdc[p] + Sum(chunks, PlanCosts(t, h, p))
    && b.fallbacks[p] == a.fallbacks[p] + Sum(chunks, Fallbacks(t, h, p))
    && b.selFound[p.0] == a.selFound[p.0] + Sum(chunks, Finds(h, p.0))
  }

  /** `b` is `a` after these chunks: what they cost whole and under every plan. */
  ghost predicate PaysForChunks(t: Tools, h: Held, a: Totals, b: Totals, chunks: seq<ChunkRef>)
    requires Tabled(a, |t.engines|) && Tabled(b, |t.engines|)
  {
    && b.cdcZstd == a.cdcZstd + Sum(chunks, WholeCost(t))
    && forall p: Plan :: p.1 < |t.engines| ==> PaysUnder(t, h, p, a, b, chunks)
  }

  /** The charges of an artifact, exactly: every total grows by the sum of the costs over its residual chunks. */
  lemma {:induction false} ChargesAreSums(t: Tools, h: Held, tot: Totals, chunks: seq<ChunkRef>)
    requires Tabled(tot, |t.engines|) && forall c :: c in chunks ==> c.length > 0
    ensures PaysForChunks(t, h, tot, ChargeAll(t, h, tot, chunks), chunks)
  {
    if chunks == [] {
      assert forall f :: Sum(chunks, f) == 0;
    } else {
      hide PaysForChunks, Charge, Sum, Tabled;
      var most := chunks[..|chunks| - 1];
      ChargesAreSums(t, h, tot, most);
      PaysForOneMore(t, h, tot, ChargeAll(t, h, tot, most), chunks);
    }
  }

  lemma PaysForOneMore(t: Tools, h: Held, tot: Totals, mid: Totals, chunks: seq<ChunkRef>)
    requires Tabled(tot, |t.engines|) && Tabled(mid, |t.engines|) && chunks != []
    requires PaysForChunks(t, h, tot, mid, chunks[..|chunks| - 1]) && chunks[|chunks| - 1].length > 0
    ensures var r := Charge(t, h, mid, chunks[|chunks| - 1]);
      Tabled(r, |t.engines|) && PaysForChunks(t, h, tot, r, chunks)
  {
    hide Sum, Send, Tabled, PaysUnder;
    var r := Charge(t, h, mid, chunks[|chunks| - 1]);
    ChargeKeepsTables(t, h, mid, chunks[|chunks| - 1]);
    SumLast(chunks, WholeCost(t));
    forall p: Plan | p.1 < |t.engines| ensures PaysUnder(t, h, p, tot, r, chunks) {
      PaysUnderOneMore(t, h, p, tot, mid, chunks);
    }
  }

  lemma ChargeKeepsTables(t: Tools, h: Held, tot: Totals, c: ChunkRef)
    requires Tabled(tot, |t.engines|) && c.length > 0
    ensures Tabled(Charge(t, h, tot, c), |t.engines|)
  {
  }

  lemma PaysUnderOneMore(t: Tools, h: Held, p: Plan, tot: Totals, mid: Totals, chunks: seq<ChunkRef>)
    requires p.1 < |t.engines| && Tabled(tot, |t.engines|) && Tabled(mid, |t.engines|) && chunks != []
    requires PaysUnder(t, h, p, tot, mid, chunks[..|chunks| - 1]) && chunks[|chunks| - 1].length > 0
    ensures Tabled(Charge(t, h, mid, chunks[|chunks| - 1]), |t.engines|)
    ensures PaysUnder(t, h, p, tot, Charge(t, h, mid, chunks[|chunks| - 1]), chunks)
  {
    hide Sum, Candidate, Send, ChunkRef.Data;
    ChargeKeepsTables(t, h, mid, chunks[|chunks| - 1]);
    assert p in mid.deltaCdc && p in mid.fallbacks && p.0 in mid.selFound;
    hide Tabled;
    SumLast(chunks, PlanCosts(t, h, p));
    SumLast(chunks, Fallbacks(t, h, p));
    SumLast(chunks, Finds(h, p.0));
    SendIs(t, h, p, chunks[|chunks| - 1]);
  }

  lemma SumLast(chunks: seq<ChunkRef>, f: ChunkRef -> nat)
    requires chunks != []
    ensures Sum(chunks, f) == Sum(chunks[..|chunks| - 1], f) + f(chunks[|chunks| - 1])
  {}

  /** `b` is `a` with `n` residual chunks charged: a plan never pays more for a chunk than sending all of it. */
  ghost predicate ChargedWith(a: Totals, b: Totals, n: nat) {
    && b == a.(cdcZstd := b.cdcZstd, deltaCdc := b.deltaCdc, fallbacks := b.fallbacks,
               selFound := b.selFound, selNone := b.selNone)
    && a.deltaCdc.Keys == b.deltaCdc.Keys && a.fallbacks.Keys == b.fallbacks.Keys
    && a.selFound.Keys == b.selFound.Keys && a.selNone.Keys == b.selNone.Keys
    && (forall p :: p in a.deltaCdc ==> b.deltaCdc[p] - a.deltaCdc[p] <= b.cdcZstd - a.cdcZstd)
    && (forall p :: p in a.fallbacks ==> b.fallbacks[p] <= a.fallbacks[p] + n)
    && (forall s :: s in a.selFound && s in a.selNone ==>
          b.selFound[s] + b.selNone[s] == a.selFound[s] + a.selNone[s] + n)
  }

  lemma SendIsNoLarger(t: Tools, h: Held, plan: Plan, c: ChunkRef)
    requires plan.1 < |t.engines|
    ensures Size(Send(t, h, plan, c)) <= |t.z.compress(c.Data())|
  {}

  lemma ChargeEffect(t: Tools, h: Held, tot: Totals, c: ChunkRef)
    requires Tabled(tot, |t.engines|) && c.length > 0
    ensures ChargedWith(tot, Charge(t, h, tot, c), 1)
  {
    hide Send, Candidate;
    forall p: Plan | p.1 < |t.engines| ensures Size(Send(t, h, p, c)) <= |t.z.compress(c.Data())| {
      SendIsNoLarger(t, h, p, c);
    }
  }

  lemma ChargedTwice(a: Totals, b: Totals, c: Totals, n: nat, m: nat)
    requires ChargedWith(a, b, n) && ChargedWith(b, c, m)
    ensures ChargedWith(a, c, n + m)
  {
    forall p | p in a.deltaCdc ensures c.deltaCdc[p] - a.deltaCdc[p] <= c.cdcZstd - a.cdcZstd {
      assert p in b.deltaCdc;
    }
    forall p | p in a.fallbacks ensures c.fallbacks[p] <= a.fallbacks[p] + (n + m) {
      assert p in b.fallbacks;
    }
    forall s | s in a.selFound && s in a.selNone
      ensures c.selFound[s] + c.selNone[s] == a.selFound[s] + a.selNone[s] + (n + m)
    {
      assert s in b.selFound && s in b.selNone;
    }
  }

  lemma {:induction false} ChargeAllEffect(t: Tools, h: Held, tot: Totals, chunks: seq<ChunkRef>)
    requires Tabled(tot, |t.engines|) && forall c :: c in chunks ==> c.length > 0
    ensures ChargedWith(tot, ChargeAll(t, h, tot, chunks), |chunks|)
  {
    hide Charge, ChargedWith, Tabled;
    if chunks == [] {
      ChargedNothing(tot);
    } else {
      var most := chunks[..|chunks| - 1];
      var mid := ChargeAll(t, h, tot, most);
      ChargeAllEffect(t, h, tot, most);
      ChargeEffect(t, h, mid, chunks[|chunks| - 1]);
      ChargedTwice(tot, mid, ChargeAll(t, h, tot, chunks), |most|, 1);
    }
  }

  lemma ChargedNothing(tot: Totals)
    ensures ChargedWith(tot, tot, 0)
  {}

  // ----- an artifact the client does not have ------------------------------------------------------------------

  ghost function BlobDeltaSize(e: Engine, prev: Option<Bytes>, data: Bytes): nat {
    if prev.None? then |data| else Min(|e.diff(prev.value, data)|, |data|)
  }

  /** The totals before the residual chunks are charged. */
  ghost function Arrived(t: Tools, cas: Store, prev: Option<Bytes>, tot: Totals, data: Bytes,
          chunks: seq<ChunkRef>): Totals
    requires Tabled(tot, |t.engines|)
  {
    ResidualIsPart(cas, chunks);
    var residual := Residual(cas, chunks);
    var bytes := Sum(residual, LENGTH);
    tot.(misses := tot.misses + 1,
         oneChunkMisses := tot.oneChunkMisses + One(|chunks| == 1),
         raw := tot.raw + |data|,
         zstd := tot.zstd + |t.z.compress(data)|,
         exactChunkHits := tot.exactChunkHits + (|chunks| - |residual|),
         residualChunks := tot.residualChunks + |residual|,
         residualBytes := tot.residualBytes + bytes,
         cdc := tot.cdc + bytes,
         blobDelta := map e | e in tot.blobDelta :: tot.blobDelta[e] + BlobDeltaSize(t.engines[e], prev, data))
  }

  ghost function Missed(t: Tools, h: Held, prev: Option<Bytes>, tot: Totals, data: Bytes, chunks: seq<ChunkRef>): Totals
    requires Tabled(tot, |t.engines|) && forall c :: c in chunks ==> c.length > 0
  {
    ChargeAll(t, h, Arrived(t, h.cas, prev, tot, data, chunks), Residual(h.cas, chunks))
  }

  /**
   What an artifact the client lacks adds to the totals, exactly: its bytes raw and compressed, once; its chunks as
   hits or residual; the residual bytes; a delta against the whole previous version, if that is smaller; and the
   costs of the residual chunks under every plan.
   */
  lemma MissedIsExact(t: Tools, h: Held, prev: Option<Bytes>, tot: Totals, data: Bytes, chunks: seq<ChunkRef>)
    requires Tabled(tot, |t.engines|) && forall c :: c in chunks ==> c.length > 0
    ensures var r, residual := Missed(t, h, prev, tot, data, chunks), Residual(h.cas, chunks);
      && Tabled(r, |t.engines|) && PaysForArtifact(t, prev, tot, r, data, |chunks|, residual)
      && PaysForChunks(t, h, tot, r, residual)
  {
    hide Sum, Residual, ChargeAll, ChargedWith;
    var mid, residual := Arrived(t, h.cas, prev, tot, data, chunks), Residual(h.cas, chunks);
    ResidualIsPart(h.cas, chunks);
    ArrivedPays(t, h.cas, prev, tot, data, chunks);
    hide PaysForChunks, PaysForArtifact, Tabled, Arrived;
    ChargesAreSums(t, h, mid, residual);
    ChargeAllEffect(t, h, mid, residual);
    PaysStill(t, prev, tot, mid, ChargeAll(t, h, mid, residual), data, |chunks|, residual);
    PaysFrom(t, h, tot, mid, ChargeAll(t, h, mid, residual), residual);
  }

  lemma ArrivedPays(t: Tools, cas: Store, prev: Option<Bytes>, tot: Totals, data: Bytes, chunks: seq<ChunkRef>)
    requires Tabled(tot, |t.engines|)
    ensures var mid := Arrived(t, cas, prev, tot, data, chunks);
      && Tabled(mid, |t.engines|) && PaysForArtifact(t, prev, tot, mid, data, |chunks|, Residual(cas, chunks))
      && mid.cdcZstd == tot.cdcZstd && mid.deltaCdc == tot.deltaCdc && mid.fallbacks == tot.fallbacks
      && mid.selFound == tot.selFound
  {
    hide Sum, Residual;
  }

  /** What the artifact pays is not touched by charging its chunks. */
  lemma PaysStill(t: Tools, prev: Option<Bytes>, a: Totals, mid: Totals, b: Totals, data: Bytes, chunks: nat,
          residual: seq<ChunkRef>)
    requires Tabled(a, |t.engines|) && Tabled(mid, |t.engines|) && Tabled(b, |t.engines|)
    requires PaysForArtifact(t, prev, a, mid, data, chunks, residual) && ChargedWith(mid, b, |residual|)
    ensures PaysForArtifact(t, prev, a, b, data, chunks, residual)
  {
    hide Sum;
    assert b.blobDelta == mid.blobDelta;
  }

  /** Charging starts from what it was before the artifact was counted. */
  lemma PaysFrom(t: Tools, h: Held, a: Totals, mid: Totals, b: Totals, residual: seq<ChunkRef>)
    requires Tabled(a, |t.engines|) && Tabled(mid, |t.engines|) && Tabled(b, |t.engines|)
    requires PaysForChunks(t, h, mid, b, residual)
    requires mid.cdcZstd == a.cdcZstd && mid.deltaCdc == a.deltaCdc && mid.fallbacks == a.fallbacks
    requires mid.selFound == a.selFound
    ensures PaysForChunks(t, h, a, b, residual)
  {
    hide Sum, PlanCosts, Fallbacks, Finds, WholeCost, Tabled;
    forall p: Plan | p.1 < |t.engines| ensures PaysUnder(t, h, p, a, b, residual) {
      assert PaysUnder(t, h, p, mid, b, residual);
    }
  }

  /** `mid` is `tot` with an artifact of `n` residual chunks counted but not yet charged. */
  ghost predicate Counting(tot: Totals, mid: Totals, n: nat) {
    && mid.deltaCdc == tot.deltaCdc && mid.fallbacks == tot.fallbacks && mid.cdcZstd == tot.cdcZstd
    && mid.selFound == tot.selFound && mid.selNone == tot.selNone
    && mid.residualChunks == tot.residualChunks + n
    && mid.cdc == mid.residualBytes <= mid.raw && mid.oneChunkMisses <= mid.misses
    && (forall e :: e in mid.blobDelta ==> mid.blobDelta[e] <= mid.raw)
  }

  lemma OrderingKept(tot: Totals, mid: Totals, b: Totals, n: nat)
    requires Ordering(tot) && Counting(tot, mid, n) && ChargedWith(mid, b, n)
    ensures Ordering(b)
  {
    forall p | p in b.deltaCdc ensures b.deltaCdc[p] <= b.cdcZstd {
      assert p in tot.deltaCdc;
    }
    forall p | p in b.fallbacks ensures b.fallbacks[p] <= b.residualChunks {
      assert p in tot.fallbacks;
    }
  }

  lemma ArrivedCounts(t: Tools, cas: Store, prev: Option<Bytes>, tot: Totals, data: Bytes, chunks: seq<ChunkRef>)
    requires Tabled(tot, |t.engines|) && Ordering(tot) && Sum(chunks, LENGTH) == |data|
    ensures var mid := Arrived(t, cas, prev, tot, data, chunks);
            Tabled(mid, |t.engines|) && Counting(tot, mid, |Residual(cas, chunks)|) && mid.misses == tot.misses + 1
  {
    ResidualIsPart(cas, chunks);
    hide Sum, Residual;
  }

  lemma MissedKeepsOrdering(t: Tools, h: Held, prev: Option<Bytes>, tot: Totals, data: Bytes, chunks: seq<ChunkRef>)
    requires Tabled(tot, |t.engines|) && Ordering(tot) && Sum(chunks, LENGTH) == |data|
    requires forall c :: c in chunks ==> c.length > 0
    ensures var r := Missed(t, h, prev, tot, data, chunks);
            Tabled(r, |t.engines|) && Ordering(r) && r.misses == tot.misses + 1 && r.exactBlobHits == tot.exactBlobHits
  {
    hide ChargeAll, Sum, Residual, Tabled, Ordering, Counting;
    var mid := Arrived(t, h.cas, prev, tot, data, chunks);
    var residual := Residual(h.cas, chunks);
    ArrivedCounts(t, h.cas, prev, tot, data, chunks);
    ChargeAllEffect(t, h, mid, residual);
    OrderingKept(tot, mid, ChargeAll(t, h, mid, residual), |residual|);
  }

  // ----- the steps of charging one chunk --------------------------------------------------------------------------

  function Rank(s: Selector): nat {
    match s
    case Pos => 0
    case Sk => 1
    case Hy => 2
  }

  /** When the loops over engines and selectors come to a plan. */
  function Turn(p: Plan): nat {
    3 * p.1 + Rank(p.0)
  }

  /** The selectors whose turn has come have one more if they did find a base (or, for `found == false`, did not). */
  ghost predicate Bumped(cands: map<Selector, Option<ChunkRef>>, found: bool,
                         a: map<Selector, nat>, b: map<Selector, nat>, n: nat)
    requires forall s: Selector :: s in cands
  {
    && (forall s: Selector :: s in a && s in b)
    && (forall s: Selector :: b[s] == a[s] + if Rank(s) < n then One(cands[s].Some? == found) else 0)
  }

  lemma BumpedNone(cands: map<Selector, Option<ChunkRef>>, found: bool, a: map<Selector, nat>)
    requires forall s: Selector :: s in cands && s in a
    ensures Bumped(cands, found, a, a, 0)
  {}

  lemma BumpedOneMore(cands: map<Selector, Option<ChunkRef>>, found: bool, a: map<Selector, nat>, b: map<Selector, nat>,
                      s: Selector)
    requires forall s: Selector :: s in cands
    requires Bumped(cands, found, a, b, Rank(s))
    ensures s in b && Bumped(cands, found, a, if cands[s].Some? == found then b[s := b[s] + 1] else b, Rank(s) + 1)
  {
    forall r: Selector ensures Rank(r) == Rank(s) ==> r == s {}
  }

  lemma BumpedAll(cands: map<Selector, Option<ChunkRef>>, found: bool, a: map<Selector, nat>, b: map<Selector, nat>)
    requires forall s: Selector :: s in cands
    requires Bumped(cands, found, a, b, 3)
    ensures forall s: Selector :: s in b
    ensures b == map s | s in a :: a[s] + One(cands[s].Some? == found)
  {
    forall s: Selector ensures Rank(s) < 3 {}
  }

  ghost predicate Counted(cands: map<Selector, Option<ChunkRef>>,
                          selFound: map<Selector, nat>, selNone: map<Selector, nat>,
                          found: map<Selector, nat>, none: map<Selector, nat>)
    requires forall s: Selector :: s in cands
  {
    && found == (map s | s in selFound :: selFound[s] + One(cands[s].Some?))
    && none == (map s | s in selNone :: selNone[s] + One(cands[s].None?))
  }

  /** The count of which selectors found a base. */
  method CountSelections(cands: map<Selector, Option<ChunkRef>>,
                         selFound: map<Selector, nat>, selNone: map<Selector, nat>)
    returns (found: map<Selector, nat>, none: map<Selector, nat>)
    requires forall s: Selector :: s in cands && s in selFound && s in selNone
    ensures Counted(cands, selFound, selNone, found, none)
  {
    hide Bumped;
    found, none := selFound, selNone;
    BumpedNone(cands, true, found);
    BumpedNone(cands, false, none);
    var k := 0;
    while k < |SELECTORS|
      invariant 0 <= k <= |SELECTORS|
      invariant Bumped(cands, true, selFound, found, k) && Bumped(cands, false, selNone, none, k)
    {
      var s := SELECTORS[k];
      BumpedOneMore(cands, true, selFound, found, s);
      BumpedOneMore(cands, false, selNone, none, s);
      if cands[s].None? {
        none := none[s := none[s] + 1];
      } else {
        found := found[s := found[s] + 1];
      }
      k := k + 1;
    }
    BumpedAll(cands, true, selFound, found);
    BumpedAll(cands, false, selNone, none);
  }

  lemma CountedTables(tot: Totals, engines: nat, cands: map<Selector, Option<ChunkRef>>, found: map<Selector, nat>,
                      none: map<Selector, nat>)
    requires Tabled(tot, engines) && forall s: Selector :: s in cands
    requires Counted(cands, tot.selFound, tot.selNone, found, none)
    ensures Tabled(tot.(selFound := found, selNone := none), engines)
  {}

  ghost predicate ChargedUpTo(t: Tools, h: Held, c: ChunkRef, a: Totals, b: Totals, n: nat)
    requires Tabled(a, |t.engines|)
  {
    && b == a.(deltaCdc := b.deltaCdc, fallbacks := b.fallbacks)
    && b.deltaCdc.Keys == a.deltaCdc.Keys && b.fallbacks.Keys == a.fallbacks.Keys
    && (forall p :: p in a.deltaCdc ==>
          b.deltaCdc[p] == a.deltaCdc[p] + if Turn(p) < n then Size(Send(t, h, p, c)) else 0)
    && (forall p :: p in a.fallbacks ==>
          b.fallbacks[p] == a.fallbacks[p] + if Turn(p) < n then One(Send(t, h, p, c).Whole?) else 0)
  }

  /** Every delta on record is the one its engine produces. */
  ghost predicate CacheRight(t: Tools, c: ChunkRef, cache: map<(nat, Digest), nat>) {
    forall k :: k in cache ==> k.0 < |t.engines| && cache[k] == |t.engines[k.0].diff(k.1.data, c.Data())|
  }

  lemma DeltaPatches(t: Tools, e: nat, base: Bytes, c: ChunkRef)
    requires Sound(t) && e < |t.engines| && c.Addressed()
    ensures Sha(t.engines[e].patch(base, t.engines[e].diff(base, c.Data()))) == c.digest
  {
    assert Patches(t.engines[e]);
  }

  lemma WholeArrives(t: Tools, c: ChunkRef)
    requires Sound(t) && c.Addressed()
    ensures Sha(t.z.decompress(t.z.compress(c.Data()))) == c.digest
  {}

  lemma EveryTable(tot: Totals, engines: nat)
    requires Tabled(tot, engines)
    ensures forall s: Selector :: s in tot.selFound && s in tot.selNone
  {}

  lemma StartCharging(t: Tools, tot: Totals, full: nat)
    requires Tabled(tot, |t.engines|)
    ensures Tabled(tot.(cdcZstd := tot.cdcZstd + full), |t.engines|)
  {}

  lemma SizedTarget(h: Held, c: ChunkRef)
    requires Consistent(h) && c.Addressed()
    ensures c.length > 0 && Indexed(h.index, h.cas)
  {}

  lemma CandidatesAre(h: Held, c: ChunkRef, cands: map<Selector, Option<ChunkRef>>)
    requires c.length > 0
    requires cands == map[Pos := Candidate(h, Pos, c), Sk := Candidate(h, Sk, c), Hy := Candidate(h, Hy, c)]
    ensures forall s: Selector :: s in cands && cands[s] == Candidate(h, s, c)
  {
    EverySelector(cands);
    forall s: Selector ensures cands[s] == Candidate(h, s, c) {
      match s {
        case Pos => assert cands[s] == Candidate(h, Pos, c);
        case Sk => assert cands[s] == Candidate(h, Sk, c);
        case Hy => assert cands[s] == Candidate(h, Hy, c);
      }
    }
  }

  lemma ChargedNone(t: Tools, h: Held, c: ChunkRef, a: Totals)
    requires Tabled(a, |t.engines|)
    ensures ChargedUpTo(t, h, c, a, a, 0) && CacheRight(t, c, map[])
  {}

  lemma TurnIsUnique(p: Plan, q: Plan)
    ensures Turn(p) == Turn(q) ==> p == q
  {}

  /** What `Send` transfers, as the loop finds it out. */
  lemma SendIs(t: Tools, h: Held, p: Plan, c: ChunkRef)
    requires p.1 < |t.engines| && c.length > 0
    ensures var b, full, m := Candidate(h, p.0, c), |t.z.compress(c.Data())|, Send(t, h, p, c);
            && (b.None? ==> m.Whole? && Size(m) == full)
            && (b.Some? ==> var size := |t.engines[p.1].diff(b.value.Data(), c.Data())|;
                            Size(m) == Min(size, full) && (m.Whole? <==> size >= full))
  {}

  lemma ChargedOneMore(t: Tools, h: Held, c: ChunkRef, start: Totals, now: Totals, p: Plan)
    requires Tabled(start, |t.engines|) && Tabled(now, |t.engines|)
    requires p.1 < |t.engines| && ChargedUpTo(t, h, c, start, now, Turn(p))
    ensures p in now.deltaCdc && p in now.fallbacks
    ensures var next := now.(deltaCdc := now.deltaCdc[p := now.deltaCdc[p] + Size(Send(t, h, p, c))],
                             fallbacks := now.fallbacks[p := now.fallbacks[p] + One(Send(t, h, p, c).Whole?)]);
            Tabled(next, |t.engines|) && ChargedUpTo(t, h, c, start, next, Turn(p) + 1)
  {
    hide Send;
    forall q: Plan ensures Turn(q) == Turn(p) ==> q == p {
      TurnIsUnique(p, q);
    }
  }

  /** After the last turn every plan is charged. */
  lemma ChargedMaps(t: Tools, h: Held, c: ChunkRef, a: Totals, b: Totals)
    requires Tabled(a, |t.engines|) && ChargedUpTo(t, h, c, a, b, 3 * |t.engines|)
    ensures b.deltaCdc == map p | p in a.deltaCdc :: a.deltaCdc[p] + Size(Send(t, h, p, c))
    ensures b.fallbacks == map p | p in a.fallbacks :: a.fallbacks[p] + One(Send(t, h, p, c).Whole?)
  {
    hide Send;
    forall p: Plan | p.1 < |t.engines| ensures Turn(p) < 3 * |t.engines| {}
  }

  lemma CountedMaps(h: Held, c: ChunkRef, cands: map<Selector, Option<ChunkRef>>, a: Totals, b: Totals)
    requires c.length > 0 && forall s: Selector :: s in cands && cands[s] == Candidate(h, s, c)
    requires Counted(cands, a.selFound, a.selNone, b.selFound, b.selNone)
    ensures b.selFound == map s | s in a.selFound :: a.selFound[s] + One(Candidate(h, s, c).Some?)
    ensures b.selNone == map s | s in a.selNone :: a.selNone[s] + One(Candidate(h, s, c).None?)
  {
    hide Candidate;
  }

  lemma ChargedAll(t: Tools, h: Held, c: ChunkRef, cands: map<Selector, Option<ChunkRef>>,
                   a: Totals, first: Totals, counted: Totals, b: Totals)
    requires c.length > 0 && forall s: Selector :: s in cands && cands[s] == Candidate(h, s, c)
    requires Tabled(a, |t.engines|) && Tabled(counted, |t.engines|)
    requires first == a.(cdcZstd := a.cdcZstd + |t.z.compress(c.Data())|)
    requires counted == first.(selFound := counted.selFound, selNone := counted.selNone)
    requires Counted(cands, first.selFound, first.selNone, counted.selFound, counted.selNone)
    requires ChargedUpTo(t, h, c, counted, b, 3 * |t.engines|)
    ensures b == Charge(t, h, a, c)
  {
    hide Send, Candidate, Tabled;
    ChargedMaps(t, h, c, counted, b);
    CountedMaps(h, c, cands, first, counted);
  }
}
