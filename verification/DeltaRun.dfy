/**
 `run` of the DeltaCDC measurement: the variables of the loop over artifacts.
 */
module DeltaRun {
  import opened BaseSelection
  import opened DeltaChunks
  import opened DeltaStore
  import opened DeltaTotals
  import opened DeltaTransfer
  import opened FastCdc
  import opened Numbers
  import opened Wrappers

  // ----- the run -----------------------------------------------------------------------------------------------

  class Measurement {
    const setup: Setup
    const tools: Tools
    const chunker: FastCdcChunker
    const sub: FastCdcChunker
    var casBlobs: set<Digest>
    var casChunks: Store
    var sketchIndex: Index
    var prevBlob: map<Name, Bytes>
    var prevChunks: map<Name, seq<ChunkRef>>
    var tot: Totals
    /** The artifacts processed so far. */
    ghost var history: seq<Version>

    ghost predicate Equipped() {
      && Ready(setup) && Sound(tools)
      && chunker.Valid() && chunker.c == setup.chunks && sub.Valid() && sub.c == setup.sub
    }

    ghost predicate Valid()
      reads this
    {
      && Equipped()
      && Records(setup, history, casBlobs, casChunks, sketchIndex, prevBlob, prevChunks)
      && Tabled(tot, |tools.engines|) && Ordering(tot)
      && tot.misses == |casBlobs| && tot.misses + tot.exactBlobHits == |history|
    }

    constructor (chunker: FastCdcChunker, sub: FastCdcChunker, hash: Bytes -> nat, tools: Tools)
      requires chunker.Valid() && sub.Valid() && Sound(tools)
      requires Ready(Setup(chunker.c, sub.c, hash))
      ensures Valid() && history == [] && this.tools == tools && setup == Setup(chunker.c, sub.c, hash)
    {
      this.setup := Setup(chunker.c, sub.c, hash);
      this.tools := tools;
      this.chunker := chunker;
      this.sub := sub;
      casBlobs, casChunks, sketchIndex, prevBlob, prevChunks := {}, map[], map[], map[], map[];
      var zero := ZeroPlans(|tools.engines|);
      var none := ZeroSelectors();
      tot := Totals(0, 0, 0, 0, ZeroEngines(|tools.engines|), zero, 0, 0, none, none, 0, 0, 0, 0, zero);
      history := [];
    }

    /** `blob_features` */
    method SubFeatures(data: Bytes) returns (feats: seq<(nat, nat)>)
      requires Equipped()
      ensures feats == BlobFeatures(setup, data)
    {
      hide Spans;
      var spans := sub.Chunk(data);
      SpansInRange(setup.sub, data);
      feats := [];
      var i := 0;
      while i < |spans|
        invariant 0 <= i <= |spans|
        invariant feats == BlobFeatures(setup, data)[..i]
      {
        var (off, ln) := spans[i];
        feats := feats + [(off, setup.hash(data[off..off + ln]))];
        i := i + 1;
      }
    }

    /** The chunk list of an artifact, features included. */
    method ChunkList(name: Name, data: Bytes) returns (chunks: seq<ChunkRef>)
      requires Equipped()
      ensures chunks == ChunksOf(setup, name, data)
    {
      hide Spans, BlobFeatures, ChunkFeatures, FastCdcChunker.Valid, Tables, Ordered, ChunkRef.Addressed;
      var spans := chunker.Chunk(data);
      SpansInRange(setup.chunks, data);
      var feats := SubFeatures(data);
      chunks := [];
      var i := 0;
      while i < |spans|
        invariant 0 <= i <= |spans|
        invariant chunks == ChunksOf(setup, name, data)[..i]
      {
        var (off, ln) := spans[i];
        var features := ChunkFeatures(feats, off, off + ln);
        chunks := chunks + [ChunkRef(Sha(data[off..off + ln]), name, data, i, off, ln, features)];
        assert chunks[i] == ChunkAt(setup, name, data, i);
        i := i + 1;
      }
    }

    /** The last loop of an iteration: the artifact's chunks enter the store and the index. */
    method Commit(chunks: seq<ChunkRef>)
      requires Indexed(sketchIndex, casChunks)
      modifies this`casChunks, this`sketchIndex
      ensures casChunks == AddAll(old(casChunks), chunks) && Indexed(sketchIndex, casChunks)
    {
      hide Indexed;
      var i := 0;
      while i < |chunks|
        invariant 0 <= i <= |chunks|
        invariant casChunks == AddAll(old(casChunks), chunks[..i]) && Indexed(sketchIndex, casChunks)
      {
        var c := chunks[i];
        assert chunks[..i + 1][..i] == chunks[..i];
        if c.digest !in casChunks {
          sketchIndex := ListFeatures(sketchIndex, casChunks, c);
          casChunks := casChunks[c.digest := c];
        }
        i := i + 1;
      }
      assert chunks[..i] == chunks;
    }

    /** One plan's share of a residual chunk; `cache` holds the deltas already measured for it. */
    method ChargePlan(c: ChunkRef, b: Option<ChunkRef>, full: nat, s: Selector, e: nat, cache: map<(nat, Digest), nat>,
                      ghost h: Held, ghost start: Totals)
      returns (cache': map<(nat, Digest), nat>)
      requires Sound(tools) && e < |tools.engines| && Tabled(tot, |tools.engines|)
      requires Consistent(h) && c.Addressed() && b == Candidate(h, s, c) && full == |tools.z.compress(c.Data())|
      requires CacheRight(tools, c, cache)
      requires Tabled(start, |tools.engines|) && ChargedUpTo(tools, h, c, start, tot, Turn((s, e)))
      modifies this`tot
      ensures Tabled(tot, |tools.engines|) && ChargedUpTo(tools, h, c, start, tot, Turn((s, e)) + 1)
      ensures CacheRight(tools, c, cache')
    {
      hide ChargedUpTo, Candidate, Send, Sound, Consistent, Tabled;
      cache' := cache;
      var charged, fallback := full, true;
      SendIs(tools, h, (s, e), c);
      if b.Some? {
        BasesAreHeld(h, s, c);
        var size: nat;
        if (e, b.value.digest) in cache {
          size := cache[(e, b.value.digest)];
        } else {
          DeltaPatches(tools, e, b.value.Data(), c);
          var measured := BestDelta(tools.engines[e], b.value.Data(), c.Data(), c.digest);
          size := measured.value;
          cache' := cache[(e, b.value.digest) := size];
        }
        if size < full {
          charged, fallback := size, false;
        }
      }
      ChargedOneMore(tools, h, c, start, tot, (s, e));
      tot := tot.(deltaCdc := tot.deltaCdc[(s, e) := tot.deltaCdc[(s, e)] + charged],
                  fallbacks := tot.fallbacks[(s, e) := tot.fallbacks[(s, e)] + One(fallback)]);
    }

    /** Every engine with every selector, in turn. */
    method ChargePlans(c: ChunkRef, cands: map<Selector, Option<ChunkRef>>, full: nat, ghost h: Held)
      requires Sound(tools) && Tabled(tot, |tools.engines|) && Consistent(h) && c.Addressed()
      requires forall s: Selector :: s in cands && cands[s] == Candidate(h, s, c)
      requires full == |tools.z.compress(c.Data())|
      modifies this`tot
      ensures Tabled(tot, |tools.engines|) && ChargedUpTo(tools, h, c, old(tot), tot, 3 * |tools.engines|)
    {
      hide ChargedUpTo, Tabled, Consistent, ChunkRef.Data, CacheRight, Sound, Candidate;
      ghost var start := tot;
      var cache: map<(nat, Digest), nat> := map[];
      ChargedNone(tools, h, c, tot);
      var e := 0;
      while e < |tools.engines|
        invariant 0 <= e <= |tools.engines| && Tabled(tot, |tools.engines|)
        invariant ChargedUpTo(tools, h, c, start, tot, 3 * e) && CacheRight(tools, c, cache)
      {
        var k := 0;
        while k < |SELECTORS|
          invariant 0 <= k <= |SELECTORS| && Tabled(tot, |tools.engines|)
          invariant ChargedUpTo(tools, h, c, start, tot, 3 * e + k) && CacheRight(tools, c, cache)
        {
          cache := ChargePlan(c, cands[SELECTORS[k]], full, SELECTORS[k], e, cache, h, start);
          k := k + 1;
        }
        e := e + 1;
      }
    }

    /** One residual chunk: every plan's message is measured, each distinct delta once, and charged. */
    method Measure(c: ChunkRef, baseChunks: seq<ChunkRef>)
      requires Sound(tools) && Tabled(tot, |tools.engines|) && c.Addressed()
      requires Consistent(Held(casChunks, sketchIndex, baseChunks))
      modifies this`tot
      ensures Tabled(tot, |tools.engines|)
      ensures tot == Charge(tools, Held(casChunks, sketchIndex, baseChunks), old(tot), c)
    {
      hide Send, Best, SketchPick, ChargedUpTo, Counted, Charge, Tabled, Consistent, ChunkRef.Addressed, ChunkRef.Data;
      hide CacheRight, Sound, Indexed, OverlapWith;
      ghost var h := Held(casChunks, sketchIndex, baseChunks);
      EveryTable(tot, |tools.engines|);
      WholeArrives(tools, c);
      var whole := ZstdRoundtrip(tools.z, c.Data(), c.digest);
      var full := whole.value;
      StartCharging(tools, tot, full);
      tot := tot.(cdcZstd := tot.cdcZstd + full);
      ghost var first := tot;
      var pos := OverlapBase(baseChunks, c);
      SizedTarget(h, c);
      var sk := SketchBase(c.feats, sketchIndex, casChunks, c.length);
      var cands := map[Pos := pos, Sk := sk, Hy := if sk.Some? then sk else pos];
      CandidatesAre(h, c, cands);
      var found, none := CountSelections(cands, tot.selFound, tot.selNone);
      CountedTables(tot, |tools.engines|, cands, found, none);
      tot := tot.(selFound := found, selNone := none);
      ghost var counted := tot;
      ChargePlans(c, cands, full, h);
      ChargedAll(tools, h, c, cands, old(tot), first, counted, tot);
    }

    /** The whole-blob deltas of an artifact whose previous version is at hand. */
    method BlobDeltas(prev: Option<Bytes>, data: Bytes, sizes: map<nat, nat>) returns (r: map<nat, nat>)
      requires Sound(tools) && forall e :: e in sizes <==> 0 <= e < |tools.engines|
      ensures r == map e | e in sizes :: sizes[e] + BlobDeltaSize(tools.engines[e], prev, data)
    {
      r := sizes;
      var e := 0;
      while e < |tools.engines|
        invariant 0 <= e <= |tools.engines| && r.Keys == sizes.Keys
        invariant forall k :: k in sizes ==>
                    r[k] == sizes[k] + if k < e then BlobDeltaSize(tools.engines[k], prev, data) else 0
      {
        if prev.Some? {
          assert Patches(tools.engines[e]);
          var size := BestDelta(tools.engines[e], prev.value, data, Sha(data));
          r := r[e := r[e] + Min(size.value, |data|)];
        } else {
          r := r[e := r[e] + |data|];
        }
        e := e + 1;
      }
    }

    /** Every residual chunk, in order. */
    method MeasureAll(residual: seq<ChunkRef>, baseChunks: seq<ChunkRef>)
      requires Sound(tools) && Tabled(tot, |tools.engines|) && AllAddressed(residual) && AllSized(residual)
      requires Consistent(Held(casChunks, sketchIndex, baseChunks))
      modifies this`tot
      ensures Tabled(tot, |tools.engines|)
      ensures tot == ChargeAll(tools, Held(casChunks, sketchIndex, baseChunks), old(tot), residual)
    {
      hide Charge, Tabled, Consistent, Sound, ChunkRef.Addressed;
      ghost var h, start := Held(casChunks, sketchIndex, baseChunks), tot;
      var i := 0;
      while i < |residual|
        invariant 0 <= i <= |residual| && Tabled(tot, |tools.engines|)
        invariant h == Held(casChunks, sketchIndex, baseChunks)
        invariant tot == ChargeAll(tools, h, start, residual[..i])
      {
        assert residual[..i + 1][..i] == residual[..i];
        assert residual[i] in residual;
        Measure(residual[i], baseChunks);
        i := i + 1;
      }
      assert residual[..i] == residual;
    }

    /** Everything an artifact the client lacks adds to the totals. */
    method Miss(name: Name, data: Bytes, chunks: seq<ChunkRef>)
      requires Sound(tools) && Tabled(tot, |tools.engines|) && AllAddressed(chunks)
      requires Consistent(Held(casChunks, sketchIndex, Previous(prevChunks, name)))
      modifies this`tot
      ensures AllSized(chunks)
      ensures tot == Missed(tools, Held(casChunks, sketchIndex, Previous(prevChunks, name)),
                            if name in prevBlob then Some(prevBlob[name]) else None, old(tot), data, chunks)
    {
      hide Sum, Residual, ChargeAll, Tabled, Consistent, ChunkRef.Addressed, AllAddressed, Lossless;
      ghost var before := tot;
      var residual := Residual(casChunks, chunks);
      var baseBlob := if name in prevBlob then Some(prevBlob[name]) else None;
      var baseChunks := Previous(prevChunks, name);
      AddressedSized(chunks);
      ResidualIsPart(casChunks, chunks);
      ResidualAddressed(casChunks, chunks);
      LosslessRoundtrip(tools.z, data);
      var whole := ZstdRoundtrip(tools.z, data, Sha(data));
      EngineKeys(tot, |tools.engines|);
      var blobDelta := BlobDeltas(baseBlob, data, tot.blobDelta);
      tot := tot.(misses := tot.misses + 1,
                  oneChunkMisses := tot.oneChunkMisses + One(|chunks| == 1),
                  raw := tot.raw + |data|,
                  zstd := tot.zstd + whole.value,
                  exactChunkHits := tot.exactChunkHits + (|chunks| - |residual|),
                  residualChunks := tot.residualChunks + |residual|,
                  residualBytes := tot.residualBytes + Sum(residual, LENGTH),
                  cdc := tot.cdc + Sum(residual, LENGTH),
                  blobDelta := blobDelta);
      assert tot == Arrived(tools, casChunks, baseBlob, before, data, chunks);
      ArrivedTabled(tools, casChunks, baseBlob, before, data, chunks);
      MeasureAll(residual, baseChunks);
    }

    /** One artifact: measured if the client lacks it, then part of what the client holds. */
    method Artifact(name: Name, data: Bytes)
      requires Valid()
      modifies this
      ensures Valid() && history == old(history) + [(name, data)]
      ensures casBlobs == old(casBlobs) + {Sha(data)}
      ensures casChunks == AddAll(old(casChunks), ChunksOf(setup, name, data))
      ensures prevBlob == old(prevBlob)[name := data]
      ensures Sha(data) in old(casBlobs) ==> tot == old(tot).(exactBlobHits := old(tot).exactBlobHits + 1)
      ensures Sha(data) !in old(casBlobs) ==>
                tot == Missed(tools, old(Held(casChunks, sketchIndex, Previous(prevChunks, name))),
                              if name in old(prevBlob) then Some(old(prevBlob[name])) else None,
                              old(tot), data, ChunksOf(setup, name, data))
    {
      hide Missed, AddAll, ChunksOf, Tabled, Ordering, Indexed, Records, Ready, Sound, FastCdcChunker.Valid, Consistent;
      hide Previous, AllAddressed, AllSized, ChunkRef.Addressed, ChunkRef.Data;
      var chunks := ChunkList(name, data);
      ChunksAddressed(setup, name, data);
      if Sha(data) in casBlobs {
        tot := tot.(exactBlobHits := tot.exactBlobHits + 1);
        HitKeepsTables(old(tot), |tools.engines|);
        assert casBlobs + {Sha(data)} == casBlobs;
      } else {
        PreviousHeld(setup, history, casBlobs, casChunks, sketchIndex, prevBlob, prevChunks, name);
        Miss(name, data, chunks);
        ChunksCover(setup, name, data);
        MissedKeepsOrdering(tools, Held(casChunks, sketchIndex, Previous(prevChunks, name)),
                            if name in prevBlob then Some(prevBlob[name]) else None, old(tot), data, chunks);
      }
      RecordsIndexed(setup, history, casBlobs, casChunks, sketchIndex, prevBlob, prevChunks);
      Commit(chunks);
      RecordsGrow(setup, history, casBlobs, old(casChunks), old(sketchIndex), prevBlob, prevChunks, (name, data),
          sketchIndex);
      casBlobs := casBlobs + {Sha(data)};
      prevBlob := prevBlob[name := data];
      prevChunks := prevChunks[name := chunks];
      history := history + [(name, data)];
    }

    /** The whole run: whatever the artifacts, the order of the totals and the client's records hold at the end. */
    method Run(artifacts: seq<Version>)
      requires Valid()
      modifies this
      ensures Valid() && history == old(history) + artifacts
    {
      hide Valid, Missed, AddAll, ChunksOf;
      var i := 0;
      while i < |artifacts|
        invariant 0 <= i <= |artifacts|
        invariant Valid() && history == old(history) + artifacts[..i]
      {
        var (name, data) := artifacts[i];
        Artifact(name, data);
        assert artifacts[..i + 1] == artifacts[..i] + [(name, data)];
        i := i + 1;
      }
      assert artifacts[..i] == artifacts;
    }
  }

  function Previous(prevChunks: map<Name, seq<ChunkRef>>, name: Name): seq<ChunkRef> {
    if name in prevChunks then prevChunks[name] else []
  }

  ghost predicate AllAddressed(chunks: seq<ChunkRef>) {
    forall c :: c in chunks ==> c.Addressed()
  }

  ghost predicate AllSized(chunks: seq<ChunkRef>) {
    forall c :: c in chunks ==> c.length > 0
  }

  lemma AddressedSized(chunks: seq<ChunkRef>)
    requires AllAddressed(chunks)
    ensures AllSized(chunks)
  {}

  lemma ResidualAddressed(cas: Store, chunks: seq<ChunkRef>)
    requires AllAddressed(chunks)
    ensures AllAddressed(Residual(cas, chunks)) && AllSized(Residual(cas, chunks))
    ensures forall c :: c in Residual(cas, chunks) ==> c.Addressed()
  {}

  lemma ChunksAddressed(s: Setup, name: Name, data: Bytes)
    requires Ready(s)
    ensures AllAddressed(ChunksOf(s, name, data)) && AllSized(ChunksOf(s, name, data))
  {}

  lemma LosslessRoundtrip(z: Compressor, data: Bytes)
    requires Lossless(z)
    ensures z.decompress(z.compress(data)) == data
  {}

  lemma EngineKeys(tot: Totals, engines: nat)
    requires Tabled(tot, engines)
    ensures forall e :: e in tot.blobDelta <==> 0 <= e < engines
  {}

  lemma ArrivedTabled(t: Tools, cas: Store, prev: Option<Bytes>, tot: Totals, data: Bytes, chunks: seq<ChunkRef>)
    requires Tabled(tot, |t.engines|)
    ensures Tabled(Arrived(t, cas, prev, tot, data, chunks), |t.engines|)
  {
    hide Sum, Residual;
  }

  lemma HitKeepsTables(tot: Totals, engines: nat)
    requires Tabled(tot, engines) && Ordering(tot)
    ensures var r := tot.(exactBlobHits := tot.exactBlobHits + 1); Tabled(r, engines) && Ordering(r)
  {}

  lemma RecordsIndexed(s: Setup, history: seq<Version>, casBlobs: set<Digest>, cas: Store, index: Index,
                       prevBlob: map<Name, Bytes>, prevChunks: map<Name, seq<ChunkRef>>)
    requires Ready(s) && Records(s, history, casBlobs, cas, index, prevBlob, prevChunks)
    ensures Indexed(index, cas)
  {}

  /** The chunks of the previous version are all in the store. */
  lemma PreviousHeld(s: Setup, history: seq<Version>, casBlobs: set<Digest>, cas: Store, index: Index,
                     prevBlob: map<Name, Bytes>, prevChunks: map<Name, seq<ChunkRef>>, name: Name)
    requires Ready(s) && Records(s, history, casBlobs, cas, index, prevBlob, prevChunks)
    ensures Consistent(Held(cas, index, Previous(prevChunks, name)))
  {
    if name in prevChunks {
      assert name in prevBlob && (name, prevBlob[name]) in history;
    }
  }

  /**
   At any point of a run, under every plan, the messages for the next artifact
   are enough: applied to what the client holds they give that artifact.
   */
  lemma NextArtifactArrives(s: Setup, t: Tools, history: seq<Version>, casBlobs: set<Digest>, cas: Store, index: Index,
          prevBlob: map<Name, Bytes>, prevChunks: map<Name, seq<ChunkRef>>, name: Name, data: Bytes, plan: Plan)
    requires Ready(s) && Sound(t) && plan.1 < |t.engines|
    requires Records(s, history, casBlobs, cas, index, prevBlob, prevChunks)
    ensures Rebuilt(t, Held(cas, index, Previous(prevChunks, name)), plan, ChunksOf(s, name, data)) == Some(data)
  {
    hide Rebuilt, ChunksOf, Concat, Records, Consistent;
    PreviousHeld(s, history, casBlobs, cas, index, prevBlob, prevChunks, name);
    ChunksAddressed(s, name, data);
    RebuiltIsArtifact(t, Held(cas, index, Previous(prevChunks, name)), plan, ChunksOf(s, name, data));
    ChunksCover(s, name, data);
  }
}
