/**
 The client's chunk store and sketch index as artifacts come in.
 */
module DeltaStore {
  import opened BaseSelection
  import opened DeltaChunks
  import opened DeltaTransfer
  import opened Wrappers

  // ----- the store after an artifact -----------------------------------------------------------------------

  /** Chunks not yet in the store are added; the first with a digest stays. */
  ghost function AddAll(cas: Store, chunks: seq<ChunkRef>): Store {
    if chunks == [] then cas
    else
      var most, c := AddAll(cas, chunks[..|chunks| - 1]), chunks[|chunks| - 1];
      if c.digest in most then most else most[c.digest := c]
  }

  lemma {:induction false} AddAllHolds(cas: Store, chunks: seq<ChunkRef>)
    ensures var r := AddAll(cas, chunks);
            && (forall c :: c in chunks ==> c.digest in r)
            && (forall d :: d in cas ==> d in r && r[d] == cas[d])
            && (forall d :: d in r && d !in cas ==> r[d] in chunks && r[d].digest == d)
  {
    if chunks != [] {
      AddAllHolds(cas, chunks[..|chunks| - 1]);
      assert chunks == chunks[..|chunks| - 1] + [chunks[|chunks| - 1]];
    }
  }

  /** The chunks of the artifact the store lacks. */
  function Residual(cas: Store, chunks: seq<ChunkRef>): (r: seq<ChunkRef>)
    ensures forall c :: multiset(r)[c] == if c.digest in cas then 0 else multiset(chunks)[c]
    ensures forall c :: c in r <==> c in chunks && c.digest !in cas
  {
    if chunks == [] then []
    else
      var c := chunks[|chunks| - 1];
      assert chunks == chunks[..|chunks| - 1] + [c];
      Residual(cas, chunks[..|chunks| - 1]) + if c.digest in cas then [] else [c]
  }

  lemma {:induction false} ResidualIsPart(cas: Store, chunks: seq<ChunkRef>)
    ensures Sum(Residual(cas, chunks), LENGTH) <= Sum(chunks, LENGTH) && |Residual(cas, chunks)| <= |chunks|
  {
    if chunks != [] {
      var most := chunks[..|chunks| - 1];
      ResidualIsPart(cas, most);
      var c := chunks[|chunks| - 1];
      if c.digest !in cas {
        assert Residual(cas, chunks) == Residual(cas, most) + [c];
        assert (Residual(cas, most) + [c])[..|Residual(cas, most)|] == Residual(cas, most);
      } else {
        assert Residual(cas, chunks) == Residual(cas, most);
      }
    }
  }

  type Version = (Name, Bytes)

  /** What the run's variables say about the artifacts processed so far. */
  ghost predicate Records(s: Setup, history: seq<Version>, casBlobs: set<Digest>, cas: Store, index: Index,
                          prevBlob: map<Name, Bytes>, prevChunks: map<Name, seq<ChunkRef>>)
    requires Ready(s)
  {
    && GoodStore(cas) && Indexed(index, cas)
    && casBlobs == (set v | v in history :: Sha(v.1))
    && Complete(s, history, cas) && Grounded(s, history, cas)
    && prevBlob.Keys == prevChunks.Keys
    && (forall n :: n in prevBlob ==> (n, prevBlob[n]) in history && prevChunks[n] == ChunksOf(s, n, prevBlob[n]))
  }

  /** Every chunk of every version is in the store. */
  ghost predicate Complete(s: Setup, history: seq<Version>, cas: Store)
    requires Ready(s)
  {
    forall v :: v in history ==> AllHeld(cas, ChunksOf(s, v.0, v.1))
  }

  ghost predicate Grounded(s: Setup, history: seq<Version>, cas: Store)
    requires Ready(s)
  {
    forall d :: d in cas ==> FromSome(s, history, cas[d])
  }

  /** Nothing gets into the store except as a chunk of some version. */
  ghost predicate FromSome(s: Setup, history: seq<Version>, c: ChunkRef)
    requires Ready(s)
  {
    exists v :: v in history && c in ChunksOf(s, v.0, v.1)
  }

  lemma CompleteGrows(s: Setup, history: seq<Version>, cas: Store, v: Version)
    requires Ready(s) && Complete(s, history, cas)
    ensures Complete(s, history + [v], AddAll(cas, ChunksOf(s, v.0, v.1)))
  {
    var chunks := ChunksOf(s, v.0, v.1);
    hide ChunksOf, AddAll, ChunkRef.Addressed;
    AddAllHolds(cas, chunks);
    forall w | w in history + [v] ensures AllHeld(AddAll(cas, chunks), ChunksOf(s, w.0, w.1)) {
      if w in history {
        assert AllHeld(cas, ChunksOf(s, w.0, w.1));
      }
    }
  }

  lemma GroundedGrows(s: Setup, history: seq<Version>, cas: Store, v: Version)
    requires Ready(s) && Grounded(s, history, cas)
    ensures Grounded(s, history + [v], AddAll(cas, ChunksOf(s, v.0, v.1)))
  {
    var chunks := ChunksOf(s, v.0, v.1);
    var all := history + [v];
    hide ChunksOf, AddAll;
    AddAllHolds(cas, chunks);
    forall d | d in AddAll(cas, chunks) ensures FromSome(s, all, AddAll(cas, chunks)[d]) {
      if d in cas {
        assert FromSome(s, history, cas[d]);
        var w :| w in history && cas[d] in ChunksOf(s, w.0, w.1);
        assert w in all;
      } else {
        assert v in all;
      }
    }
  }

  lemma GoodStoreGrows(cas: Store, chunks: seq<ChunkRef>)
    requires GoodStore(cas) && forall c :: c in chunks ==> c.Addressed()
    ensures GoodStore(AddAll(cas, chunks))
  {
    hide AddAll, ChunkRef.Addressed;
    AddAllHolds(cas, chunks);
  }

  lemma {:induction false} RecordsGrow(s: Setup, history: seq<Version>, casBlobs: set<Digest>, cas: Store, index: Index,
                    prevBlob: map<Name, Bytes>, prevChunks: map<Name, seq<ChunkRef>>, v: Version, index': Index)
    requires Ready(s) && Records(s, history, casBlobs, cas, index, prevBlob, prevChunks)
    requires Indexed(index', AddAll(cas, ChunksOf(s, v.0, v.1)))
    ensures Records(s, history + [v], casBlobs + {Sha(v.1)}, AddAll(cas, ChunksOf(s, v.0, v.1)), index',
                    prevBlob[v.0 := v.1], prevChunks[v.0 := ChunksOf(s, v.0, v.1)])
  {
    hide Indexed, ChunksOf, AddAll, Complete, Grounded, GoodStore;
    CompleteGrows(s, history, cas, v);
    GroundedGrows(s, history, cas, v);
    GoodStoreGrows(cas, ChunksOf(s, v.0, v.1));
    var all := history + [v];
    assert forall w :: w in all <==> w in history || w == v;
    assert forall d :: d in casBlobs <==> exists w :: w in history && d == Sha(w.1);
  }

  // ----- the index while a new chunk is being listed -------------------------------------------------------------

  /** The index while a new chunk is being listed: `j` of its features are done. */
  ghost predicate HalfIndexed(index: Index, cas: Store, c: ChunkRef, j: nat)
    requires j <= |c.feats|
  {
    forall f, d :: multiset(Listed(index, f))[d]
                == if d == c.digest then multiset(c.feats[..j])[f] else Having(cas, d, f)
  }

  lemma HalfIndexedNext(index: Index, cas: Store, c: ChunkRef, j: nat)
    requires j < |c.feats| && HalfIndexed(index, cas, c, j)
    ensures var f := c.feats[j]; HalfIndexed(index[f := Listed(index, f) + [c.digest]], cas, c, j + 1)
  {
    assert c.feats[..j + 1] == c.feats[..j] + [c.feats[j]];
  }

  lemma HalfIndexedAll(index: Index, cas: Store, c: ChunkRef)
    requires HalfIndexed(index, cas, c, |c.feats|)
    ensures Indexed(index, cas[c.digest := c])
  {
    assert c.feats[..|c.feats|] == c.feats;
  }

  lemma HalfIndexedNone(index: Index, cas: Store, c: ChunkRef)
    requires Indexed(index, cas) && c.digest !in cas
    ensures HalfIndexed(index, cas, c, 0)
  {
    assert c.feats[..0] == [];
    forall f, d ensures multiset(Listed(index, f))[d] == if d == c.digest then 0 else Having(cas, d, f) {
      assert multiset(Listed(index, f))[d] == Having(cas, d, f);
    }
  }

  /** The digest of a new chunk is appended to the list of each of its features. */
  method ListFeatures(index: Index, ghost cas: Store, c: ChunkRef) returns (index': Index)
    requires Indexed(index, cas) && c.digest !in cas
    ensures Indexed(index', cas[c.digest := c])
  {
    hide Indexed, HalfIndexed;
    index' := index;
    HalfIndexedNone(index, cas, c);
    var j := 0;
    while j < |c.feats|
      invariant 0 <= j <= |c.feats| && HalfIndexed(index', cas, c, j)
    {
      var f := c.feats[j];
      HalfIndexedNext(index', cas, c, j);
      index' := index'[f := Listed(index', f) + [c.digest]];
      j := j + 1;
    }
    HalfIndexedAll(index', cas, c);
  }
}
