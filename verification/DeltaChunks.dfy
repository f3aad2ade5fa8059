/**
 The pieces of the DeltaCDC measurement: compressors and delta engines, sub-chunk
 features, and the chunk list of an artifact.

 The compressor and the engines are any encode/decode pairs, and the sub-chunk
 hash is any function.
 */
module DeltaChunks {
  import opened FastCdc
  import opened Numbers
  import opened Wrappers

  type Bytes = seq<Byte>
  type Name = nat

  type Digest = Hash<Bytes>

  const FEATURES_PER_CHUNK: nat := 8

  // ----- compressors and delta engines ------------------------------------------------

  datatype Compressor = Compressor(compress: Bytes -> Bytes, decompress: Bytes -> Bytes)

  ghost predicate Lossless(z: Compressor) {
    forall b :: z.decompress(z.compress(b)) == b
  }

  datatype Engine = Engine(diff: (Bytes, Bytes) -> Bytes, patch: (Bytes, Bytes) -> Bytes)

  ghost predicate Patches(e: Engine) {
    forall base, target :: e.patch(base, e.diff(base, target)) == target
  }

  /** `zstd_roundtrip`: the compressed size, or no result where the source raises. */
  method ZstdRoundtrip(z: Compressor, target: Bytes, digest: Digest) returns (size: Option<nat>)
    ensures size == if Sha(z.decompress(z.compress(target))) == digest then Some(|z.compress(target)|) else None
  {
    var compressed := z.compress(target);
    size := if Sha(z.decompress(compressed)) == digest then Some(|compressed|) else None;
  }

  /** `best_delta` */
  method BestDelta(e: Engine, base: Bytes, target: Bytes, digest: Digest) returns (size: Option<nat>)
    ensures size == if Sha(e.patch(base, e.diff(base, target))) == digest then Some(|e.diff(base, target)|) else None
  {
    var d := e.diff(base, target);
    size := if Sha(e.patch(base, d)) == digest then Some(|d|) else None;
  }

  // ----- features --------------------------------------------------------------------------

  predicate Ascending(s: seq<nat>) {
    forall i, j :: 0 <= i < j < |s| ==> s[i] <= s[j]
  }

  function Insert(x: nat, s: seq<nat>): seq<nat> {
    if s == [] then [x]
    else if x <= s[0] then [x] + s
    else [s[0]] + Insert(x, s[1..])
  }

  lemma {:induction false} InsertKeeps(x: nat, s: seq<nat>)
    ensures multiset(Insert(x, s)) == multiset(s) + multiset{x}
  {
    if s != [] && x > s[0] {
      InsertKeeps(x, s[1..]);
      assert s == [s[0]] + s[1..];
    }
  }

  lemma {:induction false} InsertAscends(x: nat, s: seq<nat>)
    requires Ascending(s)
    ensures Ascending(Insert(x, s))
  {
    if s != [] && x > s[0] {
      InsertAscends(x, s[1..]);
      InsertKeeps(x, s[1..]);
      var r := Insert(x, s[1..]);
      forall j | 0 <= j < |r| ensures s[0] <= r[j] {
        assert r[j] in multiset(s[1..]) + multiset{x};
      }
    }
  }

  /** `list.sort` */
  function Sorted(s: seq<nat>): (r: seq<nat>)
    ensures multiset(r) == multiset(s) && Ascending(r)
  {
    if s == [] then []
    else
      var most := Sorted(s[..|s| - 1]);
      InsertKeeps(s[|s| - 1], most);
      InsertAscends(s[|s| - 1], most);
      assert s == s[..|s| - 1] + [s[|s| - 1]];
      Insert(s[|s| - 1], most)
  }

  /** The digests of the sub-chunks that start inside `[lo, hi)`. */
  function Inside(feats: seq<(nat, nat)>, lo: nat, hi: nat): (r: seq<nat>)
    ensures forall d :: d in r <==> exists i :: 0 <= i < |feats| && lo <= feats[i].0 < hi && feats[i].1 == d
  {
    if feats == [] then []
    else (if lo <= feats[0].0 < hi then [feats[0].1] else []) + Inside(feats[1..], lo, hi)
  }

  function ChunkFeatures(feats: seq<(nat, nat)>, lo: nat, hi: nat): seq<nat> {
    var inside := Sorted(Inside(feats, lo, hi));
    inside[..Min(|inside|, FEATURES_PER_CHUNK)]
  }

  /** A chunk's features are the smallest of its sub-chunk digests: at most eight, and none left out is smaller. */
  lemma {:induction false} FeaturesAreSmallest(feats: seq<(nat, nat)>, lo: nat, hi: nat)
    ensures var r := ChunkFeatures(feats, lo, hi); var all := Inside(feats, lo, hi);
            && Ascending(r) && |r| == Min(|all|, 8)
            && multiset(r) <= multiset(all)
            && forall x, y :: x in r && y in multiset(all) - multiset(r) ==> x <= y
  {
    var all := Inside(feats, lo, hi);
    var s := Sorted(all);
    assert |s| == |multiset(s)| == |multiset(all)| == |all|;
    var k := Min(|s|, FEATURES_PER_CHUNK);
    assert s == s[..k] + s[k..];
    assert multiset(all) == multiset(s[..k]) + multiset(s[k..]);
    forall x, y | x in s[..k] && y in multiset(all) - multiset(s[..k]) ensures x <= y {
      assert y in s[k..];
    }
  }

  // ----- chunks --------------------------------------------------------------------------------

  datatype ChunkRef = ChunkRef(digest: Digest, blob: Name, file: Bytes, index: nat, offset: nat, length: nat,
          feats: seq<nat>)
  {
    /** The `data` property: the bytes read back from the file. */
    function Data(): Bytes {
      if offset + length <= |file| then file[offset..offset + length] else []
    }

    predicate Addressed() {
      length > 0 && offset + length <= |file| && digest == Sha(Data())
    }
  }

  /** Sub-chunk hashing and the two chunkers. */
  datatype Setup = Setup(chunks: Config, sub: Config, hash: Bytes -> nat)

  ghost predicate Ready(s: Setup) {
    && Tables(s.chunks) && Progresses(s.chunks) && Ordered(s.chunks)
    && Tables(s.sub) && Progresses(s.sub) && Ordered(s.sub)
  }

  predicate InRange(spans: seq<(nat, nat)>, n: nat) {
    forall i :: 0 <= i < |spans| ==> spans[i].1 > 0 && spans[i].0 + spans[i].1 <= n
  }

  lemma {:induction false} TilesInRange(spans: seq<(nat, nat)>, off: nat, end: nat)
    requires Tiles(spans, off, end)
    ensures InRange(spans, end) && off <= end
  {
    if |spans| > 0 {
      TilesInRange(spans[1..], off + spans[0].1, end);
      forall i | 0 <= i < |spans| ensures spans[i].1 > 0 && spans[i].0 + spans[i].1 <= end {
        if i > 0 {
          assert spans[i] == spans[1..][i - 1];
        }
      }
    }
  }

  lemma SpansInRange(c: Config, data: Bytes)
    requires Tables(c) && Progresses(c) && Ordered(c)
    ensures InRange(Spans(c, data, 0), |data|)
  {
    hide Spans, Tiles, SpanSize, InRange;
    SpansTile(c, data, 0);
    TilesInRange(Spans(c, data, 0), 0, |data|);
  }

  /** `blob_features` */
  ghost function BlobFeatures(s: Setup, data: Bytes): seq<(nat, nat)>
    requires Ready(s)
  {
    SpansInRange(s.sub, data);
    var spans := Spans(s.sub, data, 0);
    seq(|spans|, i requires 0 <= i < |spans| => (spans[i].0, s.hash(data[spans[i].0..spans[i].0 + spans[i].1])))
  }

  function Piece(name: Name, data: Bytes, i: nat, off: nat, ln: nat, feats: seq<nat>): (c: ChunkRef)
    requires ln > 0 && off + ln <= |data|
    ensures c.Addressed() && c.file == data
  {
    ChunkRef(Sha(data[off..off + ln]), name, data, i, off, ln, feats)
  }

  ghost function ChunkAt(s: Setup, name: Name, data: Bytes, i: nat): (c: ChunkRef)
    requires Ready(s) && i < |Spans(s.chunks, data, 0)|
    ensures c.Addressed() && c.file == data
  {
    SpansInRange(s.chunks, data);
    var (off, ln) := Spans(s.chunks, data, 0)[i];
    Piece(name, data, i, off, ln, ChunkFeatures(BlobFeatures(s, data), off, off + ln))
  }

  /** The chunk list of an artifact. */
  ghost function ChunksOf(s: Setup, name: Name, data: Bytes): (r: seq<ChunkRef>)
    requires Ready(s)
    ensures |r| == |Spans(s.chunks, data, 0)|
    ensures forall i :: 0 <= i < |r| ==> r[i] == ChunkAt(s, name, data, i)
    ensures forall c :: c in r ==> c.Addressed()
  {
    seq(|Spans(s.chunks, data, 0)|, i requires 0 <= i < |Spans(s.chunks, data, 0)| => ChunkAt(s, name, data, i))
  }

  /** The `j`-th sub-chunk starts inside the chunk. */
  ghost predicate StartsIn(s: Setup, data: Bytes, j: nat, c: ChunkRef)
    requires Ready(s)
  {
    j < |Spans(s.sub, data, 0)| && c.offset <= Spans(s.sub, data, 0)[j].0 < c.offset + c.length
  }

  ghost function SubHash(s: Setup, data: Bytes, j: nat): nat
    requires Ready(s) && j < |Spans(s.sub, data, 0)|
  {
    SpansInRange(s.sub, data);
    var (off, ln) := Spans(s.sub, data, 0)[j];
    s.hash(data[off..off + ln])
  }

  /**
   The features of a stretch, in terms of the sub-chunks starting in it: ascending, at most eight, hashes of such
   sub-chunks, and all of them unless there are more than eight; none left out is smaller.
   */
  ghost predicate SmallestHashes(s: Setup, data: Bytes, c: ChunkRef)
    requires Ready(s)
  {
    && Ascending(c.feats) && |c.feats| <= 8
    && (forall f :: f in c.feats ==> exists j: nat :: StartsIn(s, data, j, c) && SubHash(s, data, j) == f)
    && forall j: nat :: StartsIn(s, data, j, c) ==> KeptOrLarge(c.feats, SubHash(s, data, j))
  }

  predicate KeptOrLarge(feats: seq<nat>, h: nat) {
    h in feats || (|feats| == 8 && forall f :: f in feats ==> f <= h)
  }

  /** A chunk of an artifact: where it lies, what it is called, and its features. */
  lemma ChunkFacts(s: Setup, name: Name, data: Bytes, i: nat)
    requires Ready(s) && i < |ChunksOf(s, name, data)|
    ensures var c := ChunksOf(s, name, data)[i];
      && c.blob == name && c.index == i && (c.offset, c.length) == Spans(s.chunks, data, 0)[i]
      && c.offset + c.length <= |data| && c.digest == Sha(data[c.offset..c.offset + c.length])
      && SmallestHashes(s, data, c)
  {
    hide Spans, SmallestHashes, ChunkFeatures, BlobFeatures;
    var c := ChunksOf(s, name, data)[i];
    assert c == ChunkAt(s, name, data, i);
    SpansInRange(s.chunks, data);
    FeatureFacts(s, data, c);
  }

  lemma FeatureFacts(s: Setup, data: Bytes, c: ChunkRef)
    requires Ready(s) && c.feats == ChunkFeatures(BlobFeatures(s, data), c.offset, c.offset + c.length)
    ensures SmallestHashes(s, data, c)
  {
    hide Spans, ChunkFeatures, Inside, Ascending;
    SpansInRange(s.sub, data);
    var feats := BlobFeatures(s, data);
    var all := Inside(feats, c.offset, c.offset + c.length);
    FeaturesAreSmallest(feats, c.offset, c.offset + c.length);
    forall f | f in c.feats ensures exists j: nat :: StartsIn(s, data, j, c) && SubHash(s, data, j) == f {
      assert f in multiset(all) && f in all;
      var j :| 0 <= j < |feats| && c.offset <= feats[j].0 < c.offset + c.length && feats[j].1 == f;
      assert StartsIn(s, data, j, c) && SubHash(s, data, j) == f;
    }
    forall j: nat | StartsIn(s, data, j, c) ensures KeptOrLarge(c.feats, SubHash(s, data, j)) {
      var h := SubHash(s, data, j);
      assert feats[j].1 == h && h in all;
      if h !in c.feats {
        AllKept(all, c.feats, h);
      }
    }
  }

  /** A part of a list as long as the list holds all of it. */
  lemma AllKept(all: seq<nat>, part: seq<nat>, h: nat)
    requires multiset(part) <= multiset(all) && h in all && h !in part
    ensures |part| < |all| && h in multiset(all) - multiset(part)
  {
    assert h in multiset(all) && h !in multiset(part);
    assert multiset(all) == multiset(part) + (multiset(all) - multiset(part));
    assert |multiset(all) - multiset(part)| > 0 by { assert h in multiset(all) - multiset(part); }
  }

  /** Concatenated, the chunks are the artifact. */
  function Concat(chunks: seq<ChunkRef>): Bytes {
    if chunks == [] then [] else chunks[0].Data() + Concat(chunks[1..])
  }

  /** The chunks are the spans of one file. */
  ghost predicate Spanned(chunks: seq<ChunkRef>, spans: seq<(nat, nat)>, data: Bytes) {
    |chunks| == |spans| && forall i :: 0 <= i < |spans| ==>
      chunks[i].offset == spans[i].0 && chunks[i].length == spans[i].1 && chunks[i].file == data
  }

  lemma {:induction false} SpansCover(chunks: seq<ChunkRef>, spans: seq<(nat, nat)>, data: Bytes, off: nat)
    requires Tiles(spans, off, |data|) && Spanned(chunks, spans, data) && off <= |data|
    ensures Concat(chunks) == data[off..]
    decreases |spans|
  {
    if |spans| > 0 {
      TilesInRange(spans, off, |data|);
      SpansCover(chunks[1..], spans[1..], data, off + spans[0].1);
      assert data[off..] == data[off..off + spans[0].1] + data[off + spans[0].1..];
    }
  }

  lemma {:induction false} SpansMeasure(chunks: seq<ChunkRef>, spans: seq<(nat, nat)>, data: Bytes, off: nat)
    requires Tiles(spans, off, |data|) && Spanned(chunks, spans, data) && off <= |data|
    ensures Sum(chunks, LENGTH) == |data| - off
    decreases |spans|
  {
    if |spans| > 0 {
      TilesInRange(spans, off, |data|);
      SpansMeasure(chunks[1..], spans[1..], data, off + spans[0].1);
      SumFront(chunks, LENGTH);
    }
  }

  lemma {:induction false} ChunksCover(s: Setup, name: Name, data: Bytes)
    requires Ready(s)
    ensures Concat(ChunksOf(s, name, data)) == data
    ensures Sum(ChunksOf(s, name, data), LENGTH) == |data|
  {
    hide Spans, Tiles, SpanSize, ChunkFeatures, BlobFeatures, Concat, Sum;
    SpansTile(s.chunks, data, 0);
    SpansInRange(s.chunks, data);
    var spans, chunks := Spans(s.chunks, data, 0), ChunksOf(s, name, data);
    forall i | 0 <= i < |spans|
      ensures chunks[i].offset == spans[i].0 && chunks[i].length == spans[i].1 && chunks[i].file == data
    {
      assert chunks[i] == ChunkAt(s, name, data, i);
    }
    SpansCover(chunks, spans, data, 0);
    SpansMeasure(chunks, spans, data, 0);
    assert data[0..] == data;
  }

  // ----- sums ------------------------------------------------------------------------------------

  function Sum(chunks: seq<ChunkRef>, f: ChunkRef -> nat): nat {
    if chunks == [] then 0 else Sum(chunks[..|chunks| - 1], f) + f(chunks[|chunks| - 1])
  }

  const LENGTH: ChunkRef -> nat := (c: ChunkRef) => c.length

  lemma {:induction false} SumFront(chunks: seq<ChunkRef>, f: ChunkRef -> nat)
    requires chunks != []
    ensures Sum(chunks, f) == f(chunks[0]) + Sum(chunks[1..], f)
    decreases |chunks|
  {
    if |chunks| > 1 {
      var most := chunks[..|chunks| - 1];
      SumFront(most, f);
      assert most[1..] == chunks[1..][..|chunks| - 2];
    }
  }

  lemma {:induction false} SumBound(chunks: seq<ChunkRef>, f: ChunkRef -> nat, g: ChunkRef -> nat)
    requires forall c :: c in chunks ==> f(c) <= g(c)
    ensures Sum(chunks, f) <= Sum(chunks, g)
  {
    if chunks != [] {
      SumBound(chunks[..|chunks| - 1], f, g);
    }
  }
}
