/**
 What DeltaCDC transfers for a chunk the client lacks, and that the client can
 always rebuild the artifact from it.
 */
module DeltaTransfer {
  import opened BaseSelection
  import opened DeltaChunks
  import opened Wrappers

  // ----- one residual chunk --------------------------------------------------------------------------------

  datatype Selector = Pos | Sk | Hy

  const SELECTORS: seq<Selector> := [Pos, Sk, Hy]

  type Plan = (Selector, nat)

  /** What the client holds when an artifact arrives; `base` is the chunk list of the artifact's previous version. */
  datatype Held = Held(cas: Store, index: Index, base: seq<ChunkRef>)

  function Candidate(h: Held, s: Selector, c: ChunkRef): Option<ChunkRef>
    requires c.length > 0
  {
    match s
    case Pos => Best(h.base, OverlapWith(c))
    case Sk => SketchPick(c.feats, h.index, h.cas, c.length)
    case Hy =>
      var sk := SketchPick(c.feats, h.index, h.cas, c.length);
      if sk.Some? then sk else Best(h.base, OverlapWith(c))
  }

  /**
   When each selector finds a base: the positional one when the previous version shares a position, the sketch when
   a stored chunk shares a feature, and the hybrid when either does, preferring the sketch's.
   */
  lemma CandidatesMean(h: Held, c: ChunkRef)
    requires Consistent(h) && c.length > 0
    ensures Candidate(h, Pos, c).None? <==> forall b :: b in h.base ==> Shared(b, c) == {}
    ensures Candidate(h, Sk, c).None? <==> forall d :: d in h.cas ==> Agreement(c.feats, h.cas[d].feats) == 0
    ensures Candidate(h, Hy, c) == Candidate(h, if Candidate(h, Sk, c).Some? then Sk else Pos, c)
  {
    hide Best, SketchPick, Shared, Agreement;
    OverlapPicksMost(h.base, c);
    SketchSearchesTheStore(c.feats, h.index, h.cas, c.length);
  }

  datatype Tools = Tools(z: Compressor, engines: seq<Engine>)

  ghost predicate Sound(t: Tools) {
    Lossless(t.z) && forall i :: 0 <= i < |t.engines| ==> Patches(t.engines[i])
  }

  /**
   What is transferred for a residual chunk: its delta when there is a base and the delta is
   smaller, else all of it.
   */
  datatype Message = Whole(compressed: Bytes) | Delta(base: Digest, patch: Bytes)

  function Send(t: Tools, h: Held, plan: Plan, c: ChunkRef): Message
    requires plan.1 < |t.engines|
  {
    var whole := t.z.compress(c.Data());
    var b := if c.length > 0 then Candidate(h, plan.0, c) else None;
    if b.None? then Whole(whole)
    else
      var patch := t.engines[plan.1].diff(b.value.Data(), c.Data());
      if |patch| < |whole| then Delta(b.value.digest, patch) else Whole(whole)
  }

  function Size(m: Message): nat {
    match m
    case Whole(compressed) => |compressed|
    case Delta(_, patch) => |patch|
  }

  /** The client's side: a delta is applied to a chunk it holds. */
  function Receive(t: Tools, cas: Store, engine: nat, m: Message): Option<Bytes>
    requires engine < |t.engines|
  {
    match m
    case Whole(compressed) => Some(t.z.decompress(compressed))
    case Delta(base, patch) =>
      if base in cas then Some(t.engines[engine].patch(cas[base].Data(), patch)) else None
  }

  ghost predicate GoodStore(cas: Store) {
    forall d :: d in cas ==> cas[d].digest == d && cas[d].Addressed()
  }

  ghost predicate AllHeld(cas: Store, chunks: seq<ChunkRef>) {
    forall c :: c in chunks ==> c.Addressed() && c.digest in cas
  }

  ghost predicate Consistent(h: Held) {
    GoodStore(h.cas) && Indexed(h.index, h.cas) && AllHeld(h.cas, h.base)
  }

  /** Whatever the selector picks, the client already has it, under the digest it is known by. */
  lemma {:induction false} BasesAreHeld(h: Held, s: Selector, c: ChunkRef)
    requires Consistent(h) && c.length > 0
    ensures var b := Candidate(h, s, c);
            b.Some? ==>
              b.value.Addressed() && b.value.digest in h.cas && h.cas[b.value.digest].Data() == b.value.Data()
  {
    SketchSearchesTheStore(c.feats, h.index, h.cas, c.length);
    BestIsFirstHighest(h.base, OverlapWith(c));
    var b := Candidate(h, s, c);
    if b.Some? {
      assert b.value.Addressed() && b.value.digest in h.cas;
      assert Sha(h.cas[b.value.digest].Data()) == b.value.digest;
    }
  }

  /** The chunk arrives intact, whatever base was chosen. */
  lemma {:induction false} ReceiveAfterSend(t: Tools, h: Held, plan: Plan, c: ChunkRef)
    requires Sound(t) && Consistent(h) && plan.1 < |t.engines| && c.Addressed()
    ensures Receive(t, h.cas, plan.1, Send(t, h, plan, c)) == Some(c.Data())
  {
    BasesAreHeld(h, plan.0, c);
    var b := Candidate(h, plan.0, c);
    assert t.z.decompress(t.z.compress(c.Data())) == c.Data();
    if b.Some? {
      var e := t.engines[plan.1];
      assert e.patch(b.value.Data(), e.diff(b.value.Data(), c.Data())) == c.Data();
    }
  }

  /** The client's copy of a chunk: its own when it has the digest, else what arrives. */
  function CopyOf(t: Tools, h: Held, plan: Plan, c: ChunkRef): Option<Bytes>
    requires plan.1 < |t.engines|
  {
    if c.digest in h.cas then Some(h.cas[c.digest].Data())
    else Receive(t, h.cas, plan.1, Send(t, h, plan, c))
  }

  lemma CopyIsChunk(t: Tools, h: Held, plan: Plan, c: ChunkRef)
    requires Sound(t) && Consistent(h) && plan.1 < |t.engines| && c.Addressed()
    ensures CopyOf(t, h, plan, c) == Some(c.Data())
  {
    hide Send, Receive;
    if c.digest in h.cas {
      assert h.cas[c.digest].digest == c.digest && h.cas[c.digest].Addressed();
    } else {
      ReceiveAfterSend(t, h, plan, c);
    }
  }

  /** The copies of an artifact's chunks, put together. */
  function Rebuilt(t: Tools, h: Held, plan: Plan, chunks: seq<ChunkRef>): Option<Bytes>
    requires plan.1 < |t.engines|
  {
    if chunks == [] then Some([])
    else
      var first, rest := CopyOf(t, h, plan, chunks[0]), Rebuilt(t, h, plan, chunks[1..]);
      if first.Some? && rest.Some? then Some(first.value + rest.value) else None
  }

  /** Under every plan the client ends with the artifact. */
  lemma {:induction false} RebuiltIsArtifact(t: Tools, h: Held, plan: Plan, chunks: seq<ChunkRef>)
    requires Sound(t) && Consistent(h) && plan.1 < |t.engines|
    requires forall c :: c in chunks ==> c.Addressed()
    ensures Rebuilt(t, h, plan, chunks) == Some(Concat(chunks))
  {
    hide CopyOf, Sound, Consistent, ChunkRef.Data;
    if chunks != [] {
      CopyIsChunk(t, h, plan, chunks[0]);
      RebuiltIsArtifact(t, h, plan, chunks[1..]);
    }
  }
}
