/**
 How DeltaCDC picks the base of a delta: the previous version's chunk that
 overlaps most, or the stored chunk that resembles the target most, found
 through an index of features.
 */
module BaseSelection {
  import opened DeltaChunks
  import opened Numbers
  import opened Wrappers

  // ----- the running best ---------------------------------------------------------------------------

  /** The loop both selectors share: keep a candidate only when it beats the best so far, which starts at zero. */
  function Best<T>(xs: seq<T>, score: T -> real): Option<T> {
    if xs == [] then None
    else
      var best := Best(xs[..|xs| - 1], score);
      var x := xs[|xs| - 1];
      if score(x) > BestScore(best, score) then Some(x) else best
  }

  function BestScore<T>(best: Option<T>, score: T -> real): real {
    if best.Some? then score(best.value) else 0.0
  }

  /** `xs[i]` is the first element of highest score. */
  predicate FirstHighest<T(==)>(xs: seq<T>, score: T -> real, i: nat) {
    && i < |xs| && score(xs[i]) > 0.0
    && (forall j :: 0 <= j < |xs| ==> score(xs[j]) <= score(xs[i]))
    && (forall j :: 0 <= j < i ==> score(xs[j]) < score(xs[i]))
  }

  lemma {:induction false} BestIsFirstHighest<T>(xs: seq<T>, score: T -> real)
    ensures Best(xs, score).None? <==> forall x :: x in xs ==> score(x) <= 0.0
    ensures Best(xs, score).Some? ==> exists i: nat :: FirstHighest(xs, score, i) && xs[i] == Best(xs, score).value
  {
    if xs != [] {
      var most, x := xs[..|xs| - 1], xs[|xs| - 1];
      BestIsFirstHighest(most, score);
      var best := Best(most, score);
      assert forall y :: y in xs <==> y in most || y == x;
      if score(x) > BestScore(best, score) {
        if best.Some? {
          var i: nat :| FirstHighest(most, score, i) && most[i] == best.value;
          assert forall j :: 0 <= j < |most| ==> score(most[j]) <= score(best.value);
        }
        forall j | 0 <= j < |most| ensures score(xs[j]) < score(x) {
          assert xs[j] == most[j] && most[j] in most;
        }
        assert FirstHighest(xs, score, |xs| - 1);
      } else if best.Some? {
        var i: nat :| FirstHighest(most, score, i) && most[i] == best.value;
        assert xs[i] == most[i];
        assert FirstHighest(xs, score, i);
      }
    }
  }

  // ----- choosing a base --------------------------------------------------------------------------------

  /** How many bytes the two byte ranges share, negative when they are apart. */
  function Overlap(b: ChunkRef, c: ChunkRef): int {
    -Max(-(c.offset + c.length), -(b.offset + b.length)) - Max(c.offset, b.offset)
  }

  function OverlapWith(c: ChunkRef): ChunkRef -> real {
    (b: ChunkRef) => Overlap(b, c) as real
  }

  /** `_overlap_base` */
  method OverlapBase(baseChunks: seq<ChunkRef>, c: ChunkRef) returns (best: Option<ChunkRef>)
    ensures best == Best(baseChunks, OverlapWith(c))
  {
    best := None;
    var bestOverlap := 0;
    var lo, hi := c.offset, c.offset + c.length;
    var i := 0;
    while i < |baseChunks|
      invariant 0 <= i <= |baseChunks|
      invariant best == Best(baseChunks[..i], OverlapWith(c))
      invariant bestOverlap as real == BestScore(best, OverlapWith(c))
    {
      var b := baseChunks[i];
      var overlap := -Max(-hi, -(b.offset + b.length)) - Max(lo, b.offset);
      assert baseChunks[..i + 1][..i] == baseChunks[..i];
      if overlap > bestOverlap {
        best, bestOverlap := Some(b), overlap;
      }
      i := i + 1;
    }
    assert baseChunks[..i] == baseChunks;
  }

  /** The positions of the artifact that both chunks cover, each in its own version. */
  function Shared(b: ChunkRef, c: ChunkRef): set<int> {
    Range(b.offset, b.offset + b.length) * Range(c.offset, c.offset + c.length)
  }

  function Range(lo: int, hi: int): (r: set<int>)
    ensures |r| == Max(hi - lo, 0) && forall k :: k in r <==> lo <= k < hi
    decreases hi - lo
  {
    if lo < hi then Range(lo, hi - 1) + {hi - 1} else {}
  }

  lemma OverlapIsShared(b: ChunkRef, c: ChunkRef)
    ensures Max(Overlap(b, c), 0) == |Shared(b, c)|
  {
    var lo, hi := Max(b.offset, c.offset), Min(b.offset + b.length, c.offset + c.length);
    assert Shared(b, c) == Range(lo, hi);
  }

  ghost predicate FirstToShareMost(baseChunks: seq<ChunkRef>, c: ChunkRef, i: nat) {
    && i < |baseChunks| && Shared(baseChunks[i], c) != {}
    && (forall j :: 0 <= j < |baseChunks| ==> |Shared(baseChunks[j], c)| <= |Shared(baseChunks[i], c)|)
    && (forall j :: 0 <= j < i ==> |Shared(baseChunks[j], c)| < |Shared(baseChunks[i], c)|)
  }

  /**
   The positional base: there is one exactly when some chunk of the previous version shares a position
   with the target, and then it shares the most, the first one that does.
   */
  lemma OverlapPicksMost(baseChunks: seq<ChunkRef>, c: ChunkRef)
    ensures var best := Best(baseChunks, OverlapWith(c));
      && (best.None? <==> forall b :: b in baseChunks ==> Shared(b, c) == {})
      && (best.Some? ==> exists i: nat :: FirstToShareMost(baseChunks, c, i) && baseChunks[i] == best.value)
  {
    hide Shared, Best;
    forall b ensures Max(Overlap(b, c), 0) == |Shared(b, c)| {
      OverlapIsShared(b, c);
    }
    var score := OverlapWith(c);
    assert forall b :: score(b) == Overlap(b, c) as real;
    BestIsFirstHighest(baseChunks, score);
    var best := Best(baseChunks, score);
    if best.Some? {
      var i: nat :| FirstHighest(baseChunks, score, i) && baseChunks[i] == best.value;
      assert |Shared(best.value, c)| > 0;
    }
  }

  type Store = map<Digest, ChunkRef>
  type Index = map<nat, seq<Digest>>

  function Listed(index: Index, f: nat): seq<Digest> {
    if f in index then index[f] else []
  }

  /**
   Each chunk of the store is listed under each of its features, as often as it has it, and nothing
   else is listed.
   */
  ghost predicate Indexed(index: Index, cas: Store) {
    forall f, d :: multiset(Listed(index, f))[d] == Having(cas, d, f)
  }

  function Having(cas: Store, d: Digest, f: nat): nat {
    if d in cas then multiset(cas[d].feats)[f] else 0
  }

  /** How many features of `sk` the chunk has, counting repetitions. */
  function Agreement(sk: seq<nat>, feats: seq<nat>): nat {
    if sk == [] then 0 else Agreement(sk[..|sk| - 1], feats) + multiset(feats)[sk[|sk| - 1]]
  }

  /** The score of a stored chunk: its agreement, scaled down when its size is far off. */
  function Score(sk: seq<nat>, ref: ChunkRef, votes: nat, length: nat): real
    requires length > 0
  {
    votes as real * (Min(ref.length, length) as real / Max(ref.length, length) as real)
  }

  function Resemblance(sk: seq<nat>, cas: Store, length: nat): Digest -> real
    requires length > 0
  {
    (d: Digest) => if d in cas then Score(sk, cas[d], Agreement(sk, cas[d].feats), length) else 0.0
  }

  /** Everything listed under the features of `sk`, in order. */
  function Ballots(sk: seq<nat>, index: Index): seq<Digest> {
    if sk == [] then [] else Ballots(sk[..|sk| - 1], index) + Listed(index, sk[|sk| - 1])
  }

  /** The distinct elements in order of first occurrence: the iteration order of the dictionary `votes`. */
  function Distinct(ds: seq<Digest>): seq<Digest> {
    if ds == [] then []
    else
      var some, d := Distinct(ds[..|ds| - 1]), ds[|ds| - 1];
      if d in some then some else some + [d]
  }

  lemma {:induction false} DistinctIn(ds: seq<Digest>, d: Digest)
    ensures d in Distinct(ds) <==> d in ds
  {
    if ds != [] {
      DistinctIn(ds[..|ds| - 1], d);
      assert ds == ds[..|ds| - 1] + [ds[|ds| - 1]];
    }
  }

  /** With an agreeing index, the votes of a chunk are its agreement; anything else has none. */
  lemma {:induction false} VotesAreAgreement(sk: seq<nat>, index: Index, cas: Store, d: Digest)
    requires Indexed(index, cas)
    ensures multiset(Ballots(sk, index))[d] == if d in cas then Agreement(sk, cas[d].feats) else 0
  {
    if sk != [] {
      VotesAreAgreement(sk[..|sk| - 1], index, cas, d);
      var f := sk[|sk| - 1];
      assert multiset(Listed(index, f))[d] == Having(cas, d, f);
    }
  }

  ghost predicate Counts(votes: map<Digest, nat>, order: seq<Digest>, ballots: seq<Digest>) {
    && order == Distinct(ballots)
    && (forall d :: d in votes <==> d in order)
    && (forall d :: multiset(ballots)[d] == if d in votes then votes[d] else 0)
  }

  /** `votes[d] = votes.get(d, 0) + 1` */
  lemma CountOne(votes: map<Digest, nat>, order: seq<Digest>, ballots: seq<Digest>, d: Digest)
    requires Counts(votes, order, ballots)
    ensures Counts(votes[d := (if d in votes then votes[d] else 0) + 1],
                   if d in votes then order else order + [d], ballots + [d])
  {
    assert (ballots + [d])[..|ballots|] == ballots;
  }

  /** The voting loops of `_sketch_base`; `order` is the iteration order of `votes`. */
  method Tally(sk: seq<nat>, index: Index) returns (votes: map<Digest, nat>, order: seq<Digest>)
    ensures Counts(votes, order, Ballots(sk, index))
  {
    hide Counts;
    votes, order := map[], [];
    ghost var ballots: seq<Digest> := [];
    CountNone();
    var i := 0;
    while i < |sk|
      invariant 0 <= i <= |sk|
      invariant ballots == Ballots(sk[..i], index) && Counts(votes, order, ballots)
    {
      var listed := Listed(index, sk[i]);
      ghost var before := ballots;
      var j := 0;
      while j < |listed|
        invariant 0 <= j <= |listed|
        invariant ballots == before + listed[..j] && Counts(votes, order, ballots)
      {
        var d := listed[j];
        CountOne(votes, order, ballots, d);
        order := if d in votes then order else order + [d];
        votes := votes[d := (if d in votes then votes[d] else 0) + 1];
        ballots := ballots + [d];
        j := j + 1;
      }
      assert listed[..j] == listed && sk[..i + 1][..i] == sk[..i];
      i := i + 1;
    }
    assert sk[..i] == sk;
  }

  lemma CountNone()
    ensures Counts(map[], [], [])
  {}

  /** One step of the scoring loop: a digest outside the store never beats the best so far. */
  lemma ScoreOne(sk: seq<nat>, index: Index, cas: Store, length: nat, votes: map<Digest, nat>, order: seq<Digest>,
          i: nat)
    requires length > 0 && Indexed(index, cas) && Counts(votes, order, Ballots(sk, index)) && i < |order|
    ensures order[i] in votes
    ensures var score := Resemblance(sk, cas, length); var d := order[i]; var best := Best(order[..i], score);
            && (d in cas ==> score(d) == Score(sk, cas[d], votes[d], length))
            && Best(order[..i + 1], score) == if d in cas && score(d) > BestScore(best, score) then Some(d) else best
  {
    var score := Resemblance(sk, cas, length);
    assert order[i] in order;
    VotesAreAgreement(sk, index, cas, order[i]);
    BestScoreNotNegative(order[..i], score);
    assert order[..i + 1][..i] == order[..i];
  }

  /** `_sketch_base` asks the index for candidates, and keeps the best. */
  method SketchBase(sk: seq<nat>, index: Index, cas: Store, length: nat) returns (best: Option<ChunkRef>)
    requires length > 0 && Indexed(index, cas)
    ensures best == SketchPick(sk, index, cas, length)
  {
    hide Counts, Indexed, Best, Score;
    best := None;
    if sk == [] {
      NothingAsked(index, cas, length);
      return;
    }
    var votes, order := Tally(sk, index);
    var bestScore := 0.0;
    ghost var score := Resemblance(sk, cas, length);
    ghost var picked: Option<Digest> := None;
    NothingAsked(index, cas, length);
    var i := 0;
    while i < |order|
      invariant 0 <= i <= |order|
      invariant picked == Best(order[..i], score) && bestScore == BestScore(picked, score)
      invariant best == Fetch(cas, picked)
    {
      var d := order[i];
      ScoreOne(sk, index, cas, length, votes, order, i);
      if d in cas {
        var s := Score(sk, cas[d], votes[d], length);
        if s > bestScore {
          best, bestScore, picked := Some(cas[d]), s, Some(d);
        }
      }
      i := i + 1;
    }
    OrderIsDistinct(votes, order, Ballots(sk, index));
    assert order[..i] == order;
  }

  lemma NothingAsked(index: Index, cas: Store, length: nat)
    requires length > 0
    ensures SketchPick([], index, cas, length) == None
    ensures forall score: Digest -> real :: Best([], score) == None
  {}

  lemma OrderIsDistinct(votes: map<Digest, nat>, order: seq<Digest>, ballots: seq<Digest>)
    requires Counts(votes, order, ballots)
    ensures order == Distinct(ballots)
  {}

  function Fetch(cas: Store, d: Option<Digest>): Option<ChunkRef> {
    if d.Some? && d.value in cas then Some(cas[d.value]) else None
  }

  function SketchPick(sk: seq<nat>, index: Index, cas: Store, length: nat): Option<ChunkRef>
    requires length > 0
  {
    Fetch(cas, Best(Distinct(Ballots(sk, index)), Resemblance(sk, cas, length)))
  }

  lemma {:induction false} BestScoreNotNegative<T>(xs: seq<T>, score: T -> real)
    ensures BestScore(Best(xs, score), score) >= 0.0
  {
    if xs != [] {
      BestScoreNotNegative(xs[..|xs| - 1], score);
    }
  }

  lemma ScoreSign(sk: seq<nat>, ref: ChunkRef, votes: nat, length: nat)
    requires length > 0 && ref.length > 0
    ensures Score(sk, ref, votes, length) >= 0.0 && (Score(sk, ref, votes, length) > 0.0 <==> votes > 0)
  {
    var ratio := Min(ref.length, length) as real / Max(ref.length, length) as real;
    assert ratio > 0.0;
    if votes > 0 {
      assert votes as real * ratio > 0.0;
    }
  }

  /** A stored chunk is a candidate exactly when it shares a feature. */
  lemma CandidateIffAgrees(sk: seq<nat>, index: Index, cas: Store, length: nat, d: Digest)
    requires length > 0 && Indexed(index, cas) && d in cas && cas[d].length > 0
    ensures d in Distinct(Ballots(sk, index)) <==> Agreement(sk, cas[d].feats) > 0
    ensures Resemblance(sk, cas, length)(d) > 0.0 <==> Agreement(sk, cas[d].feats) > 0
  {
    VotesAreAgreement(sk, index, cas, d);
    DistinctIn(Ballots(sk, index), d);
    ScoreSign(sk, cas[d], Agreement(sk, cas[d].feats), length);
  }

  /** Comparing two quotients by cross-multiplication. */
  lemma CrossMultiply(v: real, m: real, n: real, v': real, m': real, n': real)
    requires n > 0.0 && n' > 0.0 && v * (m / n) <= v' * (m' / n')
    ensures v * m * n' <= v' * m' * n
  {
    var q, q' := m / n, m' / n';
    assert m == q * n && m' == q' * n';
    assert (v * q) * (n * n') <= (v' * q') * (n * n');
    assert (v * q) * (n * n') == v * m * n';
    assert (v' * q') * (n * n') == v' * m' * n;
  }

  /** The scaled comparison of two stored chunks, in whole numbers. */
  ghost predicate NoBetter(sk: seq<nat>, length: nat, a: ChunkRef, b: ChunkRef) {
    Agreement(sk, a.feats) * Min(a.length, length) * Max(b.length, length)
    <= Agreement(sk, b.feats) * Min(b.length, length) * Max(a.length, length)
  }

  lemma ScoreIsRatio(sk: seq<nat>, cas: Store, length: nat, a: Digest, b: Digest)
    requires length > 0 && a in cas && b in cas
    requires Resemblance(sk, cas, length)(a) <= Resemblance(sk, cas, length)(b)
    ensures NoBetter(sk, length, cas[a], cas[b])
  {
    hide Agreement;
    var x, y := cas[a], cas[b];
    CrossMultiply(Agreement(sk, x.feats) as real, Min(x.length, length) as real, Max(x.length, length) as real,
                  Agreement(sk, y.feats) as real, Min(y.length, length) as real, Max(y.length, length) as real);
  }

  lemma StrangersScoreNothing(sk: seq<nat>, cas: Store, length: nat, d: Digest)
    requires length > 0
    ensures d !in cas ==> Resemblance(sk, cas, length)(d) == 0.0
  {}

  /**
   Asking the index is as good as searching the whole store: there is a base
   exactly when some stored chunk shares a feature, and then no stored chunk
   shares more features after weighing by the ratio of the smaller to the larger
   of its size and the target's.
   */
  lemma {:induction false} SketchSearchesTheStore(sk: seq<nat>, index: Index, cas: Store, length: nat)
    requires length > 0 && Indexed(index, cas) && forall d :: d in cas ==> cas[d].length > 0
    ensures SketchPick(sk, index, cas, length).None? <==> forall d :: d in cas ==> Agreement(sk, cas[d].feats) == 0
    ensures var pick := SketchPick(sk, index, cas, length);
            pick.Some? ==>
              && (exists d :: d in cas && cas[d] == pick.value)
              && Agreement(sk, pick.value.feats) > 0
              && forall e :: e in cas ==>
                Agreement(sk, cas[e].feats) * Min(cas[e].length, length) * Max(pick.value.length, length)
                <= Agreement(sk, pick.value.feats) * Min(pick.value.length, length) * Max(cas[e].length, length)
  {
    hide Min, Max, Ballots, Distinct, Best, Agreement, Resemblance, Indexed;
    var order, score := Distinct(Ballots(sk, index)), Resemblance(sk, cas, length);
    forall d | d in cas
      ensures (d in order <==> Agreement(sk, cas[d].feats) > 0) && (score(d) > 0.0 <==> Agreement(sk, cas[d].feats) > 0)
    {
      CandidateIffAgrees(sk, index, cas, length, d);
    }
    BestIsFirstHighest(order, score);
    var best := Best(order, score);
    if best.Some? {
      var i: nat :| FirstHighest(order, score, i) && order[i] == best.value;
      StrangersScoreNothing(sk, cas, length, best.value);
      forall e | e in cas ensures NoBetter(sk, length, cas[e], cas[best.value]) {
        if e in order {
          var j :| 0 <= j < |order| && order[j] == e;
        }
        ScoreIsRatio(sk, cas, length, e, best.value);
      }
    }
  }
}
