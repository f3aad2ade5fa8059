/**
 The FastCDC 2020 chunker: the two-bytes-per-step boundary search against the
 one-byte rolling hash, and what the chunk list promises.
 */
module FastCdc {
  import opened Numbers
  import opened Words
  import opened Wrappers

  type Byte = b: nat | b < 256

  const TABLE_SIZE: nat := 256

  /** The parameters of a chunker; `gear` is the byte table, `maskS` and `maskL` come from the mask table. */
  datatype Config = Config(avg: nat, min: nat, max: nat, maskS: nat, maskL: nat, seed: nat, gear: seq<nat>)

  ghost predicate Tables(c: Config) {
    |c.gear| == TABLE_SIZE
  }

  /** Masks without the top bit: shifting one left loses nothing. */
  ghost predicate NarrowMasks(c: Config) {
    c.maskS < TOP && c.maskL < TOP
  }

  /** `n & ~1` */
  function Even(n: nat): (e: nat)
    ensures e % 2 == 0 && e <= n <= e + 1
  {
    n - n % 2
  }

  // ----- the one-byte form ---------------------------------------------------------

  /** `h = 2h + (G[b] ^ seed) mod 2^64` */
  function Step(c: Config, h: nat, b: Byte): nat
    requires Tables(c)
  {
    Wrap(2 * h + Xor(c.gear[b], c.seed))
  }

  datatype Scan = Cut(at: nat) | Through(h: nat)

  /** Hash bytes `a .. limit` one at a time, stopping where the mask selects only zero bits. */
  function ScanBytes(c: Config, mask: nat, buf: seq<Byte>, h: nat, a: nat, limit: nat): (r: Scan)
    requires Tables(c) && limit <= |buf|
    ensures r.Cut? ==> a <= r.at < limit
    decreases limit - a
  {
    if a >= limit then Through(h)
    else
      var next := Step(c, h, buf[a]);
      if And(next, mask) == 0 then Cut(a) else ScanBytes(c, mask, buf, next, a + 1, limit)
  }

  /** The chunk length at the start of `buf`. */
  function Boundary(c: Config, buf: seq<Byte>): (r: nat)
    requires Tables(c)
    ensures r <= |buf|
  {
    if |buf| <= c.min then |buf|
    else
      var n := Min(|buf|, c.max);
      var center := Min(n, c.avg);
      match ScanBytes(c, c.maskS, buf, 0, Even(c.min), Even(center))
      case Cut(at) => at
      case Through(h) =>
        match ScanBytes(c, c.maskL, buf, h, Even(center), Even(n))
        case Cut(at) => at
        case Through(_) => n
  }

  // ----- where the cut is, without the scans --------------------------------------------

  /** The rolling hash over a byte string. */
  function Roll(c: Config, h: nat, bytes: seq<Byte>): nat
    requires Tables(c)
    decreases |bytes|
  {
    if |bytes| == 0 then h else Roll(c, Step(c, h, bytes[0]), bytes[1..])
  }

  lemma {:induction false} RollAppend(c: Config, h: nat, bytes: seq<Byte>, b: Byte)
    requires Tables(c)
    ensures Roll(c, h, bytes + [b]) == Step(c, Roll(c, h, bytes), b)
    decreases |bytes|
  {
    hide Step;
    if |bytes| == 0 {
      assert bytes + [b] == [b] && [b][1..] == [];
    } else {
      assert (bytes + [b])[1..] == bytes[1..] + [b];
      RollAppend(c, Step(c, h, bytes[0]), bytes[1..], b);
    }
  }

  /** Each byte's word, with one doubling for every byte after it. */
  function WordSum(c: Config, bytes: seq<Byte>): nat
    requires Tables(c)
  {
    if |bytes| == 0 then 0
    else Pow2(|bytes| - 1) * Xor(c.gear[bytes[0]], c.seed) + WordSum(c, bytes[1..])
  }

  /** The hash in closed form: the seeded words of the bytes as digits, the last byte's lowest, modulo 2^64. */
  lemma {:induction false} RollIsWordSum(c: Config, h: nat, bytes: seq<Byte>)
    requires Tables(c) && h < M64
    ensures Roll(c, h, bytes) == Wrap(Pow2(|bytes|) * h + WordSum(c, bytes))
    decreases |bytes|
  {
    hide Xor, Pow2;
    if |bytes| == 0 {
      WrapSmall(h);
    } else {
      Pow2Succ(|bytes|);
      RollIsWordSum(c, Step(c, h, bytes[0]), bytes[1..]);
      RollDigit(Pow2(|bytes| - 1), h, Xor(c.gear[bytes[0]], c.seed), WordSum(c, bytes[1..]));
    }
  }

  lemma WrapSmall(h: nat)
    requires h < M64
    ensures Wrap(Pow2(0) * h) == h
  {
    assert Pow2(0) == 1;
  }

  /** Reducing one factor before multiplying and adding changes nothing. */
  lemma RollDigit(p: nat, h: nat, x: nat, v: nat)
    ensures Wrap(p * Wrap(2 * h + x) + v) == Wrap((2 * p) * h + (p * x + v))
  {
    var u := 2 * h + x;
    var q := u / M64;
    assert p * u == (2 * p) * h + p * x;
    assert p * u == p * Wrap(u) + (p * q) * M64 by {
      assert u == Wrap(u) + q * M64;
      assert p * (q * M64) == (p * q) * M64;
    }
    ModPlusMultiple(p * Wrap(u) + v, p * q, M64);
  }

  /** The hash of the bytes from `lo` up to and including byte `a` has no bit of the mask. */
  predicate Passes(c: Config, mask: nat, buf: seq<Byte>, lo: nat, a: nat)
    requires Tables(c) && lo <= a < |buf|
  {
    And(Roll(c, 0, buf[lo..a + 1]), mask) == 0
  }

  /** It passes the mask that applies at `a`: the strict one before the center, the loose one from there on. */
  predicate Hit(c: Config, buf: seq<Byte>, lo: nat, center: nat, a: nat)
    requires Tables(c) && lo <= a < |buf|
  {
    Passes(c, if a < center then c.maskS else c.maskL, buf, lo, a)
  }

  /**
   `r` is where a chunk ends: at the first byte, from the minimum on, at which the hash passes the strict mask
   before the average size or the loose one from there on, and at the maximum or the end when there is none.
   */
  ghost predicate IsCut(c: Config, buf: seq<Byte>, r: nat)
    requires Tables(c)
  {
    if |buf| <= c.min then r == |buf|
    else
      var n := Min(|buf|, c.max);
      var center := Even(Min(n, c.avg));
      var lo := Min(Even(c.min), center);
      || (lo <= r < Even(n) && Hit(c, buf, lo, center, r) && forall a :: lo <= a < r ==> !Hit(c, buf, lo, center, a))
      || (r == n && forall a :: lo <= a < Even(n) ==> !Hit(c, buf, lo, center, a))
  }

  /** One scan stops at the first byte that passes, and otherwise hands on the hash of all it has seen. */
  lemma {:induction false} ScanStopsAtFirst(c: Config, mask: nat, buf: seq<Byte>, lo: nat, h: nat, a: nat, limit: nat)
    requires Tables(c) && lo <= a && limit <= |buf| && (a <= limit ==> h == Roll(c, 0, buf[lo..a]))
    ensures match ScanBytes(c, mask, buf, h, a, limit)
      case Cut(at) =>
        Passes(c, mask, buf, lo, at) && forall k :: a <= k < at ==> !Passes(c, mask, buf, lo, k)
      case Through(h1) =>
        && (if a <= limit then h1 == Roll(c, 0, buf[lo..limit]) else h1 == h)
        && forall k :: a <= k < limit ==> !Passes(c, mask, buf, lo, k)
    decreases limit - a
  {
    hide And, Step;
    if a < limit {
      var next := Step(c, h, buf[a]);
      RollAppend(c, 0, buf[lo..a], buf[a]);
      assert buf[lo..a] + [buf[a]] == buf[lo..a + 1];
      assert And(next, mask) == 0 <==> Passes(c, mask, buf, lo, a);
      if And(next, mask) != 0 {
        ScanStopsAtFirst(c, mask, buf, lo, next, a + 1, limit);
      }
    }
  }

  /** The boundary is the cut, for every setting and input. */
  lemma BoundaryIsCut(c: Config, buf: seq<Byte>, r: nat)
    requires Tables(c)
    ensures IsCut(c, buf, r) <==> r == Boundary(c, buf)
  {
    hide Hit, Boundary;
    BoundaryCuts(c, buf);
  }

  lemma BoundaryCuts(c: Config, buf: seq<Byte>)
    requires Tables(c)
    ensures IsCut(c, buf, Boundary(c, buf))
  {
    hide Passes, ScanBytes;
    if |buf| > c.min {
      var n := Min(|buf|, c.max);
      var center := Even(Min(n, c.avg));
      var lo := Min(Even(c.min), center);
      RollNothing(c, buf[lo..lo]);
      if lo < center {
        ScanStopsAtFirst(c, c.maskS, buf, lo, 0, lo, center);
      } else {
        ScanNothing(c, c.maskS, buf, Even(c.min), center);
      }
      var first := ScanBytes(c, c.maskS, buf, 0, Even(c.min), center);
      if first.Through? {
        ScanStopsAtFirst(c, c.maskL, buf, lo, first.h, center, Even(n));
      }
    }
  }

  lemma ScanNothing(c: Config, mask: nat, buf: seq<Byte>, a: nat, limit: nat)
    requires Tables(c) && limit <= |buf| && limit <= a
    ensures ScanBytes(c, mask, buf, 0, a, limit) == Through(0)
  {
  }

  lemma RollNothing(c: Config, bytes: seq<Byte>)
    requires Tables(c) && bytes == []
    ensures Roll(c, 0, bytes) == 0
  {
  }

  // ----- two bytes at a time ---------------------------------------------------------------

  /** Two steps of the one-byte scan. */
  lemma TwoSteps(c: Config, mask: nat, buf: seq<Byte>, h: nat, a: nat, limit: nat)
    requires Tables(c) && a + 1 < limit <= |buf|
    ensures var h1 := Step(c, h, buf[a]); var h2 := Step(c, h1, buf[a + 1]);
      ScanBytes(c, mask, buf, h, a, limit) ==
      if And(h1, mask) == 0 then Cut(a)
      else if And(h2, mask) == 0 then Cut(a + 1)
      else ScanBytes(c, mask, buf, h2, a + 2, limit)
  {
    hide And, Step;
    var h1 := Step(c, h, buf[a]);
    assert ScanBytes(c, mask, buf, h1, a + 1, limit) ==
      if And(Step(c, h1, buf[a + 1]), mask) == 0 then Cut(a + 1)
      else ScanBytes(c, mask, buf, Step(c, h1, buf[a + 1]), a + 2, limit);
  }

  /** The doubled hash after the first byte, and the plain hash after the second. */
  lemma TwoByteStep(c: Config, h: nat, b0: Byte, b1: Byte)
    requires Tables(c)
    ensures var h1 := Step(c, h, b0); var twice := Wrap(4 * h + Xor(Wrap(2 * c.gear[b0]), Wrap(2 * c.seed)));
      && twice == Wrap(2 * h1)
      && Wrap(twice + Xor(c.gear[b1], c.seed)) == Step(c, h1, b1)
  {
    hide Xor;
    ShiftedStep(h, c.gear[b0], c.seed);
    WrapAdd(Xor(c.gear[b1], c.seed), 2 * Step(c, h, b0));
  }

  // ----- the two-byte form -----------------------------------------------------------

  class FastCdcChunker {
    const c: Config
    const maskSLs: nat
    const maskLLs: nat
    const seedLs: nat
    const gearLs: seq<nat>

    ghost predicate Valid() {
      && Tables(c) && NarrowMasks(c)
      && maskSLs == Wrap(2 * c.maskS) && maskLLs == Wrap(2 * c.maskL) && seedLs == Wrap(2 * c.seed)
      && |gearLs| == TABLE_SIZE && forall i :: 0 <= i < TABLE_SIZE ==> gearLs[i] == Wrap(2 * c.gear[i])
    }

    /** `avg` must be `2^bits`; both mask indices must lie in the table. */
    constructor (avg: nat, bits: nat, normalization: nat, seed: nat, min: Option<nat>, max: Option<nat>,
            masks: seq<nat>, gear: seq<nat>)
      requires bits + normalization <= 25 && bits >= normalization + 5
      requires |masks| > 25 && |gear| == TABLE_SIZE && forall m :: m in masks ==> m < TOP
      ensures Valid()
      ensures c == Config(avg, if min.Some? then min.value else avg / 4, if max.Some? then max.value else avg * 4,
                          masks[bits + normalization], masks[bits - normalization], seed, gear)
    {
      assert masks[bits + normalization] in masks && masks[bits - normalization] in masks;
      c := Config(avg, if min.Some? then min.value else avg / 4, if max.Some? then max.value else avg * 4,
                  masks[bits + normalization], masks[bits - normalization], seed, gear);
      maskSLs := Wrap(2 * masks[bits + normalization]);
      maskLLs := Wrap(2 * masks[bits - normalization]);
      seedLs := Wrap(2 * seed);
      gearLs := seq(TABLE_SIZE, i requires 0 <= i < TABLE_SIZE => Wrap(2 * gear[i]));
    }

    /** One of the two loops of `_boundary`: two bytes per iteration on the doubled tables. */
    method TwoByteScan(maskLs: nat, mask: nat, buf: seq<Byte>, off: nat, length: nat, h0: nat, lo: nat,
            hi: nat) returns (r: Scan)
      requires Valid() && off + length <= |buf| && hi <= length && lo % 2 == 0 && hi % 2 == 0
      requires mask < TOP && maskLs == Wrap(2 * mask)
      ensures r == ScanBytes(c, mask, buf[off..off + length], h0, lo, hi)
    {
      hide Xor, And, Step, Wrap;
      ghost var view := buf[off..off + length];
      var h: nat := h0;
      var a: nat := lo;
      while a < hi
        invariant lo <= a && a % 2 == 0 && (a <= hi || a == lo)
        invariant ScanBytes(c, mask, view, h0, lo, hi) == ScanBytes(c, mask, view, h, a, hi)
        decreases hi - a
      {
        assert view[a] == buf[off + a] && view[a + 1] == buf[off + a + 1];
        ghost var h1 := Step(c, h, view[a]);
        TwoSteps(c, mask, view, h, a, hi);
        TwoByteStep(c, h, view[a], view[a + 1]);
        NarrowTest(h1, mask);
        h := Wrap(4 * h + Xor(gearLs[buf[off + a]], seedLs));
        if And(h, maskLs) == 0 {
          return Cut(a);
        }
        h := Wrap(h + Xor(c.gear[buf[off + a + 1]], c.seed));
        if And(h, mask) == 0 {
          return Cut(a + 1);
        }
        a := a + 2;
      }
      r := Through(h);
    }

    /** `_boundary` finds the boundary of the one-byte rolling hash, for every buffer, offset and length. */
    method FindBoundary(buf: seq<Byte>, off: nat, length: nat) returns (r: nat)
      requires Valid() && off + length <= |buf|
      ensures IsCut(c, buf[off..off + length], r) && r == Boundary(c, buf[off..off + length])
    {
      BoundaryIsCut(c, buf[off..off + length], Boundary(c, buf[off..off + length]));
      hide IsCut;
      if length <= c.min {
        return length;
      }
      var n := Min(length, c.max);
      var center := Min(n, c.avg);
      var first := TwoByteScan(maskSLs, c.maskS, buf, off, length, 0, Even(c.min), Even(center));
      match first {
        case Cut(at) => return at;
        case Through(h) =>
          var second := TwoByteScan(maskLLs, c.maskL, buf, off, length, h, Even(center), Even(n));
          match second {
            case Cut(at) => return at;
            case Through(_) => return n;
          }
      }
    }

    /** `chunk`: the spans of the whole input, in order. */
    method Chunk(data: seq<Byte>) returns (spans: seq<(nat, nat)>)
      requires Valid() && Progresses(c)
      ensures spans == Spans(c, data, 0)
    {
      hide Boundary, Progresses;
      var off: nat := 0;
      spans := [];
      while off < |data|
        invariant off <= |data|
        invariant Spans(c, data, 0) == spans + Spans(c, data[off..], off)
        decreases |data| - off
      {
        var ln := FindBoundary(data, off, |data| - off);
        assert data[off..off + (|data| - off)] == data[off..];
        SpansUnfold(c, data[off..], off);
        assert data[off..][ln..] == data[off + ln..];
        spans := spans + [(off, ln)];
        off := off + ln;
      }
    }
  }

  /** The first span of a non-empty rest. */
  lemma SpansUnfold(c: Config, rest: seq<Byte>, off: nat)
    requires Tables(c) && Progresses(c) && |rest| > 0
    ensures 0 < Boundary(c, rest) <= |rest|
    ensures var ln := Boundary(c, rest); Spans(c, rest, off) == [(off, ln)] + Spans(c, rest[ln..], off + ln)
  {
    hide Boundary;
    BoundaryProgress(c, rest);
  }

  // ----- progress and bounds ------------------------------------------------------------

  /** The settings under which every chunk of a non-empty input is non-empty. */
  predicate Progresses(c: Config) {
    c.min >= 2 && c.max >= 1 && c.avg >= 2
  }

  lemma BoundaryProgress(c: Config, buf: seq<Byte>)
    requires Tables(c) && Progresses(c) && |buf| > 0
    ensures 0 < Boundary(c, buf) <= |buf|
  {
  }

  /**
   When the search returns zero, on which `chunk` would never advance: the
   settings must let it look at byte zero, and the hash must hit there.
   */
  lemma {:induction false} ZeroBoundary(c: Config, buf: seq<Byte>)
    requires Tables(c) && |buf| > 0 && c.avg >= 2
    ensures Boundary(c, buf) == 0 <==>
      |buf| > c.min && (c.max == 0 || (c.min < 2 && Min(|buf|, c.max) >= 2 && And(Step(c, 0, buf[0]), c.maskS) == 0))
  {
  }

  /**
   Whatever the tables hold, with no minimum size some seed stalls on some input: the seed that is the
   table's word for the first byte, on any input of two bytes or more that starts with it.
   */
  lemma StallingSeed(c: Config, buf: seq<Byte>)
    requires Tables(c) && c.min < 2 && c.max >= 2 && c.avg >= 2 && |buf| >= 2
    requires c.seed == c.gear[buf[0]]
    ensures Boundary(c, buf) == 0
  {
    XorSelf(c.seed);
    AndZero(c.maskS);
    assert Step(c, 0, buf[0]) == 0;
    ZeroBoundary(c, buf);
  }

  ghost predicate Ordered(c: Config) {
    c.min <= c.avg && c.min <= c.max
  }

  /**
   Below `min` the rest is one chunk; above it a chunk has at least `min` (rounded down to even) and
   at most `max` bytes.
   */
  lemma {:induction false} BoundaryBounds(c: Config, buf: seq<Byte>)
    requires Tables(c) && Ordered(c)
    ensures |buf| <= c.min ==> Boundary(c, buf) == |buf|
    ensures |buf| > c.min ==> Even(c.min) <= Boundary(c, buf) <= Min(|buf|, c.max)
  {
    EvenMonotone(c.min, Min(Min(|buf|, c.max), c.avg));
  }

  lemma EvenMonotone(a: nat, b: nat)
    ensures a <= b ==> Even(a) <= Even(b)
  {
  }

  /** The chunk list of `rest`, which starts at offset `off`. */
  function Spans(c: Config, rest: seq<Byte>, off: nat): seq<(nat, nat)>
    requires Tables(c) && Progresses(c)
    decreases |rest|
  {
    if |rest| == 0 then []
    else
      BoundaryProgress(c, rest);
      var ln := Boundary(c, rest);
      [(off, ln)] + Spans(c, rest[ln..], off + ln)
  }

  /** Consecutive spans touch, the first starts at `off` and the last ends at `end`. */
  ghost predicate Tiles(spans: seq<(nat, nat)>, off: nat, end: nat) {
    if |spans| == 0 then off == end
    else spans[0].0 == off && spans[0].1 > 0 && Tiles(spans[1..], off + spans[0].1, end)
  }

  ghost predicate SpanSize(c: Config, spans: seq<(nat, nat)>, i: nat)
    requires i < |spans|
  {
    1 <= spans[i].1 <= c.max && (i + 1 < |spans| ==> Even(c.min) <= spans[i].1)
  }

  /**
   The chunks tile the input; all but the last have between `min` (rounded down to even) and `max`
   bytes, the last between 1 and `max`.
   */
  lemma {:induction false} SpansTile(c: Config, rest: seq<Byte>, off: nat)
    requires Tables(c) && Progresses(c) && Ordered(c)
    ensures Tiles(Spans(c, rest, off), off, off + |rest|)
    ensures forall i :: 0 <= i < |Spans(c, rest, off)| ==> SpanSize(c, Spans(c, rest, off), i)
    decreases |rest|
  {
    hide Boundary;
    if |rest| > 0 {
      BoundaryProgress(c, rest);
      BoundaryBounds(c, rest);
      var ln := Boundary(c, rest);
      var tail := Spans(c, rest[ln..], off + ln);
      var all := Spans(c, rest, off);
      SpansTile(c, rest[ln..], off + ln);
      assert all == [(off, ln)] + tail && all[1..] == tail;
      forall i | 0 <= i < |all| ensures SpanSize(c, all, i) {
        if i > 0 {
          assert SpanSize(c, tail, i - 1);
        } else if |all| > 1 {
          assert |rest| > c.min;
        }
      }
    }
  }

  /** Every chunk ends at the cut of what is left where it starts. */
  lemma {:induction false} SpansAreCuts(c: Config, rest: seq<Byte>, off: nat, i: nat)
    requires Tables(c) && Progresses(c) && i < |Spans(c, rest, off)|
    ensures var (at, ln) := Spans(c, rest, off)[i]; off <= at <= off + |rest| && IsCut(c, rest[at - off..], ln)
    decreases |rest|
  {
    hide Boundary, IsCut, Spans;
    SpansEmpty(c, rest, off);
    SpansUnfold(c, rest, off);
    var ln := Boundary(c, rest);
    if i == 0 {
      BoundaryIsCut(c, rest, ln);
      assert rest[0..] == rest;
    } else {
      SpansAreCuts(c, rest[ln..], off + ln, i - 1);
      var at := Spans(c, rest, off)[i].0;
      assert rest[ln..][at - (off + ln)..] == rest[at - off..];
    }
  }

  lemma SpansEmpty(c: Config, rest: seq<Byte>, off: nat)
    requires Tables(c) && Progresses(c)
    ensures |rest| == 0 ==> Spans(c, rest, off) == []
  {}

  // ----- appending ---------------------------------------------------------------------

  lemma {:induction false} ScanPrefix(c: Config, mask: nat, buf: seq<Byte>, more: seq<Byte>, h: nat, a: nat, limit: nat)
    requires Tables(c) && limit <= |buf|
    ensures ScanBytes(c, mask, buf + more, h, a, limit) == ScanBytes(c, mask, buf, h, a, limit)
    decreases limit - a
  {
    if a < limit {
      ScanPrefix(c, mask, buf, more, Step(c, h, buf[a]), a + 1, limit);
    }
  }

  /** A chunk with `max` bytes in sight does not look further. */
  lemma BoundaryPrefix(c: Config, buf: seq<Byte>, more: seq<Byte>)
    requires Tables(c) && Ordered(c) && |buf| >= c.max
    ensures Boundary(c, buf + more) == Boundary(c, buf)
  {
    var center := Min(c.max, c.avg);
    if |buf| > c.min {
      ScanPrefix(c, c.maskS, buf, more, 0, Even(c.min), Even(center));
      var r := ScanBytes(c, c.maskS, buf, 0, Even(c.min), Even(center));
      if r.Through? {
        ScanPrefix(c, c.maskL, buf, more, r.h, Even(center), Even(c.max));
      }
    }
  }

  /**
   Prefix stability: appending bytes leaves unchanged every chunk that starts at least `max` bytes
   before the old end.
   */
  lemma {:induction false} PrefixStability(c: Config, data: seq<Byte>, more: seq<Byte>, off: nat, k: nat)
    requires Tables(c) && Progresses(c) && Ordered(c)
    requires k < |Spans(c, data, off)| && Spans(c, data, off)[k].0 + c.max <= off + |data|
    ensures k < |Spans(c, data + more, off)| && Spans(c, data + more, off)[k] == Spans(c, data, off)[k]
    decreases |data|
  {
    hide Boundary;
    BoundaryProgress(c, data);
    var ln := Boundary(c, data);
    if k > 0 {
      SpanStarts(c, data[ln..], off + ln, k - 1);
    }
    BoundaryPrefix(c, data, more);
    BoundaryProgress(c, data + more);
    assert (data + more)[ln..] == data[ln..] + more;
    if k > 0 {
      PrefixStability(c, data[ln..], more, off + ln, k - 1);
    }
  }

  lemma {:induction false} SpanStarts(c: Config, rest: seq<Byte>, off: nat, k: nat)
    requires Tables(c) && Progresses(c) && k < |Spans(c, rest, off)|
    ensures off <= Spans(c, rest, off)[k].0 < off + |rest|
    decreases |rest|
  {
    hide Boundary;
    BoundaryProgress(c, rest);
    if k > 0 {
      var ln := Boundary(c, rest);
      SpanStarts(c, rest[ln..], off + ln, k - 1);
    }
  }

  // ----- resynchronisation --------------------------------------------------------------

  /** Once a chunk starts where `z` starts, the remaining chunks are those of `z`. */
  lemma {:induction false} CutThenSuffix(c: Config, x: seq<Byte>, z: seq<Byte>, off: nat, k: nat)
    requires Tables(c) && Progresses(c)
    requires k < |Spans(c, x + z, off)| && Spans(c, x + z, off)[k].0 == off + |x|
    ensures Spans(c, x + z, off)[k..] == Spans(c, z, off + |x|)
    decreases |x| + |z|, k
  {
    hide Boundary;
    var d := x + z;
    BoundaryProgress(c, d);
    var ln := Boundary(c, d);
    if k == 0 {
      assert |x| == 0 && d == z;
    } else {
      SpanStarts(c, d[ln..], off + ln, k - 1);
      assert ln <= |x|;
      assert d[ln..] == x[ln..] + z;
      CutThenSuffix(c, x[ln..], z, off + ln, k - 1);
      assert Spans(c, d, off)[k..] == Spans(c, d[ln..], off + ln)[k - 1..];
    }
  }

  lemma {:induction false} SpansShift(c: Config, z: seq<Byte>, a: nat, b: nat, i: nat)
    requires Tables(c) && Progresses(c)
    ensures |Spans(c, z, a)| == |Spans(c, z, b)|
    ensures i < |Spans(c, z, a)| ==>
      Spans(c, z, a)[i].1 == Spans(c, z, b)[i].1 && Spans(c, z, a)[i].0 + b == Spans(c, z, b)[i].0 + a
    decreases |z|
  {
    hide Boundary;
    if |z| > 0 {
      BoundaryProgress(c, z);
      var ln := Boundary(c, z);
      SpansShift(c, z[ln..], a + ln, b + ln, if i > 0 then i - 1 else 0);
    }
  }

  /** The same chunk, once its offset is moved by `to - from`. */
  predicate Moved(a: (nat, nat), from: nat, b: (nat, nat), to: nat) {
    a.1 == b.1 && a.0 + to == b.0 + from
  }

  /**
   Resynchronisation: when the chunkings of `x + z` and `y + z` both cut at the
   start of `z`, all later chunks coincide up to the shift of their offsets.
   */
  lemma {:induction false} Resynchronise(c: Config, x: seq<Byte>, y: seq<Byte>, z: seq<Byte>, j: nat, k: nat, i: nat)
    requires Tables(c) && Progresses(c)
    requires j < |Spans(c, x + z, 0)| && Spans(c, x + z, 0)[j].0 == |x|
    requires k < |Spans(c, y + z, 0)| && Spans(c, y + z, 0)[k].0 == |y|
    ensures |Spans(c, x + z, 0)| - j == |Spans(c, y + z, 0)| - k
    ensures j + i < |Spans(c, x + z, 0)| ==> Moved(Spans(c, x + z, 0)[j + i], |x|, Spans(c, y + z, 0)[k + i], |y|)
  {
    hide Boundary, Spans;
    SpansShift(c, z, |x|, |y|, i);
    TailOfCut(c, x, z, j, i);
    TailOfCut(c, y, z, k, i);
  }

  lemma TailOfCut(c: Config, x: seq<Byte>, z: seq<Byte>, j: nat, i: nat)
    requires Tables(c) && Progresses(c)
    requires j < |Spans(c, x + z, 0)| && Spans(c, x + z, 0)[j].0 == |x|
    ensures |Spans(c, x + z, 0)| - j == |Spans(c, z, |x|)|
    ensures j + i < |Spans(c, x + z, 0)| ==> Spans(c, x + z, 0)[j + i] == Spans(c, z, |x|)[i]
  {
    hide Boundary, Spans;
    CutThenSuffix(c, x, z, 0, j);
    var a, b := Spans(c, x + z, 0), Spans(c, z, |x|);
    assert a[j..] == b;
    assert j + i < |a| ==> a[j + i] == a[j..][i];
  }

  // ----- the 64-byte window ---------------------------------------------------------------

  /** `a` and `b` have the same low digits, up to a factor of `p`. */
  ghost predicate Agree(a: nat, b: nat, p: nat) {
    exists t: int :: Apart(a, b, p, t)
  }

  predicate Apart(a: int, b: int, p: nat, t: int) {
    a - b == t * p
  }

  /** One step shifts the difference up by a digit; what leaves the word is a multiple of 2^64. */
  lemma AgreeStep(a: nat, b: nat, x: nat, p: nat, r: nat)
    requires Agree(a, b, p) && p * (2 * r) == M64
    ensures Agree(Wrap(2 * a + x), Wrap(2 * b + x), 2 * p)
  {
    var t :| Apart(a, b, p, t);
    var u, v := 2 * a + x, 2 * b + x;
    var s: int := u / M64 - v / M64;
    assert Wrap(u) - Wrap(v) == (u - v) - s * M64;
    assert u - v == t * (2 * p);
    assert s * M64 == (s * r) * (2 * p) by {
      assert (s * r) * (2 * p) == s * (p * (2 * r));
    }
    assert (t - s * r) * (2 * p) == t * (2 * p) - (s * r) * (2 * p);
    assert Apart(Wrap(u), Wrap(v), 2 * p, t - s * r);
  }

  lemma AgreeWholeWord(a: nat, b: nat)
    requires a < M64 && b < M64 && Agree(a, b, M64)
    ensures a == b
  {
    var t :| Apart(a, b, M64, t);
    assert t >= 1 ==> t * M64 >= M64;
    assert t <= -1 ==> t * M64 + M64 <= 0;
  }

  /** Two states that agree on their low `k` digits agree on `|bytes|` more after the same bytes. */
  lemma {:induction false} StatesConverge(c: Config, a: nat, b: nat, bytes: seq<Byte>, k: nat)
    requires Tables(c) && k <= 64 && a < M64 && b < M64 && Agree(a, b, Pow2(k))
    ensures k + |bytes| >= 64 ==> Roll(c, a, bytes) == Roll(c, b, bytes)
    decreases |bytes|
  {
    hide Pow2, Xor, Agree;
    Pow2Table();
    if k == 64 {
      AgreeWholeWord(a, b);
    } else if |bytes| > 0 {
      Pow2Add(k, 64 - k);
      Pow2Succ(64 - k);
      Pow2Succ(k + 1);
      AgreeStep(a, b, Xor(c.gear[bytes[0]], c.seed), Pow2(k), Pow2(63 - k));
      StatesConverge(c, Step(c, a, bytes[0]), Step(c, b, bytes[0]), bytes[1..], k + 1);
    }
  }

  /** The hash forgets everything but the last 64 bytes: from any two states it agrees after the same 64 or more. */
  lemma {:induction false} WindowIs64Bytes(c: Config, a: nat, b: nat, bytes: seq<Byte>)
    requires Tables(c) && |bytes| >= 64 && a < M64 && b < M64
    ensures Roll(c, a, bytes) == Roll(c, b, bytes)
  {
    assert Apart(a, b, Pow2(0), a - b);
    StatesConverge(c, a, b, bytes, 0);
  }
}
