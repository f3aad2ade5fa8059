/**
 `cas_gc`: the content store is trimmed to a byte budget, least recently used
 blobs first.
 */
module CasGc {
  import opened Graph

  /** What `stat` says about a blob file; blobs are named by numbers in the order of their paths. */
  datatype Stat = Stat(accessed: nat, modified: nat, size: nat)

  type Blobs = map<Name, Stat>

  datatype Report = Report(removed: nat, bytesBefore: nat, bytesAfter: int)

  /** The order of the sorted tuples: last access, then modification, then path. */
  predicate Older(blobs: Blobs, a: Name, b: Name)
    requires a in blobs && b in blobs
  {
    var s, t := blobs[a], blobs[b];
    s.accessed < t.accessed ||
    (s.accessed == t.accessed && (s.modified < t.modified || (s.modified == t.modified && a < b)))
  }

  predicate IsOldest(blobs: Blobs, s: set<Name>, a: Name)
    requires s <= blobs.Keys
  {
    a in s && forall b :: b in s && b != a ==> Older(blobs, a, b)
  }

  lemma {:induction false} OldestExists(blobs: Blobs, s: set<Name>)
    requires s <= blobs.Keys && s != {}
    ensures exists a :: IsOldest(blobs, s, a)
  {
    var x :| x in s;
    var rest := s - {x};
    assert forall y :: y in s ==> y == x || y in rest;
    if rest == {} {
      assert IsOldest(blobs, s, x);
    } else {
      OldestExists(blobs, rest);
      var z :| IsOldest(blobs, rest, z);
      assert IsOldest(blobs, s, if Older(blobs, x, z) then x else z);
    }
  }

  ghost function Bytes(blobs: Blobs, s: set<Name>): nat
    requires s <= blobs.Keys
  {
    if s == {} then 0 else var n := Least(s); blobs[n].size + Bytes(blobs, s - {n})
  }

  lemma {:induction false} BytesWithout(blobs: Blobs, s: set<Name>, n: Name)
    requires s <= blobs.Keys && n in s
    ensures Bytes(blobs, s) == blobs[n].size + Bytes(blobs, s - {n})
    decreases s
  {
    var m := Least(s);
    if m != n {
      BytesWithout(blobs, s - {m}, n);
      assert s - {m} - {n} == s - {n} - {m};
      BytesWithout(blobs, s - {n}, m);
    }
  }

  method TotalBytes(blobs: Blobs) returns (total: nat)
    ensures total == Bytes(blobs, blobs.Keys)
  {
    total := 0;
    var rest := blobs.Keys;
    while rest != {}
      invariant rest <= blobs.Keys && total + Bytes(blobs, rest) == Bytes(blobs, blobs.Keys)
      decreases rest
    {
      var n :| n in rest;
      BytesWithout(blobs, rest, n);
      total := total + blobs[n].size;
      rest := rest - {n};
    }
  }

  /** Everything older than a removed blob has been removed too. */
  ghost predicate IsPrefix(blobs: Blobs, removed: set<Name>) {
    removed <= blobs.Keys && forall r, k :: r in removed && k in blobs && k !in removed ==> Older(blobs, r, k)
  }

  ghost predicate IsNewest(blobs: Blobs, removed: set<Name>, newest: Name)
    requires removed <= blobs.Keys
  {
    newest in removed && forall r :: r in removed && r != newest ==> Older(blobs, r, newest)
  }

  /** Nothing was removed without need: with its newest member back, the rest would be over budget. */
  ghost predicate IsNeeded(blobs: Blobs, removed: set<Name>, budget: int) {
    removed <= blobs.Keys &&
    (removed == {} || exists newest :: IsNewest(blobs, removed, newest)
                                     && Bytes(blobs, blobs.Keys - removed) + blobs[newest].size > budget)
  }

  lemma RemoveOldest(blobs: Blobs, removed: set<Name>, budget: int, oldest: Name)
    requires IsPrefix(blobs, removed) && IsOldest(blobs, blobs.Keys - removed, oldest)
    requires Bytes(blobs, blobs.Keys - removed) > budget
    ensures var more := removed + {oldest};
            && more <= blobs.Keys && oldest !in removed && IsPrefix(blobs, more) && IsNeeded(blobs, more, budget)
            && Bytes(blobs, blobs.Keys - removed) == blobs[oldest].size + Bytes(blobs, blobs.Keys - more)
            && Bytes(blobs, more) == Bytes(blobs, removed) + blobs[oldest].size
  {
    var more, kept := removed + {oldest}, blobs.Keys - removed;
    BytesWithout(blobs, kept, oldest);
    assert kept - {oldest} == blobs.Keys - more;
    BytesWithout(blobs, more, oldest);
    assert more - {oldest} == removed;
    assert IsNewest(blobs, more, oldest);
  }

  /**
   `cas_gc` with no other process deleting blobs: the files it unlinks.  Afterwards the store is
   within budget, what went is the least recently used part and no more than
   needed, and bytes are accounted for.  A budget of zero or less switches it off.
   */
  method Collect(blobs: Blobs, budget: int) returns (removed: set<Name>, report: Report)
    ensures removed <= blobs.Keys
    ensures forall r, k :: r in removed && k in blobs && k !in removed ==>
              && blobs[r].accessed <= blobs[k].accessed
              && (blobs[r].accessed == blobs[k].accessed ==> blobs[r].modified <= blobs[k].modified)
              && (blobs[r].accessed == blobs[k].accessed && blobs[r].modified == blobs[k].modified ==> r < k)
    ensures budget <= 0 ==> removed == {} && report == Report(0, 0, 0)
    ensures budget > 0 ==>
              && report == Report(|removed|, Bytes(blobs, blobs.Keys), Bytes(blobs, blobs.Keys - removed))
              && report.bytesBefore == report.bytesAfter + Bytes(blobs, removed)
              && report.bytesAfter <= budget && IsNeeded(blobs, removed, budget)
  {
    removed := {};
    if budget <= 0 {
      NothingRemoved(blobs, budget);
      return {}, Report(0, 0, 0);
    }
    hide Bytes, IsOldest, Older, IsPrefix, IsNeeded;
    var before := TotalBytes(blobs);
    var total, count := before, 0;
    var left := blobs.Keys;
    NothingRemoved(blobs, budget);
    while left != {}
      invariant removed <= blobs.Keys && IsPrefix(blobs, removed) && left == blobs.Keys - removed && count == |removed|
      invariant total == Bytes(blobs, left) && before == total + Bytes(blobs, removed)
      invariant IsNeeded(blobs, removed, budget)
      decreases left
    {
      if total <= budget {
        break;
      }
      OldestExists(blobs, left);
      var oldest :| IsOldest(blobs, left, oldest);
      OldestIsIn(blobs, left, oldest);
      RemoveOldest(blobs, removed, budget, oldest);
      assert left - {oldest} == blobs.Keys - (removed + {oldest});
      left := left - {oldest};
      total := total - blobs[oldest].size;
      count := count + 1;
      removed := removed + {oldest};
    }
    NothingRemoved(blobs, budget);
    OldestWent(blobs, removed);
    report := Report(count, before, total);
  }

  /** A prefix of the order, field by field. */
  lemma OldestWent(blobs: Blobs, removed: set<Name>)
    requires IsPrefix(blobs, removed)
    ensures forall r, k :: r in removed && k in blobs && k !in removed ==>
              && blobs[r].accessed <= blobs[k].accessed
              && (blobs[r].accessed == blobs[k].accessed ==> blobs[r].modified <= blobs[k].modified)
              && (blobs[r].accessed == blobs[k].accessed && blobs[r].modified == blobs[k].modified ==> r < k)
  {}

  lemma NothingRemoved(blobs: Blobs, budget: int)
    ensures Bytes(blobs, {}) == 0 && IsPrefix(blobs, {}) && IsNeeded(blobs, {}, budget)
  {}

  lemma OldestIsIn(blobs: Blobs, s: set<Name>, a: Name)
    requires s <= blobs.Keys && IsOldest(blobs, s, a)
    ensures a in s
  {}
}
