/**
 Materialising blobs: inodes, hard links and in-place writes.

 `materialize_blob` first tries to link the blob to the output path and copies
 only when that fails, while `out.write_text` rewrites whatever inode the path
 has.  The model keeps paths, blobs and inodes apart, so both branches can be
 compared with the path-to-content view used elsewhere.
 */
module Materialize {
  import opened Actions
  import opened Graph
  import opened Wrappers

  type Inode = nat

  datatype Disk = Disk(content: map<Inode, string>, outs: map<Path, Inode>, blobs: map<Digest, Inode>)

  /** Each operation that creates a file gets an unused inode. */
  datatype Op =
    | WriteText(path: Path, data: string, unused: Inode)
    | StoreBlob(path: Path, unused: Inode)
    | Link(digest: Digest, path: Path)
    | Copy(digest: Digest, path: Path, unused: Inode)
    | Unlink(path: Path)
    | EvictBlob(digest: Digest)

  ghost predicate WellFormed(d: Disk) {
    && (forall p :: p in d.outs ==> d.outs[p] in d.content)
    && (forall g :: g in d.blobs ==> d.blobs[g] in d.content)
  }

  predicate Possible(d: Disk, op: Op) {
    match op
    case WriteText(_, _, i) => i !in d.content
    case StoreBlob(p, i) => p in d.outs && d.outs[p] in d.content && i !in d.content
    case Link(g, _) => g in d.blobs
    case Copy(g, _, i) => g in d.blobs && d.blobs[g] in d.content && i !in d.content
    case Unlink(_) => true
    case EvictBlob(_) => true
  }

  function Do(d: Disk, op: Op): Disk
    requires Possible(d, op)
  {
    match op
    case WriteText(p, data, i) =>
      if p in d.outs then d.(content := d.content[d.outs[p] := data])
      else d.(content := d.content[i := data], outs := d.outs[p := i])
    case StoreBlob(p, i) =>
      var data := d.content[d.outs[p]];
      if Sha(data) in d.blobs then d else d.(content := d.content[i := data], blobs := d.blobs[Sha(data) := i])
    case Link(g, p) => d.(outs := d.outs[p := d.blobs[g]])
    case Copy(g, p, i) => d.(content := d.content[i := d.content[d.blobs[g]]], outs := d.outs[p := i])
    case Unlink(p) => d.(outs := d.outs - {p})
    case EvictBlob(g) => d.(blobs := d.blobs - {g})
  }

  /** Every blob holds the bytes it is named after. */
  ghost predicate Integrity(d: Disk) {
    forall g :: g in d.blobs && d.blobs[g] in d.content ==> Sha(d.content[d.blobs[g]]) == g
  }

  /** No in-place write through this operation reaches a blob with other bytes. */
  predicate SafeWrite(d: Disk, op: Op) {
    op.WriteText? && op.path in d.outs ==>
      forall g :: g in d.blobs && d.blobs[g] == d.outs[op.path] ==> g == Sha(op.data)
  }

  lemma DoWellFormed(d: Disk, op: Op)
    requires WellFormed(d) && Possible(d, op)
    ensures WellFormed(Do(d, op))
  {
  }

  /** One operation keeps the store intact exactly when it is a safe write or no write at all. */
  lemma {:induction false} IntegrityStep(d: Disk, op: Op)
    requires WellFormed(d) && Integrity(d) && Possible(d, op)
    ensures Integrity(Do(d, op)) <==> SafeWrite(d, op)
  {
    var e := Do(d, op);
    if op.WriteText? && op.path in d.outs {
      forall g | g in d.blobs && d.blobs[g] == d.outs[op.path] ensures e.content[e.blobs[g]] == op.data {}
      if Integrity(e) {
        forall g | g in d.blobs && d.blobs[g] == d.outs[op.path] ensures g == Sha(op.data) {
          assert Sha(e.content[e.blobs[g]]) == g;
        }
      }
    }
  }

  // ----- runs ---------------------------------------------------------------------

  ghost predicate Run(ds: seq<Disk>, ops: seq<Op>) {
    |ds| == |ops| + 1 && forall i :: 0 <= i < |ops| ==> RunStep(ds, ops, i)
  }

  ghost predicate RunStep(ds: seq<Disk>, ops: seq<Op>, i: nat)
    requires i < |ops| && i + 1 < |ds|
  {
    Possible(ds[i], ops[i]) && ds[i + 1] == Do(ds[i], ops[i])
  }

  lemma {:induction false} RunWellFormed(ds: seq<Disk>, ops: seq<Op>, i: nat)
    requires Run(ds, ops) && WellFormed(ds[0]) && i < |ds|
    ensures WellFormed(ds[i])
  {
    if i > 0 {
      RunWellFormed(ds, ops, i - 1);
      assert RunStep(ds, ops, i - 1);
      DoWellFormed(ds[i - 1], ops[i - 1]);
    }
  }

  /** A whole run keeps every blob intact exactly when every write in it is safe when it happens. */
  lemma {:induction false} RunIntegrity(ds: seq<Disk>, ops: seq<Op>, n: nat)
    requires Run(ds, ops) && WellFormed(ds[0]) && Integrity(ds[0]) && n < |ds|
    ensures (forall i :: 0 <= i <= n ==> Integrity(ds[i])) <==> (forall i :: 0 <= i < n ==> SafeWrite(ds[i], ops[i]))
  {
    if n > 0 {
      RunIntegrity(ds, ops, n - 1);
      RunWellFormed(ds, ops, n - 1);
      assert RunStep(ds, ops, n - 1);
      if Integrity(ds[n - 1]) {
        IntegrityStep(ds[n - 1], ops[n - 1]);
      }
    }
  }

  // ----- copying ---------------------------------------------------------------------

  /** No two names share an inode. */
  ghost predicate Unshared(d: Disk) {
    && (forall p, q :: p in d.outs && q in d.outs && d.outs[p] == d.outs[q] ==> p == q)
    && (forall g, h :: g in d.blobs && h in d.blobs && d.blobs[g] == d.blobs[h] ==> g == h)
    && (forall p, g :: p in d.outs && g in d.blobs ==> d.outs[p] != d.blobs[g])
  }

  ghost function OutFiles(d: Disk): map<Path, string> {
    map p | p in d.outs && d.outs[p] in d.content :: d.content[d.outs[p]]
  }

  ghost function CasOf(d: Disk): map<Digest, string> {
    map g | g in d.blobs && d.blobs[g] in d.content :: d.content[d.blobs[g]]
  }

  /** The same operation on path-to-content maps. */
  function DoValue(files: map<Path, string>, cas: map<Digest, string>, op: Op): (map<Path, string>, map<Digest, string>)
    requires op.StoreBlob? ==> op.path in files
    requires op.Copy? ==> op.digest in cas
  {
    match op
    case WriteText(p, data, _) => (files[p := data], cas)
    case StoreBlob(p, _) => (files, if Sha(files[p]) in cas then cas else cas[Sha(files[p]) := files[p]])
    case Link(_, _) => (files, cas)
    case Copy(g, p, _) => (files[p := cas[g]], cas)
    case Unlink(p) => (files - {p}, cas)
    case EvictBlob(g) => (files, cas - {g})
  }

  lemma CopyKeepsUnshared(d: Disk, op: Op)
    requires WellFormed(d) && Unshared(d) && Possible(d, op) && !op.Link?
    ensures Unshared(Do(d, op))
  {
  }

  /** Other paths keep their content when an inode that is not theirs is written. */
  lemma WriteValues(d: Disk, p: Path, data: string, i: Inode)
    requires WellFormed(d) && Unshared(d)
    requires i !in d.content || (p in d.outs && i == d.outs[p])
    ensures var e := d.(content := d.content[i := data], outs := d.outs[p := i]);
      OutFiles(e) == OutFiles(d)[p := data] && CasOf(e) == CasOf(d)
  {
    WriteOuts(d, p, data, i);
    WriteCas(d, p, data, i);
  }

  lemma WriteOuts(d: Disk, p: Path, data: string, i: Inode)
    requires WellFormed(d) && Unshared(d)
    requires i !in d.content || (p in d.outs && i == d.outs[p])
    ensures OutFiles(d.(content := d.content[i := data], outs := d.outs[p := i])) == OutFiles(d)[p := data]
  {
    hide CasOf;
    var e := d.(content := d.content[i := data], outs := d.outs[p := i]);
    forall q | q in d.outs && q != p ensures q in OutFiles(e) && OutFiles(e)[q] == OutFiles(d)[q] {
      assert d.outs[q] in d.content && d.outs[q] != i;
    }
    assert OutFiles(e).Keys == OutFiles(d).Keys + {p};
  }

  lemma WriteCas(d: Disk, p: Path, data: string, i: Inode)
    requires WellFormed(d) && Unshared(d)
    requires i !in d.content || (p in d.outs && i == d.outs[p])
    ensures CasOf(d.(content := d.content[i := data], outs := d.outs[p := i])) == CasOf(d)
  {
    hide OutFiles;
    var e := d.(content := d.content[i := data], outs := d.outs[p := i]);
    forall g | g in d.blobs ensures g in CasOf(e) && CasOf(e)[g] == CasOf(d)[g] {
      assert d.blobs[g] in d.content && d.blobs[g] != i;
    }
    assert CasOf(e).Keys == CasOf(d).Keys;
  }

  lemma StoreValues(d: Disk, g: Digest, data: string, i: Inode)
    requires WellFormed(d) && i !in d.content
    ensures var e := d.(content := d.content[i := data], blobs := d.blobs[g := i]);
      OutFiles(e) == OutFiles(d) && CasOf(e) == CasOf(d)[g := data]
  {
  }

  lemma DropValues(d: Disk, p: Path, g: Digest)
    ensures OutFiles(d.(outs := d.outs - {p})) == OutFiles(d) - {p}
    ensures CasOf(d.(blobs := d.blobs - {g})) == CasOf(d) - {g}
  {
  }

  /** As long as blobs are copied, inodes stay unshared and the value view is exact. */
  lemma {:induction false} CopyRefinesValues(d: Disk, op: Op)
    requires WellFormed(d) && Unshared(d) && Possible(d, op) && !op.Link?
    ensures Unshared(Do(d, op))
    ensures op.StoreBlob? ==> op.path in OutFiles(d)
    ensures op.Copy? ==> op.digest in CasOf(d)
    ensures (OutFiles(Do(d, op)), CasOf(Do(d, op))) == DoValue(OutFiles(d), CasOf(d), op)
  {
    CopyKeepsUnshared(d, op);
    match op
    case WriteText(p, data, i) =>
      var j := if p in d.outs then d.outs[p] else i;
      WriteValues(d, p, data, j);
      assert d.outs[p := j] == if p in d.outs then d.outs else d.outs[p := i];
    case StoreBlob(p, i) => StoreValues(d, Sha(d.content[d.outs[p]]), d.content[d.outs[p]], i);
    case Copy(g, p, i) => WriteValues(d, p, d.content[d.blobs[g]], i);
    case Unlink(p) => DropValues(d, p, Sha(""));
    case EvictBlob(g) => DropValues(d, "", g);
  }

  /** Copying alone keeps the store intact, over every run. */
  lemma {:induction false} CopyKeepsIntegrity(ds: seq<Disk>, ops: seq<Op>, n: nat)
    requires Run(ds, ops) && WellFormed(ds[0]) && Unshared(ds[0]) && Integrity(ds[0]) && n < |ds|
    requires forall i :: 0 <= i < |ops| ==> !ops[i].Link?
    ensures Unshared(ds[n]) && Integrity(ds[n])
  {
    if n > 0 {
      CopyKeepsIntegrity(ds, ops, n - 1);
      RunWellFormed(ds, ops, n - 1);
      assert RunStep(ds, ops, n - 1);
      CopyRefinesValues(ds[n - 1], ops[n - 1]);
      IntegrityStep(ds[n - 1], ops[n - 1]);
    }
  }

  // ----- actions on disk ---------------------------------------------------------------

  /** What an action does to the disk when blobs are copied: restore, or write and store, or nothing. */
  function ActionOps(ws: Workspace, w: World, o: Options, n: Name, i: Inode, j: Inode): seq<Op>
    requires KnownDeps(ws, n)
  {
    var out := ws.targets[n].out;
    if IsHit(ws, w, o, n) then [Copy(w.cache[ActionKey(ws, w.files, w.dynamic, o.context, n)], out, i)]
    else
      match Attempt(ws, w, o, n)
      case Ran(data) => [WriteText(out, data, i), StoreBlob(out, j)]
      case _ => []
  }

  /** A disk whose paths and blobs hold what the value view says, with nothing linked. */
  ghost predicate Shows(d: Disk, w: World) {
    WellFormed(d) && Unshared(d) && OutFiles(d) == w.files && CasOf(d) == w.cas
  }

  lemma OneOp(d: Disk, op: Op)
    requires WellFormed(d) && Unshared(d) && Possible(d, op) && !op.Link?
    ensures WellFormed(Do(d, op)) && Unshared(Do(d, op))
    ensures op.StoreBlob? ==> op.path in OutFiles(d)
    ensures op.Copy? ==> op.digest in CasOf(d)
    ensures (OutFiles(Do(d, op)), CasOf(Do(d, op))) == DoValue(OutFiles(d), CasOf(d), op)
  {
    DoWellFormed(d, op);
    CopyRefinesValues(d, op);
  }

  lemma HitOnDisk(ws: Workspace, w: World, o: Options, n: Name, d: Disk, i: Inode) returns (e: Disk)
    requires KnownDeps(ws, n) && Shows(d, w) && i !in d.content && IsHit(ws, w, o, n)
    ensures Run([d, e], ActionOps(ws, w, o, n, i, i)) && Shows(e, ExecuteAction(ws, w, o, n).0)
  {
    hide OutFiles, CasOf, RunAction, Attempt, ActionKey, Unshared;
    var op := ActionOps(ws, w, o, n, i, i)[0];
    BlobThere(d, w, op.digest);
    e := Do(d, op);
    OneOp(d, op);
    assert RunStep([d, e], [op], 0);
  }

  lemma BlobThere(d: Disk, w: World, g: Digest)
    requires Shows(d, w) && g in w.cas
    ensures g in d.blobs && d.blobs[g] in d.content
  {
    assert g in CasOf(d);
  }

  lemma RunOnDisk(ws: Workspace, w: World, o: Options, n: Name, d: Disk, i: Inode, j: Inode)
      returns (m: Disk, e: Disk)
    requires KnownDeps(ws, n) && Shows(d, w) && i !in d.content && j !in d.content && i != j
    requires !IsHit(ws, w, o, n) && Attempt(ws, w, o, n).Ran?
    ensures Run([d, m, e], ActionOps(ws, w, o, n, i, j)) && Shows(e, ExecuteAction(ws, w, o, n).0)
  {
    hide OutFiles, CasOf, RunAction, IsHit, Attempt, ActionKey, Unshared;
    var ops := ActionOps(ws, w, o, n, i, j);
    m := Do(d, ops[0]);
    OneOp(d, ops[0]);
    assert ops[1].path in m.outs && j !in m.content;
    e := Do(m, ops[1]);
    OneOp(m, ops[1]);
    assert RunStep([d, m, e], ops, 0) && RunStep([d, m, e], ops, 1);
  }

  /**
   The value model of `execute_action` is what the copying branch does on disk: a
   hit is one copy, a run is a write and a store, and a failure touches nothing.
   */
  lemma ActionOnDisk(ws: Workspace, w: World, o: Options, n: Name, d: Disk, i: Inode, j: Inode)
      returns (ds: seq<Disk>)
    requires KnownDeps(ws, n) && Shows(d, w) && i !in d.content && j !in d.content && i != j
    ensures Run(ds, ActionOps(ws, w, o, n, i, j)) && ds[0] == d
    ensures Shows(ds[|ds| - 1], ExecuteAction(ws, w, o, n).0)
  {
    hide Shows, RunAction, ActionKey, RunStep;
    if IsHit(ws, w, o, n) {
      var e := HitOnDisk(ws, w, o, n, d, i);
      ds := [d, e];
    } else if Attempt(ws, w, o, n).Ran? {
      var m, e := RunOnDisk(ws, w, o, n, d, i, j);
      ds := [d, m, e];
    } else {
      ds := [d];
    }
  }

  // ----- linking ---------------------------------------------------------------------

  /**
   The linking branch breaks the store: build `v1`, delete the output, restore
   it by a link, rebuild with `v2`.  The blob named after `v1` now holds `v2`,
   and restoring `v1` once more yields `v2`.
   */
  lemma {:induction false} LinkCorruptsBlob(p: Path, v1: string, v2: string)
    requires v1 != v2
    ensures var d0 := Disk(map[], map[], map[]);
      var ops := [WriteText(p, v1, 0), StoreBlob(p, 1), Unlink(p), Link(Sha(v1), p), WriteText(p, v2, 2),
          StoreBlob(p, 2), Unlink(p), Link(Sha(v1), p)];
      exists ds: seq<Disk> :: Run(ds, ops) && ds[0] == d0 && Sha(v1) in ds[8].blobs && !Integrity(ds[8])
        && p in OutFiles(ds[8]) && OutFiles(ds[8])[p] == v2
  {
    var d0 := Disk(map[], map[], map[]);
    var ops := [WriteText(p, v1, 0), StoreBlob(p, 1), Unlink(p), Link(Sha(v1), p), WriteText(p, v2, 2),
        StoreBlob(p, 2), Unlink(p), Link(Sha(v1), p)];
    var g := Sha(v1);
    var d1 := Disk(map[0 := v1], map[p := 0], map[]);
    var d2 := Disk(map[0 := v1, 1 := v1], map[p := 0], map[g := 1]);
    var d3 := d2.(outs := map[]);
    var d4 := d2.(outs := map[p := 1]);
    var d5 := Disk(map[0 := v1, 1 := v2], map[p := 1], map[g := 1]);
    var d6 := Disk(map[0 := v1, 1 := v2, 2 := v2], map[p := 1], map[g := 1, Sha(v2) := 2]);
    var d7 := d6.(outs := map[]);
    LinkFirstHalf(p, v1, d0, d1, d2, d3, d4);
    LinkSecondHalf(p, v1, v2, d4, d5, d6, d7);
    var ds := [d0, d1, d2, d3, d4, d5, d6, d7, d6];
    forall i | 0 <= i < 8 ensures RunStep(ds, ops, i) {}
    assert ds[8] == d6 && d6.content[d6.blobs[g]] == v2;
  }

  lemma LinkFirstHalf(p: Path, v1: string, d0: Disk, d1: Disk, d2: Disk, d3: Disk, d4: Disk)
    requires d0 == Disk(map[], map[], map[]) && d1 == Disk(map[0 := v1], map[p := 0], map[])
    requires d2 == Disk(map[0 := v1, 1 := v1], map[p := 0], map[Sha(v1) := 1])
    requires d3 == d2.(outs := map[]) && d4 == d2.(outs := map[p := 1])
    ensures Possible(d0, WriteText(p, v1, 0)) && d1 == Do(d0, WriteText(p, v1, 0))
    ensures Possible(d1, StoreBlob(p, 1)) && d2 == Do(d1, StoreBlob(p, 1))
    ensures Possible(d2, Unlink(p)) && d3 == Do(d2, Unlink(p))
    ensures Possible(d3, Link(Sha(v1), p)) && d4 == Do(d3, Link(Sha(v1), p))
  {
    assert d2.outs - {p} == map[];
  }

  lemma LinkSecondHalf(p: Path, v1: string, v2: string, d4: Disk, d5: Disk, d6: Disk, d7: Disk)
    requires v1 != v2 && d4 == Disk(map[0 := v1, 1 := v1], map[p := 1], map[Sha(v1) := 1])
    requires d5 == Disk(map[0 := v1, 1 := v2], map[p := 1], map[Sha(v1) := 1])
    requires d6 == Disk(map[0 := v1, 1 := v2, 2 := v2], map[p := 1], map[Sha(v1) := 1, Sha(v2) := 2])
    requires d7 == d6.(outs := map[])
    ensures Possible(d4, WriteText(p, v2, 2)) && d5 == Do(d4, WriteText(p, v2, 2))
    ensures Possible(d5, StoreBlob(p, 2)) && d6 == Do(d5, StoreBlob(p, 2))
    ensures Possible(d6, Unlink(p)) && d7 == Do(d6, Unlink(p))
    ensures Possible(d7, Link(Sha(v1), p)) && d6 == Do(d7, Link(Sha(v1), p))
  {
    assert Sha(v1) != Sha(v2);
    assert d6.outs - {p} == map[];
  }
}
