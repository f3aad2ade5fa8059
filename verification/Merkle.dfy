/**
 The Merkle input tree of `reapi_poc.py`: `collect_input_root` turns a directory
 into a map of content-addressed blobs, `output_file` follows digests back down.

 A `Name` stands for its place in the byte order of encoded names, the order
 the entries of a `Directory` message are sorted by.
 */
module Merkle {
  import opened Graph
  import opened Wrappers

  type Bytes = seq<nat>

  /** The hash names the data, and so fixes its size too. */
  type Digest = Hash<Bytes>

  datatype FileNode = FileNode(name: Name, digest: Digest, isExecutable: bool)
  datatype DirectoryNode = DirectoryNode(name: Name, digest: Digest)

  /** The canonical `Directory` message of Remote Execution API v2. */
  datatype Directory = Directory(files: seq<FileNode>, directories: seq<DirectoryNode>)

  /** Deterministic serialisation and its parser. */
  datatype Codec = Codec(encode: Directory -> Bytes, decode: Bytes -> Option<Directory>)

  ghost predicate Faithful(c: Codec) {
    forall m :: c.decode(c.encode(m)) == Some(m)
  }

  /** What `lstat` finds; `Unsupported` is a symbolic link or a special file. */
  datatype Tree =
    | File(data: Bytes, executable: bool)
    | Dir(entries: map<Name, Tree>)
    | Unsupported

  predicate Supported(t: Tree) {
    match t
    case File(_, _) => true
    case Dir(entries) => forall n :: n in entries ==> Supported(entries[n])
    case Unsupported => false
  }

  // ----- the message of a directory ---------------------------------------------------

  /** The file entries among the names of `s`, in ascending order. */
  ghost function FileNodes(t: Tree, s: set<Name>): seq<FileNode>
    requires t.Dir? && s <= t.entries.Keys
    decreases s
  {
    if s == {} then []
    else
      var x := Least(s);
      var e := t.entries[x];
      (if e.File? then [FileNode(x, Sha(e.data), e.executable)] else []) + FileNodes(t, s - {x})
  }

  ghost function DirectoryNodes(c: Codec, t: Tree, s: set<Name>): seq<DirectoryNode>
    requires t.Dir? && s <= t.entries.Keys
    decreases t, 0, s
  {
    if s == {} then []
    else
      var x := Least(s);
      var e := t.entries[x];
      (if e.Dir? then [DirectoryNode(x, RootDigest(c, e))] else []) + DirectoryNodes(c, t, s - {x})
  }

  ghost function Message(c: Codec, t: Tree): Directory
    requires t.Dir?
    decreases t, 1
  {
    Directory(FileNodes(t, t.entries.Keys), DirectoryNodes(c, t, t.entries.Keys))
  }

  ghost function RootDigest(c: Codec, t: Tree): Digest
    requires t.Dir?
    decreases t, 2
  {
    Sha(c.encode(Message(c, t)))
  }

  /** The messages of a tree's directories, at every depth. */
  ghost function Messages(c: Codec, t: Tree): set<Directory> {
    if t.Dir?
    then {Message(c, t)} + set n, m | n in t.entries && m in Messages(c, t.entries[n]) :: m
    else {}
  }

  /** The data of a tree's files, at every depth. */
  ghost function FileData(t: Tree): set<Bytes> {
    match t
    case File(data, _) => {data}
    case Dir(entries) => set n, b | n in entries && b in FileData(entries[n]) :: b
    case Unsupported => {}
  }

  ghost function Encoded(c: Codec, messages: set<Directory>): set<Bytes> {
    set m | m in messages :: c.encode(m)
  }

  ghost function Contents(c: Codec, t: Tree): set<Bytes> {
    FileData(t) + Encoded(c, Messages(c, t))
  }

  /** `f` is the node of a file entry of `t`. */
  predicate IsFileOf(t: Tree, f: FileNode)
    requires t.Dir?
  {
    f.name in t.entries && t.entries[f.name] == File(f.digest.data, f.isExecutable)
  }

  predicate FilesAscend(nodes: seq<FileNode>) {
    forall i, j :: 0 <= i < j < |nodes| ==> nodes[i].name < nodes[j].name
  }

  predicate DirectoriesAscend(nodes: seq<DirectoryNode>) {
    forall i, j :: 0 <= i < j < |nodes| ==> nodes[i].name < nodes[j].name
  }

  lemma {:induction false} FileNodesAre(t: Tree, s: set<Name>)
    requires t.Dir? && s <= t.entries.Keys
    ensures forall f :: f in FileNodes(t, s) <==> f.name in s && IsFileOf(t, f)
    ensures FilesAscend(FileNodes(t, s))
    decreases s
  {
    if s != {} {
      var x := Least(s);
      var e, rest := t.entries[x], FileNodes(t, s - {x});
      FileNodesAre(t, s - {x});
      assert e.File? ==> e == File(e.data, e.executable);
      forall i | 0 <= i < |rest| ensures x < rest[i].name {
        assert rest[i] in rest;
      }
      var r := FileNodes(t, s);
      assert e.File? ==> forall k :: 1 <= k < |r| ==> r[k] == rest[k - 1];
      forall f ensures f in FileNodes(t, s) <==> f.name in s && IsFileOf(t, f) {
        assert f in FileNodes(t, s) <==> f in rest || (e.File? && f == FileNode(x, Sha(e.data), e.executable));
        assert f.name == x && IsFileOf(t, f) ==> f.digest == Sha(e.data);
      }
    }
  }

  lemma {:induction false} DirectoryNodesAre(c: Codec, t: Tree, s: set<Name>)
    requires t.Dir? && s <= t.entries.Keys
    ensures forall d :: d in DirectoryNodes(c, t, s) <==>
      d.name in s && t.entries[d.name].Dir? && d.digest == RootDigest(c, t.entries[d.name])
    ensures DirectoriesAscend(DirectoryNodes(c, t, s))
    decreases s
  {
    if s != {} {
      hide RootDigest;
      var x := Least(s);
      var e, rest := t.entries[x], DirectoryNodes(c, t, s - {x});
      DirectoryNodesAre(c, t, s - {x});
      forall i | 0 <= i < |rest| ensures x < rest[i].name {
        assert rest[i] in rest;
      }
      var r := DirectoryNodes(c, t, s);
      assert e.Dir? ==> forall k :: 1 <= k < |r| ==> r[k] == rest[k - 1];
    }
  }

  /**
   The message of a directory is canonical: its files and its directories, each once, in ascending order of their
   names, with the digest and the executable bit of the entry.
   */
  lemma MessageIsCanonical(c: Codec, t: Tree)
    requires t.Dir?
    ensures var m := Message(c, t);
      && (forall f :: f in m.files <==> IsFileOf(t, f))
      && (forall d :: d in m.directories <==>
            d.name in t.entries && t.entries[d.name].Dir? && d.digest == RootDigest(c, t.entries[d.name]))
      && FilesAscend(m.files) && DirectoriesAscend(m.directories)
  {
    hide RootDigest, FileNodes, DirectoryNodes;
    FileNodesAre(t, t.entries.Keys);
    DirectoryNodesAre(c, t, t.entries.Keys);
  }

  // ----- collect_input_root -----------------------------------------------------------------

  type Blobs = map<Digest, Bytes>

  ghost predicate Keyed(blobs: Blobs) {
    forall d :: d in blobs ==> d == Sha(blobs[d])
  }

  ghost predicate Stores(blobs: Blobs, contents: set<Bytes>) {
    forall b :: b in contents ==> Sha(b) in blobs
  }

  /** `new` is `blobs` with `contents` added and nothing else. */
  ghost predicate Extends(new_: Blobs, blobs: Blobs, contents: set<Bytes>) {
    && Keyed(new_)
    && forall d :: d in new_ <==> d in blobs || d.data in contents
  }

  /** What the entries named in `s` contribute to the blobs. */
  ghost function ContentsOf(c: Codec, t: Tree, s: set<Name>): set<Bytes>
    requires t.Dir? && s <= t.entries.Keys
  {
    set n, b | n in s && b in Contents(c, t.entries[n]) :: b
  }

  lemma ContentsSplit(c: Codec, t: Tree)
    requires t.Dir?
    ensures Contents(c, t) == {c.encode(Message(c, t))} + ContentsOf(c, t, t.entries.Keys)
  {
    var m := Message(c, t);
    forall b | b in Contents(c, t)
      ensures b in {c.encode(m)} + ContentsOf(c, t, t.entries.Keys)
    {
      if b in FileData(t) {
        var n :| n in t.entries && b in FileData(t.entries[n]);
        assert b in Contents(c, t.entries[n]);
      } else {
        var k :| k in Messages(c, t) && b == c.encode(k);
        if k != m {
          var n :| n in t.entries && k in Messages(c, t.entries[n]);
          assert b in Contents(c, t.entries[n]);
        }
      }
    }
    forall b | b in ContentsOf(c, t, t.entries.Keys) ensures b in Contents(c, t) {
      var n :| n in t.entries && b in Contents(c, t.entries[n]);
      if b !in FileData(t.entries[n]) {
        var k :| k in Messages(c, t.entries[n]) && b == c.encode(k);
        assert k in Messages(c, t);
      }
    }
    assert m in Messages(c, t);
  }

  lemma ContentsGrow(c: Codec, t: Tree, s: set<Name>, n: Name)
    requires t.Dir? && s <= t.entries.Keys && n in t.entries
    ensures ContentsOf(c, t, s + {n}) == ContentsOf(c, t, s) + Contents(c, t.entries[n])
    ensures t.entries[n].File? ==> Contents(c, t.entries[n]) == {t.entries[n].data}
  {
    var e := t.entries[n];
    assert forall b :: b in Contents(c, e) ==> b in ContentsOf(c, t, s + {n});
    if e.File? {
      assert Messages(c, e) == {};
      assert Encoded(c, {}) == {};
    }
  }

  lemma NothingVisited(c: Codec, t: Tree)
    requires t.Dir?
    ensures ContentsOf(c, t, t.entries.Keys - t.entries.Keys) == {}
  {}

  lemma NodesStep(c: Codec, t: Tree, rest: set<Name>, n: Name)
    requires t.Dir? && rest <= t.entries.Keys && IsLeast(n, rest)
    ensures var e := t.entries[n];
            && FileNodes(t, rest)
               == (if e.File? then [FileNode(n, Sha(e.data), e.executable)] else []) + FileNodes(t, rest - {n})
            && DirectoryNodes(c, t, rest)
               == (if e.Dir? then [DirectoryNode(n, RootDigest(c, e))] else []) + DirectoryNodes(c, t, rest - {n})
  {
    assert n == Least(rest);
  }

  lemma MessageDone(c: Codec, t: Tree, message: Directory)
    requires t.Dir?
    requires FileNodes(t, t.entries.Keys) == message.files + FileNodes(t, {})
    requires DirectoryNodes(c, t, t.entries.Keys) == message.directories + DirectoryNodes(c, t, {})
    ensures Sha(c.encode(message)) == RootDigest(c, t)
    ensures Contents(c, t) == {c.encode(message)} + ContentsOf(c, t, t.entries.Keys - {})
  {
    assert message.files + [] == message.files && message.directories + [] == message.directories;
    ContentsSplit(c, t);
    assert t.entries.Keys - {} == t.entries.Keys;
  }

  /** `blobs` is the map that the nested `add` and `visit` update. */
  class Collector {
    const codec: Codec
    var blobs: Blobs

    constructor (codec: Codec)
      ensures this.codec == codec && blobs == map[]
    {
      this.codec := codec;
      blobs := map[];
    }

    method Add(data: Bytes) returns (d: Digest)
      requires Keyed(blobs)
      modifies this
      ensures d == Sha(data) && Extends(blobs, old(blobs), {data})
    {
      d := Sha(data);
      blobs := blobs[d := data];
    }

    /** `None` stands for the `ValueError`. */
    method Visit(t: Tree) returns (r: Option<Digest>)
      requires t.Dir? && Keyed(blobs)
      modifies this
      ensures Keyed(blobs) && old(blobs).Keys <= blobs.Keys
      ensures r.Some? <==> Supported(t)
      ensures r.Some? ==> r.value == RootDigest(codec, t) && Extends(blobs, old(blobs), Contents(codec, t))
      decreases t
    {
      hide FileNodes, DirectoryNodes, ContentsOf, Contents, RootDigest, Message;
      var message := Directory([], []);
      var names := t.entries.Keys;
      var rest := names;
      NothingVisited(codec, t);
      while rest != {}
        invariant rest <= names
        invariant Extends(blobs, old(blobs), ContentsOf(codec, t, names - rest))
        invariant forall n :: n in names - rest ==> Supported(t.entries[n])
        invariant FileNodes(t, names) == message.files + FileNodes(t, rest)
        invariant DirectoryNodes(codec, t, names) == message.directories + DirectoryNodes(codec, t, rest)
        decreases rest
      {
        LeastExists(rest);
        var n :| IsLeast(n, rest);
        NodesStep(codec, t, rest, n);
        match t.entries[n] {
          case Unsupported =>
            return None;
          case File(data, executable) =>
            var d := Add(data);
            message := message.(files := message.files + [FileNode(n, d, executable)]);
          case Dir(_) =>
            var d := Visit(t.entries[n]);
            if d.None? {
              return None;
            }
            message := message.(directories := message.directories + [DirectoryNode(n, d.value)]);
        }
        ContentsGrow(codec, t, names - rest, n);
        assert names - (rest - {n}) == names - rest + {n};
        rest := rest - {n};
      }
      MessageDone(codec, t, message);
      var d := Add(codec.encode(message));
      r := Some(d);
    }
  }

  /**
   `collect_input_root`: the root digest and the map of every blob of the tree, or no result if it
   is not supported.
   */
  method CollectInputRoot(c: Codec, t: Tree) returns (r: Option<(Digest, Blobs)>)
    requires t.Dir?
    ensures r.Some? <==> Supported(t)
    ensures r.Some? ==> r.value.0 == RootDigest(c, t) && IsInputRoot(c, t, r.value.1)
  {
    var collector := new Collector(c);
    var d := collector.Visit(t);
    r := if d.Some? then Some((d.value, collector.blobs)) else None;
  }

  /** Exactly the tree's contents, each under its own digest. */
  ghost predicate IsInputRoot(c: Codec, t: Tree, blobs: Blobs) {
    Extends(blobs, map[], Contents(c, t))
  }

  // ----- following digests -----------------------------------------------------------------------

  /** Every digest a message mentions is in the map. */
  ghost predicate Mentions(blobs: Blobs, m: Directory) {
    && (forall i :: 0 <= i < |m.files| ==> m.files[i].digest in blobs)
    && (forall i :: 0 <= i < |m.directories| ==> m.directories[i].digest in blobs)
  }

  /** A directory's message lists its files and its directories, and nothing else. */
  lemma {:induction false} NodesAre(c: Codec, t: Tree, s: set<Name>)
    requires t.Dir? && s <= t.entries.Keys
    ensures forall f :: f in FileNodes(t, s) <==>
              && f.name in s && t.entries[f.name].File?
              && f == FileNode(f.name, Sha(t.entries[f.name].data), t.entries[f.name].executable)
    ensures forall d :: d in DirectoryNodes(c, t, s) <==>
              && d.name in s && t.entries[d.name].Dir?
              && d == DirectoryNode(d.name, RootDigest(c, t.entries[d.name]))
    decreases s
  {
    if s != {} {
      NodesAre(c, t, s - {Least(s)});
    }
  }

  /** The digest of some directory of the tree. */
  ghost predicate IsDirectoryDigest(c: Codec, t: Tree, d: Digest) {
    exists k :: k in Messages(c, t) && d == Sha(c.encode(k))
  }

  lemma MessageDeeper(c: Codec, t: Tree, n: Name, d: Digest)
    requires t.Dir? && n in t.entries
    ensures t.entries[n].Dir? ==> IsDirectoryDigest(c, t.entries[n], RootDigest(c, t.entries[n]))
    ensures IsDirectoryDigest(c, t.entries[n], d) ==> IsDirectoryDigest(c, t, d)
  {
    var e := t.entries[n];
    if e.Dir? {
      assert Message(c, e) in Messages(c, e);
    }
    if IsDirectoryDigest(c, e, d) {
      var k :| k in Messages(c, e) && d == Sha(c.encode(k));
      assert k in Messages(c, t);
    }
  }

  lemma {:induction false} MessageIn(c: Codec, t: Tree, m: Directory)
    requires t.Dir? && m in Messages(c, t)
    ensures forall f :: f in m.files ==> f.digest.data in FileData(t)
    ensures forall d :: d in m.directories ==> IsDirectoryDigest(c, t, d.digest)
    decreases t
  {
    if m == Message(c, t) {
      NodesAre(c, t, t.entries.Keys);
      forall f | f in m.files ensures f.digest.data in FileData(t) {
        assert f.digest.data in FileData(t.entries[f.name]);
      }
      forall d | d in m.directories ensures IsDirectoryDigest(c, t, d.digest) {
        MessageDeeper(c, t, d.name, d.digest);
      }
    } else {
      var n :| n in t.entries && m in Messages(c, t.entries[n]);
      MessageIn(c, t.entries[n], m);
      forall d | d in m.directories ensures IsDirectoryDigest(c, t, d.digest) {
        MessageDeeper(c, t, n, d.digest);
      }
    }
  }

  /** The blob map is closed: it parses back every directory of the tree, and holds every digest those mention. */
  lemma {:induction false} BlobsAreClosed(c: Codec, t: Tree, blobs: Blobs, m: Directory)
    requires Faithful(c) && t.Dir? && IsInputRoot(c, t, blobs) && m in Messages(c, t)
    ensures var d := Sha(c.encode(m)); d in blobs && c.decode(blobs[d]) == Some(m)
    ensures Mentions(blobs, m)
  {
    MessageIn(c, t, m);
    var contents := Contents(c, t);
    forall k | k in Messages(c, t) ensures Sha(c.encode(k)) in blobs {
      assert c.encode(k) in Encoded(c, Messages(c, t));
    }
    forall i | 0 <= i < |m.directories| ensures m.directories[i].digest in blobs {
      assert m.directories[i] in m.directories;
    }
    forall i | 0 <= i < |m.files| ensures m.files[i].digest in blobs {
      assert m.files[i] in m.files;
    }
  }

  // ----- output_file: walking down by digests -----------------------------------------------------

  function FindDirectory(nodes: seq<DirectoryNode>, name: Name): (r: Option<DirectoryNode>)
    ensures r.None? ==> forall d :: d in nodes ==> d.name != name
    ensures r.Some? ==> r.value in nodes && r.value.name == name
  {
    if nodes == [] then None
    else if nodes[0].name == name then Some(nodes[0])
    else FindDirectory(nodes[1..], name)
  }

  function FindFile(nodes: seq<FileNode>, name: Name): (r: Option<FileNode>)
    ensures r.None? ==> forall f :: f in nodes ==> f.name != name
    ensures r.Some? ==> r.value in nodes && r.value.name == name
  {
    if nodes == [] then None
    else if nodes[0].name == name then Some(nodes[0])
    else FindFile(nodes[1..], name)
  }

  /** The directory at a path, as the file system has it. */
  function DirectoryAt(t: Tree, path: seq<Name>): (r: Option<Tree>)
    ensures r.Some? ==> r.value.Dir?
  {
    if !t.Dir? then None
    else if path == [] then Some(t)
    else if path[0] in t.entries then DirectoryAt(t.entries[path[0]], path[1..])
    else None
  }

  function FileAt(t: Tree, path: seq<Name>, name: Name): Option<Tree> {
    match DirectoryAt(t, path)
    case None => None
    case Some(d) => if name in d.entries && d.entries[name].File? then Some(d.entries[name]) else None
  }

  /** Going one name down finds the node exactly when there is such a directory, with its digest. */
  lemma StepDown(c: Codec, t: Tree, name: Name)
    requires t.Dir?
    ensures var node := FindDirectory(Message(c, t).directories, name);
            && (node.Some? <==> name in t.entries && t.entries[name].Dir?)
            && (node.Some? ==> node.value.digest == RootDigest(c, t.entries[name]))
  {
    NodesAre(c, t, t.entries.Keys);
    var node := FindDirectory(Message(c, t).directories, name);
    if name in t.entries && t.entries[name].Dir? {
      assert DirectoryNode(name, RootDigest(c, t.entries[name])) in Message(c, t).directories;
    }
  }

  lemma StepToFile(c: Codec, t: Tree, name: Name)
    requires t.Dir?
    ensures var node := FindFile(Message(c, t).files, name);
            && (node.Some? <==> name in t.entries && t.entries[name].File?)
            && (node.Some? ==> node.value.digest == Sha(t.entries[name].data))
  {
    NodesAre(c, t, t.entries.Keys);
    if name in t.entries && t.entries[name].File? {
      var e := t.entries[name];
      assert FileNode(name, Sha(e.data), e.executable) in Message(c, t).files;
    }
  }

  lemma {:induction false} DirectoryAtSnoc(t: Tree, path: seq<Name>, i: nat)
    requires i < |path|
    ensures DirectoryAt(t, path[..i + 1])
         == match DirectoryAt(t, path[..i])
            case None => None
            case Some(d) => if path[i] in d.entries then DirectoryAt(d.entries[path[i]], []) else None
    ensures DirectoryAt(t, path[..i]).None? ==> DirectoryAt(t, path).None?
    decreases path
  {
    if i == 0 {
      assert path[..1][1..] == [];
    } else if t.Dir? && path[0] in t.entries {
      DirectoryAtSnoc(t.entries[path[0]], path[1..], i - 1);
      assert path[1..][..i] == path[..i + 1][1..] && path[1..][..i - 1] == path[..i][1..];
    }
  }

  lemma {:induction false} MessagesBelow(c: Codec, t: Tree, path: seq<Name>)
    requires DirectoryAt(t, path).Some?
    ensures Message(c, DirectoryAt(t, path).value) in Messages(c, t)
    decreases path
  {
    if path != [] {
      MessagesBelow(c, t.entries[path[0]], path[1..]);
    }
  }

  /** A `Tree` message of the tree: its root, and among the children every directory. */
  ghost predicate Describes(c: Codec, t: Tree, root: Directory, children: seq<Directory>) {
    && t.Dir? && root == Message(c, t)
    && forall m :: m in Messages(c, t) ==> m == root || m in children
  }

  /**
   `output_file`, for any component path and file name: it returns the file at
   that path with its digest, and fails exactly when there is none or its data
   is not stored.
   */
  method OutputFile(c: Codec, root: Directory, children: seq<Directory>, blobs: Blobs, components: seq<Name>,
          name: Name, ghost t: Tree)
      returns (r: Option<(Digest, Bytes)>)
    requires Faithful(c) && Describes(c, t, root, children) && Keyed(blobs)
    ensures r == match FileAt(t, components, name)
                 case None => None
                 case Some(file) => if Sha(file.data) in blobs then Some((Sha(file.data), file.data)) else None
  {
    var byDigest: map<Digest, Directory> := map[];
    var all := [root] + children;
    var k := 0;
    while k < |all|
      invariant 0 <= k <= |all|
      invariant forall j :: 0 <= j < k ==> Sha(c.encode(all[j])) in byDigest
      invariant forall d :: d in byDigest ==> d == Sha(c.encode(byDigest[d]))
    {
      byDigest := byDigest[Sha(c.encode(all[k])) := all[k]];
      k := k + 1;
    }
    var current := root;
    var i := 0;
    while i < |components|
      invariant 0 <= i <= |components|
      invariant DirectoryAt(t, components[..i]).Some?
      invariant current == Message(c, DirectoryAt(t, components[..i]).value)
    {
      ghost var here := DirectoryAt(t, components[..i]).value;
      DirectoryAtSnoc(t, components, i);
      StepDown(c, here, components[i]);
      var node := FindDirectory(current.directories, components[i]);
      if node.None? {
        NoSuchDirectory(t, components, i);
        return None;
      }
      ghost var below := here.entries[components[i]];
      MessagesBelow(c, t, components[..i + 1]);
      KnownByDigest(c, all, byDigest, Message(c, below));
      current := byDigest[node.value.digest];
      i := i + 1;
    }
    assert components[..i] == components;
    StepToFile(c, DirectoryAt(t, components).value, name);
    var node := FindFile(current.files, name);
    if node.None? || node.value.digest !in blobs {
      return None;
    }
    r := Some((node.value.digest, blobs[node.value.digest]));
  }

  lemma NoSuchDirectory(t: Tree, path: seq<Name>, i: nat)
    requires i < |path| && DirectoryAt(t, path[..i + 1]).None?
    ensures DirectoryAt(t, path).None?
  {
    if i + 1 < |path| {
      DirectoryAtSnoc(t, path, i + 1);
    } else {
      assert path[..i + 1] == path;
    }
  }

  /** Serialisation and hashing lose nothing, so the directory found under a digest is the one that was put there. */
  lemma KnownByDigest(c: Codec, all: seq<Directory>, byDigest: map<Digest, Directory>, m: Directory)
    requires Faithful(c) && m in all
    requires forall j :: 0 <= j < |all| ==> Sha(c.encode(all[j])) in byDigest
    requires forall d :: d in byDigest ==> d == Sha(c.encode(byDigest[d]))
    ensures Sha(c.encode(m)) in byDigest && byDigest[Sha(c.encode(m))] == m
  {
    var d := Sha(c.encode(m));
    assert c.decode(c.encode(m)) == Some(m);
    assert c.decode(c.encode(byDigest[d])) == Some(byDigest[d]);
  }

  // ----- rebuilding the tree -------------------------------------------------------------------------

  function RebuildFiles(blobs: Blobs, nodes: seq<FileNode>): Option<map<Name, Tree>> {
    if nodes == [] then Some(map[])
    else if nodes[0].digest !in blobs then None
    else
      match RebuildFiles(blobs, nodes[1..])
      case None => None
      case Some(m) => Some(m[nodes[0].name := File(blobs[nodes[0].digest], nodes[0].isExecutable)])
  }

  function RebuildDirectories(c: Codec, blobs: Blobs, nodes: seq<DirectoryNode>, depth: nat): Option<map<Name, Tree>>
    decreases depth, 1, nodes
  {
    if nodes == [] then Some(map[])
    else
      match (Rebuild(c, blobs, nodes[0].digest, depth), RebuildDirectories(c, blobs, nodes[1..], depth))
      case (Some(t), Some(m)) => Some(m[nodes[0].name := t])
      case _ => None
  }

  /** The tree under a digest, from the blobs alone, down to `depth` levels of directories. */
  function Rebuild(c: Codec, blobs: Blobs, d: Digest, depth: nat): Option<Tree>
    decreases depth, 0
  {
    if depth == 0 || d !in blobs then None
    else
      match c.decode(blobs[d])
      case None => None
      case Some(m) =>
        match (RebuildFiles(blobs, m.files), RebuildDirectories(c, blobs, m.directories, depth - 1))
        case (Some(files), Some(directories)) => Some(Dir(files + directories))
        case _ => None
  }

  ghost function Deepest(t: Tree, s: set<Name>): (h: nat)
    requires t.Dir? && s <= t.entries.Keys
    ensures forall n :: n in s ==> Depth(t.entries[n]) <= h
    decreases t, 0, s
  {
    if s == {} then 0
    else
      var x := Least(s);
      var a, b := Depth(t.entries[x]), Deepest(t, s - {x});
      if a > b then a else b
  }

  ghost function Depth(t: Tree): nat
    decreases t, 1
  {
    if t.Dir? then 1 + Deepest(t, t.entries.Keys) else 0
  }

  /** The file entries among the names of `s`. */
  ghost function FilesIn(t: Tree, s: set<Name>): map<Name, Tree>
    requires t.Dir? && s <= t.entries.Keys
  {
    map n | n in s && t.entries[n].File? :: t.entries[n]
  }

  ghost function DirectoriesIn(t: Tree, s: set<Name>): map<Name, Tree>
    requires t.Dir? && s <= t.entries.Keys
  {
    map n | n in s && t.entries[n].Dir? :: t.entries[n]
  }

  lemma OneMore(t: Tree, s: set<Name>, x: Name)
    requires t.Dir? && s <= t.entries.Keys && x in s
    ensures var e := t.entries[x];
            && FilesIn(t, s) == (if e.File? then FilesIn(t, s - {x})[x := e] else FilesIn(t, s - {x}))
            && DirectoriesIn(t, s) == (if e.Dir? then DirectoriesIn(t, s - {x})[x := e] else DirectoriesIn(t, s - {x}))
  {}

  lemma EntriesIn(t: Tree)
    requires t.Dir?
    ensures FilesIn(t, {}) == map[] && DirectoriesIn(t, {}) == map[]
    ensures Supported(t) ==> FilesIn(t, t.entries.Keys) + DirectoriesIn(t, t.entries.Keys) == t.entries
  {
    if Supported(t) {
      forall n | n in t.entries ensures t.entries[n].File? || t.entries[n].Dir? {
        assert Supported(t.entries[n]);
      }
      assert FilesIn(t, t.entries.Keys) + DirectoriesIn(t, t.entries.Keys) == t.entries;
    }
  }

  lemma {:induction false} FilesBack(t: Tree, s: set<Name>, blobs: Blobs)
    requires t.Dir? && s <= t.entries.Keys && Keyed(blobs) && Stores(blobs, FileData(t))
    ensures RebuildFiles(blobs, FileNodes(t, s)) == Some(FilesIn(t, s))
    decreases s
  {
    hide FilesIn;
    if s == {} {
      EntriesIn(t);
    } else {
      var x := Least(s);
      var e := t.entries[x];
      FilesBack(t, s - {x}, blobs);
      OneMore(t, s, x);
      if e.File? {
        assert e.data in FileData(e);
        assert FileNodes(t, s)[1..] == FileNodes(t, s - {x});
        assert Sha(e.data) in blobs && blobs[Sha(e.data)] == e.data;
      } else {
        assert FileNodes(t, s) == FileNodes(t, s - {x});
      }
    }
  }

  lemma StoresBelow(c: Codec, t: Tree, n: Name, blobs: Blobs)
    requires t.Dir? && n in t.entries && Stores(blobs, Contents(c, t))
    ensures Stores(blobs, Contents(c, t.entries[n]))
  {
    ContentsSplit(c, t);
    forall b | b in Contents(c, t.entries[n]) ensures Sha(b) in blobs {
      assert b in ContentsOf(c, t, t.entries.Keys);
    }
  }

  lemma {:induction false} DirectoriesBack(c: Codec, t: Tree, s: set<Name>, blobs: Blobs, depth: nat)
    requires Faithful(c) && t.Dir? && Supported(t) && s <= t.entries.Keys
    requires Keyed(blobs) && Stores(blobs, Contents(c, t)) && Deepest(t, s) <= depth
    ensures RebuildDirectories(c, blobs, DirectoryNodes(c, t, s), depth)
         == Some(DirectoriesIn(t, s))
    decreases t, 0, s
  {
    hide DirectoriesIn, Contents;
    if s == {} {
      EntriesIn(t);
    } else {
      var x := Least(s);
      var e := t.entries[x];
      DirectoriesBack(c, t, s - {x}, blobs, depth);
      OneMore(t, s, x);
      if e.Dir? {
        StoresBelow(c, t, x, blobs);
        TreeBack(c, e, blobs, depth);
        assert DirectoryNodes(c, t, s)[1..] == DirectoryNodes(c, t, s - {x});
      } else {
        assert DirectoryNodes(c, t, s) == DirectoryNodes(c, t, s - {x});
      }
    }
  }

  /** Merkle round trip: the blobs under the root digest rebuild the same tree. */
  lemma {:induction false} TreeBack(c: Codec, t: Tree, blobs: Blobs, depth: nat)
    requires Faithful(c) && t.Dir? && Supported(t)
    requires Keyed(blobs) && Stores(blobs, Contents(c, t)) && Depth(t) <= depth
    ensures Rebuild(c, blobs, RootDigest(c, t), depth) == Some(t)
    decreases t, 1
  {
    hide FilesIn, DirectoriesIn, RebuildFiles, RebuildDirectories, FileNodes, DirectoryNodes;
    ContentsSplit(c, t);
    assert c.decode(blobs[RootDigest(c, t)]) == Some(Message(c, t));
    FilesBack(t, t.entries.Keys, blobs);
    DirectoriesBack(c, t, t.entries.Keys, blobs, depth - 1);
    EntriesIn(t);
  }

  /** What `collect_input_root` returns is enough to rebuild its argument. */
  lemma {:induction false} InputRootRebuilds(c: Codec, t: Tree, blobs: Blobs, depth: nat)
    requires Faithful(c) && t.Dir? && Supported(t) && IsInputRoot(c, t, blobs) && Depth(t) <= depth
    ensures Rebuild(c, blobs, RootDigest(c, t), depth) == Some(t)
  {
    TreeBack(c, t, blobs, depth);
  }

  ghost function BlobsOf(contents: set<Bytes>): (blobs: Blobs)
    ensures Keyed(blobs) && Stores(blobs, contents)
  {
    var digests := set b | b in contents :: Sha(b);
    map d | d in digests :: d.data
  }

  /** Two trees have the same root digest exactly when they are the same tree. */
  lemma {:induction false} RootDigestIdentifies(c: Codec, t: Tree, u: Tree)
    requires Faithful(c) && t.Dir? && u.Dir? && Supported(t) && Supported(u)
    ensures RootDigest(c, t) == RootDigest(c, u) <==> t == u
  {
    if RootDigest(c, t) == RootDigest(c, u) {
      var blobs := BlobsOf(Contents(c, t) + Contents(c, u));
      TreeBack(c, t, blobs, Depth(t) + Depth(u));
      TreeBack(c, u, blobs, Depth(t) + Depth(u));
    }
  }
}
