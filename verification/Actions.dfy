/**
 Workspaces, action keys and `execute_action`.

 A digest is modelled as a collision-free tag around the bytes it names.  What a
 workspace renders from a payload, and which paths it finds in the `READ` lines
 of a source, are arbitrary functions, so nothing below depends on how outputs
 are printed or those lines are parsed.
 */
module Actions {
  import opened Graph
  import opened SourceText
  import opened Wrappers

  type Path = string
  type Files = map<Path, string>

  type Digest = Hash<string>

  datatype Target = Target(
    kind: string,
    src: Path,
    deps: seq<Name>,
    out: Path,
    declaredInputs: set<Path>,
    sandbox: bool,
    command: seq<string>)

  /**
   `payload` of `execute_action`, with the preview of each dependency's output
   that is printed after it.  Dependencies are printed in the order of their
   names, so the multiset says as much.
   */
  datatype Payload = Payload(
    target: Name,
    kind: string,
    src: Path,
    srcHash: Digest,
    deps: multiset<(Name, Digest, string)>,
    toolchain: string,
    result: string)

  /** `envKeys` is the whitelist of environment variables. */
  datatype Workspace = Workspace(targets: map<Name, Target>, toolchain: string, envKeys: set<string>,
          render: Payload -> string, readLines: string -> set<Path>)

  /** Sources without `READ` lines. */
  function NoReads(text: string): set<Path> {
    {}
  }

  function DepGraph(ws: Workspace): Graph {
    map n | n in ws.targets :: Elems(ws.targets[n].deps)
  }

  ghost predicate DistinctOuts(ws: Workspace) {
    forall a, b :: a in ws.targets && b in ws.targets && ws.targets[a].out == ws.targets[b].out ==> a == b
  }

  /** `_validate` checks that every dependency is defined, and not that outputs are distinct; see module `Manifests`. */
  ghost predicate ValidManifest(ws: Workspace) {
    Closed(DepGraph(ws)) && DistinctOuts(ws)
  }

  // ----- action keys --------------------------------------------------------

  datatype FileDigest = Present(digest: Digest) | MissingSrc | MissingInput | MissingOut

  function Entry(files: Files, p: Path, missing: FileDigest): (Path, FileDigest) {
    (p, if p in files then Present(Sha(files[p])) else missing)
  }

  type DynamicDeps = map<Name, set<Path>>

  predicate KnownDeps(ws: Workspace, n: Name) {
    n in ws.targets && forall d :: d in ws.targets[n].deps ==> d in ws.targets
  }

  function ExtraInputs(ws: Workspace, dynamic: DynamicDeps, n: Name): set<Path>
    requires n in ws.targets
  {
    ws.targets[n].declaredInputs + if n in dynamic then dynamic[n] else {}
  }

  /** `declared_input_set` */
  function Declared(ws: Workspace, dynamic: DynamicDeps, n: Name): set<Path>
    requires KnownDeps(ws, n)
  {
    {ws.targets[n].src} + ExtraInputs(ws, dynamic, n) + set d | d in ws.targets[n].deps :: ws.targets[d].out
  }

  function DepEntries(ws: Workspace, files: Files, deps: seq<Name>): seq<(Path, FileDigest)>
    requires forall d :: d in deps ==> d in ws.targets
  {
    seq(|deps|, i requires 0 <= i < |deps| => Entry(files, ws.targets[deps[i]].out, MissingOut))
  }

  function ExtraEntries(files: Files, extra: set<Path>): set<(Path, FileDigest)> {
    set p | p in extra :: Entry(files, p, MissingInput)
  }

  /** `inputs` of the action descriptor; sorting makes the list a canonical form of this multiset. */
  function Inputs(ws: Workspace, files: Files, dynamic: DynamicDeps, n: Name): multiset<(Path, FileDigest)>
    requires KnownDeps(ws, n)
  {
    multiset{Entry(files, ws.targets[n].src, MissingSrc)} +
    multiset(ExtraEntries(files, ExtraInputs(ws, dynamic, n))) +
    multiset(DepEntries(ws, files, ws.targets[n].deps))
  }

  /** The text a name stands for on a command line. */
  function Label(n: Name): string {
    if n < 10 then [DIGITS[n]] else Label(n / 10) + [DIGITS[n % 10]]
  }

  const DIGITS: string := "0123456789"

  /** Labels tell names apart. */
  lemma {:induction false} LabelTellsName(n: Name, m: Name)
    ensures Label(n) == Label(m) ==> n == m
    decreases n
  {
    assert forall i, j :: 0 <= i < j < 10 ==> DIGITS[i] != DIGITS[j];
    if n >= 10 && m >= 10 {
      LabelTellsName(n / 10, m / 10);
      var a, b := Label(n), Label(m);
      assert a[..|a| - 1] == Label(n / 10) && a[|a| - 1] == DIGITS[n % 10];
      assert b[..|b| - 1] == Label(m / 10) && b[|b| - 1] == DIGITS[m % 10];
    } else {
      LabelLength(n);
      LabelLength(m);
    }
  }

  lemma LabelLength(n: Name)
    ensures |Label(n)| >= 1 && (n >= 10 ==> |Label(n)| >= 2)
  {
  }

  /** `argv` of the action descriptor: the command, or a default that names the target, its kind and its source. */
  function Argv(n: Name, t: Target): seq<string> {
    if t.command != [] then t.command
    else ["frost-sim-build", "--target", Label(n), "--kind", t.kind, "--src", t.src]
  }

  /** Where an action is started: the platform, the working directory and the environment variables that are set. */
  datatype Context = Context(platform: string, cwd: Path, env: map<string, string>)

  datatype Key = Key(target: Name, argv: seq<string>, toolchain: string, platform: string, cwd: Path,
          env: map<string, string>, inputs: multiset<(Path, FileDigest)>)

  /** The variables that count: the whitelisted ones that are set. */
  function Whitelisted(ws: Workspace, env: map<string, string>): map<string, string> {
    map v | v in ws.envKeys && v in env :: env[v]
  }

  function ActionKey(ws: Workspace, files: Files, dynamic: DynamicDeps, c: Context, n: Name): Key
    requires KnownDeps(ws, n)
  {
    Key(n, Argv(n, ws.targets[n]), ws.toolchain, c.platform, c.cwd, Whitelisted(ws, c.env),
        Inputs(ws, files, dynamic, n))
  }

  ghost predicate SameFile(a: Files, b: Files, p: Path) {
    (p in a <==> p in b) && (p in a ==> a[p] == b[p])
  }

  /** An entry of the input list says what the file held. */
  lemma EntryTellsFile(ws: Workspace, files: Files, dynamic: DynamicDeps, n: Name, p: Path, d: FileDigest)
    requires KnownDeps(ws, n) && (p, d) in Inputs(ws, files, dynamic, n)
    ensures d.Present? <==> p in files
    ensures d.Present? ==> d.digest == Sha(files[p])
  {
    if (p, d) == Entry(files, ws.targets[n].src, MissingSrc) {
    } else if (p, d) in DepEntries(ws, files, ws.targets[n].deps) {
    } else {
      assert (p, d) in ExtraEntries(files, ExtraInputs(ws, dynamic, n));
    }
  }

  /** Equal input lists agree on what a path held, whichever manifests they come from. */
  lemma InputsFixFile(ws: Workspace, vs: Workspace, a: Files, b: Files, da: DynamicDeps, db: DynamicDeps, n: Name,
          p: Path, d: FileDigest)
    requires KnownDeps(ws, n) && KnownDeps(vs, n) && Inputs(ws, a, da, n) == Inputs(vs, b, db, n)
    requires (p, d) in Inputs(ws, a, da, n)
    ensures SameFile(a, b, p)
  {
    EntryTellsFile(ws, a, da, n, p, d);
    EntryTellsFile(vs, b, db, n, p, d);
  }

  /** Nothing a target's run depends on differs between the manifests. */
  ghost predicate SameRow(ws: Workspace, vs: Workspace, n: Name)
    requires KnownDeps(ws, n) && KnownDeps(vs, n)
  {
    var t, u := ws.targets[n], vs.targets[n];
    && t.kind == u.kind && t.src == u.src && multiset(t.deps) == multiset(u.deps)
    && (forall d :: d in t.deps ==> d in vs.targets && ws.targets[d].out == vs.targets[d].out)
    && ws.render == vs.render
  }

  lemma RowFixesReads(ws: Workspace, vs: Workspace, a: Files, b: Files, da: DynamicDeps, db: DynamicDeps, n: Name)
    requires KnownDeps(ws, n) && KnownDeps(vs, n) && SameRow(ws, vs, n)
    requires Inputs(ws, a, da, n) == Inputs(vs, b, db, n)
    ensures SameFile(a, b, ws.targets[n].src)
    ensures forall d :: d in ws.targets[n].deps ==> SameFile(a, b, ws.targets[d].out)
  {
    var t := ws.targets[n];
    var e := Entry(a, t.src, MissingSrc);
    assert e in Inputs(ws, a, da, n);
    InputsFixFile(ws, vs, a, b, da, db, n, e.0, e.1);
    forall d | d in t.deps ensures SameFile(a, b, ws.targets[d].out) {
      var i :| 0 <= i < |t.deps| && t.deps[i] == d;
      var x := DepEntries(ws, a, t.deps)[i];
      assert x in DepEntries(ws, a, t.deps);
      assert x in Inputs(ws, a, da, n);
      InputsFixFile(ws, vs, a, b, da, db, n, x.0, x.1);
    }
  }

  /** Two workspaces with the same key agree on every file the action reads. */
  lemma KeyDeterminesReads(ws: Workspace, a: Files, b: Files, da: DynamicDeps, db: DynamicDeps, ca: Context,
          cb: Context, n: Name)
    requires KnownDeps(ws, n)
    requires ActionKey(ws, a, da, ca, n) == ActionKey(ws, b, db, cb, n)
    ensures SameFile(a, b, ws.targets[n].src)
    ensures forall d :: d in ws.targets[n].deps ==> SameFile(a, b, ws.targets[d].out)
  {
    RowFixesReads(ws, ws, a, b, da, db, n);
  }

  // ----- running an action --------------------------------------------------

  /** `Failed` is an `ActionExecutionError`; `Crashed` is the `RuntimeError` for a missing dependency output. */
  datatype Outcome = Ran(data: string) | Failed | Crashed

  const PREVIEW: nat := 256

  /** The start of a file, as text. */
  function Preview(data: string): (r: string)
    ensures |r| <= 256 && r <= Universal(data) && (r == Universal(data) || |r| == 256)
  {
    var text := Universal(data);
    if |text| <= PREVIEW then text else text[..PREVIEW]
  }

  function Read(files: Files, p: Path): Option<string> {
    if p in files then Some(files[p]) else None
  }

  function Map<A, B>(f: A -> B, s: seq<A>): (r: seq<B>)
    ensures |r| == |s|
  {
    seq(|s|, i requires 0 <= i < |s| => f(s[i]))
  }

  function Pairs(names: seq<Name>, data: seq<string>): seq<(Name, string)>
    requires |names| == |data|
  {
    seq(|names|, i requires 0 <= i < |names| => (names[i], data[i]))
  }

  /** A dependency as it is printed: its name, its digest and the start of its output. */
  function PrintedDep(p: (Name, string)): (Name, Digest, string) {
    (p.0, Sha(p.1), Preview(p.1))
  }

  /** What an action prints, from its source text and the outputs of its dependencies. */
  function PayloadOf(ws: Workspace, n: Name, src: Option<string>, depData: seq<string>): Payload
    requires n in ws.targets && |depData| == |ws.targets[n].deps|
  {
    var t := ws.targets[n];
    var text := if src.Some? then Universal(src.value) else "";
    Payload(
      n, t.kind, t.src, Sha(Semantic(text)),
      multiset(Map(PrintedDep, Pairs(t.deps, depData))),
      ws.toolchain,
      if t.kind == "test" then "PASS" else "BUILT")
  }

  /** The bytes an action writes. */
  function ActionOutput(ws: Workspace, n: Name, src: Option<string>, depData: seq<string>): string
    requires n in ws.targets && |depData| == |ws.targets[n].deps|
  {
    ws.render(PayloadOf(ws, n, src, depData))
  }

  predicate SourceFails(ws: Workspace, files: Files, n: Name)
    requires n in ws.targets
  {
    ws.targets[n].src in files && AsksToFail(files[ws.targets[n].src])
  }

  predicate DepsPresent(ws: Workspace, files: Files, n: Name)
    requires KnownDeps(ws, n)
  {
    forall d :: d in ws.targets[n].deps ==> ws.targets[d].out in files
  }

  function DepData(ws: Workspace, files: Files, n: Name): (data: seq<string>)
    requires KnownDeps(ws, n) && DepsPresent(ws, files, n)
    ensures |data| == |ws.targets[n].deps|
  {
    var deps := ws.targets[n].deps;
    seq(|deps|, i requires 0 <= i < |deps| => files[ws.targets[deps[i]].out])
  }

  /** The uncached part of `execute_action`, up to the bytes it writes. */
  function RunAction(ws: Workspace, files: Files, n: Name): Outcome
    requires KnownDeps(ws, n)
  {
    if SourceFails(ws, files, n) then Failed
    else if !DepsPresent(ws, files, n) then Crashed
    else Ran(ActionOutput(ws, n, Read(files, ws.targets[n].src), DepData(ws, files, n)))
  }

  function Without<A>(s: seq<A>, j: nat): (r: seq<A>)
    requires j < |s|
    ensures |r| == |s| - 1
  {
    s[..j] + s[j + 1..]
  }

  lemma WithoutMultiset<A>(s: seq<A>, j: nat)
    requires j < |s|
    ensures multiset(s) == multiset(Without(s, j)) + multiset{s[j]}
  {
    assert s == s[..j] + [s[j]] + s[j + 1..];
  }

  lemma MapWithout<A, B>(f: A -> B, s: seq<A>, j: nat)
    requires j < |s|
    ensures Without(Map(f, s), j) == Map(f, Without(s, j)) && Map(f, s)[j] == f(s[j])
  {
  }

  lemma {:induction false} MapPermuted<A, B>(f: A -> B, s: seq<A>, t: seq<A>)
    requires multiset(s) == multiset(t)
    ensures multiset(Map(f, s)) == multiset(Map(f, t))
    decreases |s|
  {
    if s == [] {
      assert |t| == |multiset(t)| == 0;
    } else {
      assert s[0] in multiset(t);
      var j :| 0 <= j < |t| && t[j] == s[0];
      hide Map, Without;
      WithoutMultiset(s, 0);
      WithoutMultiset(t, j);
      assert multiset(Without(s, 0)) == multiset(s) - multiset{s[0]} == multiset(Without(t, j));
      MapPermuted(f, Without(s, 0), Without(t, j));
      MapWithout(f, s, 0);
      MapWithout(f, t, j);
      WithoutMultiset(Map(f, s), 0);
      WithoutMultiset(Map(f, t), j);
    }
  }

  /** A dependency with the bytes of its output. */
  function WithBytes(ws: Workspace, files: Files): Name -> (Name, string) {
    (d: Name) => (d, if d in ws.targets && ws.targets[d].out in files then files[ws.targets[d].out] else "")
  }

  /** What the dependencies of `n` hold, by name. */
  function DepBytes(ws: Workspace, files: Files, n: Name): multiset<(Name, string)>
    requires n in ws.targets
  {
    multiset(Map(WithBytes(ws, files), ws.targets[n].deps))
  }

  lemma DepBytesArePairs(ws: Workspace, files: Files, n: Name)
    requires KnownDeps(ws, n) && DepsPresent(ws, files, n)
    ensures DepBytes(ws, files, n) == multiset(Pairs(ws.targets[n].deps, DepData(ws, files, n)))
  {
    assert Map(WithBytes(ws, files), ws.targets[n].deps) == Pairs(ws.targets[n].deps, DepData(ws, files, n));
  }

  /** The same dependencies, listed in any order, with the same outputs hold the same bytes by name. */
  lemma SameRowBytes(ws: Workspace, vs: Workspace, a: Files, b: Files, n: Name)
    requires KnownDeps(ws, n) && KnownDeps(vs, n) && SameRow(ws, vs, n)
    requires forall d :: d in ws.targets[n].deps ==> SameFile(a, b, ws.targets[d].out)
    ensures forall d :: d in ws.targets[n].deps <==> d in vs.targets[n].deps
    ensures DepBytes(ws, a, n) == DepBytes(vs, b, n)
  {
    var s, t := ws.targets[n].deps, vs.targets[n].deps;
    forall d ensures d in s <==> d in t {
      assert d in multiset(s) <==> d in multiset(t);
    }
    assert Map(WithBytes(ws, a), s) == Map(WithBytes(vs, b), s);
    MapPermuted(WithBytes(vs, b), s, t);
  }

  /** `sandbox_check` on a source text: some `READ` line names a path that is not declared. */
  predicate ReadsMore(ws: Workspace, dynamic: DynamicDeps, n: Name, text: string)
    requires KnownDeps(ws, n)
  {
    ws.targets[n].sandbox && !(ws.readLines(Universal(text)) <= Declared(ws, dynamic, n))
  }

  predicate Denied(ws: Workspace, files: Files, dynamic: DynamicDeps, n: Name)
    requires KnownDeps(ws, n)
  {
    ws.targets[n].src in files && ReadsMore(ws, dynamic, n, files[ws.targets[n].src])
  }

  /** The paths of the input list are the declared ones. */
  lemma DeclaredIsInputPaths(ws: Workspace, files: Files, dynamic: DynamicDeps, n: Name, p: Path)
    requires KnownDeps(ws, n)
    ensures p in Declared(ws, dynamic, n) <==> exists d :: (p, d) in Inputs(ws, files, dynamic, n)
  {
    var t := ws.targets[n];
    if p == t.src {
      assert Entry(files, p, MissingSrc) in Inputs(ws, files, dynamic, n);
    } else if p in ExtraInputs(ws, dynamic, n) {
      assert Entry(files, p, MissingInput) in ExtraEntries(files, ExtraInputs(ws, dynamic, n));
      assert Entry(files, p, MissingInput) in Inputs(ws, files, dynamic, n);
    } else if p in Declared(ws, dynamic, n) {
      var d :| d in t.deps && ws.targets[d].out == p;
      var i :| 0 <= i < |t.deps| && t.deps[i] == d;
      assert DepEntries(ws, files, t.deps)[i] == Entry(files, p, MissingOut);
      assert Entry(files, p, MissingOut) in Inputs(ws, files, dynamic, n);
    }
    if d :| (p, d) in Inputs(ws, files, dynamic, n) {
      InputPathDeclared(ws, files, dynamic, n, p, d);
    }
  }

  lemma InputPathDeclared(ws: Workspace, files: Files, dynamic: DynamicDeps, n: Name, p: Path, d: FileDigest)
    requires KnownDeps(ws, n) && (p, d) in Inputs(ws, files, dynamic, n)
    ensures p in Declared(ws, dynamic, n)
  {
    if (p, d) == Entry(files, ws.targets[n].src, MissingSrc) {
    } else if (p, d) in DepEntries(ws, files, ws.targets[n].deps) {
    } else {
      assert (p, d) in ExtraEntries(files, ExtraInputs(ws, dynamic, n));
    }
  }

  /** The sandbox judges nothing but what is in the key. */
  lemma KeyDeterminesDenied(ws: Workspace, a: Files, b: Files, da: DynamicDeps, db: DynamicDeps, ca: Context,
          cb: Context, n: Name)
    requires KnownDeps(ws, n)
    requires ActionKey(ws, a, da, ca, n) == ActionKey(ws, b, db, cb, n)
    ensures Denied(ws, a, da, n) == Denied(ws, b, db, n)
  {
    hide Inputs, Declared, ExtraInputs;
    KeyDeterminesReads(ws, a, b, da, db, ca, cb, n);
    forall p ensures p in Declared(ws, da, n) <==> p in Declared(ws, db, n) {
      DeclaredIsInputPaths(ws, a, da, n, p);
      DeclaredIsInputPaths(ws, b, db, n, p);
    }
    assert Declared(ws, da, n) == Declared(ws, db, n);
  }

  /** An action's outcome depends on nothing but its row and the files it reads. */
  lemma RunActionReads(ws: Workspace, vs: Workspace, a: Files, b: Files, n: Name)
    requires KnownDeps(ws, n) && KnownDeps(vs, n) && SameRow(ws, vs, n) && ws.toolchain == vs.toolchain
    requires SameFile(a, b, ws.targets[n].src)
    requires forall d :: d in ws.targets[n].deps ==> SameFile(a, b, ws.targets[d].out)
    ensures RunAction(ws, a, n) == RunAction(vs, b, n)
  {
    SameRowBytes(ws, vs, a, b, n);
    if DepsPresent(ws, a, n) {
      DepBytesArePairs(ws, a, n);
      DepBytesArePairs(vs, b, n);
      MapPermuted(PrintedDep, Pairs(ws.targets[n].deps, DepData(ws, a, n)),
                  Pairs(vs.targets[n].deps, DepData(vs, b, n)));
    }
  }

  // ----- keys across manifests --------------------------------------------------

  /** What `n` prints when run on these files. */
  function Printed(ws: Workspace, files: Files, n: Name): Payload
    requires KnownDeps(ws, n) && DepsPresent(ws, files, n)
  {
    PayloadOf(ws, n, Read(files, ws.targets[n].src), DepData(ws, files, n))
  }

  /**
   The key across a manifest edit.  With equal keys the payloads are equal
   exactly when the two manifests agree on the target's kind and source, and the
   dependencies are the same, in any order, and hold the same bytes name by name:
   that much the key leaves open, and everything else it fixes.
   */
  lemma KeyAcrossManifests(ws: Workspace, vs: Workspace, a: Files, b: Files, da: DynamicDeps, db: DynamicDeps,
          ca: Context, cb: Context, n: Name)
    requires KnownDeps(ws, n) && KnownDeps(vs, n) && DepsPresent(ws, a, n) && DepsPresent(vs, b, n)
    requires ActionKey(ws, a, da, ca, n) == ActionKey(vs, b, db, cb, n)
    ensures var t, u := ws.targets[n], vs.targets[n];
      Printed(ws, a, n) == Printed(vs, b, n) <==>
        t.kind == u.kind && t.src == u.src && DepBytes(ws, a, n) == DepBytes(vs, b, n)
  {
    hide Inputs, Semantic, Universal, Argv, Map, Pairs, DepBytes, PrintedDep, DepData;
    var t, u := ws.targets[n], vs.targets[n];
    DepBytesArePairs(ws, a, n);
    DepBytesArePairs(vs, b, n);
    PrintedDeps(Pairs(t.deps, DepData(ws, a, n)), Pairs(u.deps, DepData(vs, b, n)));
    if t.src == u.src {
      KeyFixesSource(ws, vs, a, b, da, db, ca, cb, n);
    }
  }

  lemma KeyFixesSource(ws: Workspace, vs: Workspace, a: Files, b: Files, da: DynamicDeps, db: DynamicDeps,
          ca: Context, cb: Context, n: Name)
    requires KnownDeps(ws, n) && KnownDeps(vs, n) && ws.targets[n].src == vs.targets[n].src
    requires ActionKey(ws, a, da, ca, n) == ActionKey(vs, b, db, cb, n)
    ensures SameFile(a, b, ws.targets[n].src)
  {
    hide Inputs, Argv, Whitelisted, SameSurroundings;
    KeyTells(ws, vs, a, b, da, db, ca, cb, n, n);
    assert TakesPath(ws, da, n, ws.targets[n].src);
  }

  /** The source text an action reads, or nothing. */
  function SourceOf(ws: Workspace, files: Files, n: Name): string
    requires n in ws.targets
  {
    if ws.targets[n].src in files then files[ws.targets[n].src] else ""
  }

  /**
   What an output tells: two actions print the same exactly when they are for the same target, of the same kind, with
   the same source path, toolchain and lines that are not comments, and dependencies that hold the same bytes by name.
   */
  lemma PrintedTells(ws: Workspace, vs: Workspace, a: Files, b: Files, n: Name, m: Name)
    requires KnownDeps(ws, n) && KnownDeps(vs, m) && DepsPresent(ws, a, n) && DepsPresent(vs, b, m)
    ensures Printed(ws, a, n) == Printed(vs, b, m) <==>
      && n == m && ws.targets[n].kind == vs.targets[m].kind && ws.targets[n].src == vs.targets[m].src
      && ws.toolchain == vs.toolchain
      && Semantic(Universal(SourceOf(ws, a, n))) == Semantic(Universal(SourceOf(vs, b, m)))
      && DepBytes(ws, a, n) == DepBytes(vs, b, m)
    ensures Printed(ws, a, n).result == if ws.targets[n].kind == "test" then "PASS" else "BUILT"
  {
    hide Semantic, Map, Pairs, DepBytes, PrintedDep, DepData;
    DepBytesArePairs(ws, a, n);
    DepBytesArePairs(vs, b, m);
    PrintedDeps(Pairs(ws.targets[n].deps, DepData(ws, a, n)), Pairs(vs.targets[m].deps, DepData(vs, b, m)));
  }

  function NameAndBytes(x: (Name, Digest, string)): (Name, string) {
    (x.0, x.1.data)
  }

  lemma PrintedBack(p: seq<(Name, string)>)
    ensures Map(NameAndBytes, Map(PrintedDep, p)) == p
  {
    forall i | 0 <= i < |p| ensures Map(NameAndBytes, Map(PrintedDep, p))[i] == p[i] {
      assert Map(PrintedDep, p)[i] == PrintedDep(p[i]);
      assert NameAndBytes(PrintedDep(p[i])) == p[i];
    }
  }

  /** The printed dependencies tell names and bytes. */
  lemma PrintedDeps(p: seq<(Name, string)>, q: seq<(Name, string)>)
    ensures multiset(Map(PrintedDep, p)) == multiset(Map(PrintedDep, q)) <==> multiset(p) == multiset(q)
  {
    if multiset(p) == multiset(q) {
      MapPermuted(PrintedDep, p, q);
    }
    if multiset(Map(PrintedDep, p)) == multiset(Map(PrintedDep, q)) {
      PrintedBack(p);
      PrintedBack(q);
      MapPermuted(NameAndBytes, Map(PrintedDep, p), Map(PrintedDep, q));
    }
  }

  /** Across manifests that agree on the target's row, equal keys mean equal outcomes: a cached output may be reused. */
  lemma KeyAndRowFixRun(ws: Workspace, vs: Workspace, a: Files, b: Files, da: DynamicDeps, db: DynamicDeps,
          ca: Context, cb: Context, n: Name)
    requires KnownDeps(ws, n) && KnownDeps(vs, n) && SameRow(ws, vs, n)
    requires ActionKey(ws, a, da, ca, n) == ActionKey(vs, b, db, cb, n)
    ensures RunAction(ws, a, n) == RunAction(vs, b, n)
  {
    hide Inputs, ActionOutput, Argv, AsksToFail;
    RowFixesReads(ws, vs, a, b, da, db, n);
    RunActionReads(ws, vs, a, b, n);
  }

  /** Where an action's inputs lie: its source, what it declares, what it recorded, what its dependencies write. */
  predicate TakesPath(ws: Workspace, dynamic: DynamicDeps, n: Name, p: Path)
    requires KnownDeps(ws, n)
  {
    || p == ws.targets[n].src || p in ws.targets[n].declaredInputs || (n in dynamic && p in dynamic[n])
    || exists d :: d in ws.targets[n].deps && ws.targets[d].out == p
  }

  /** Nothing that may influence an action tells the two surroundings apart. */
  ghost predicate SameSurroundings(ws: Workspace, vs: Workspace, a: Context, b: Context) {
    && a.platform == b.platform && a.cwd == b.cwd
    && (forall v :: v in ws.envKeys && v in a.env <==> v in vs.envKeys && v in b.env)
    && (forall v :: v in ws.envKeys && v in a.env && v in b.env ==> a.env[v] == b.env[v])
  }

  lemma WhitelistedTells(ws: Workspace, vs: Workspace, a: Context, b: Context)
    ensures SameSurroundings(ws, vs, a, b) <==>
      a.platform == b.platform && a.cwd == b.cwd && Whitelisted(ws, a.env) == Whitelisted(vs, b.env)
  {
    var x, y := Whitelisted(ws, a.env), Whitelisted(vs, b.env);
    if x == y {
      forall v ensures v in ws.envKeys && v in a.env <==> v in vs.envKeys && v in b.env {
        assert v in x <==> v in y;
      }
      forall v | v in ws.envKeys && v in a.env && v in b.env ensures a.env[v] == b.env[v] {
        assert x[v] == y[v];
      }
    }
  }

  /**
   What a key tells, across manifests: the target, the toolchain, the command, the surroundings, the
   paths of all inputs and what was at each of them.
   */
  lemma KeyTells(ws: Workspace, vs: Workspace, a: Files, b: Files, da: DynamicDeps, db: DynamicDeps,
          ca: Context, cb: Context, n: Name, m: Name)
    requires KnownDeps(ws, n) && KnownDeps(vs, m)
    requires ActionKey(ws, a, da, ca, n) == ActionKey(vs, b, db, cb, m)
    ensures n == m && ws.toolchain == vs.toolchain && SameSurroundings(ws, vs, ca, cb)
    ensures ws.targets[n].command != [] && vs.targets[n].command != [] ==>
      ws.targets[n].command == vs.targets[n].command
    ensures forall p :: TakesPath(ws, da, n, p) <==> TakesPath(vs, db, n, p)
    ensures forall p :: TakesPath(ws, da, n, p) ==> SameFile(a, b, p)
  {
    hide Inputs;
    WhitelistedTells(ws, vs, ca, cb);
    forall p ensures TakesPath(ws, da, n, p) <==> TakesPath(vs, db, n, p)
      ensures TakesPath(ws, da, n, p) ==> SameFile(a, b, p)
    {
      DeclaredIsInputPaths(ws, a, da, n, p);
      DeclaredIsInputPaths(vs, b, db, n, p);
      if d :| (p, d) in Inputs(ws, a, da, n) {
        InputsFixFile(ws, vs, a, b, da, db, n, p, d);
      }
    }
  }

  /**
   Exactly when two states of one workspace give a target the same key: the surroundings are the same, as
   far as the whitelist goes, and so are the declared and recorded paths and the files at all inputs.
   */
  lemma KeyEqualIff(ws: Workspace, a: Files, b: Files, da: DynamicDeps, db: DynamicDeps, ca: Context, cb: Context,
          n: Name)
    requires KnownDeps(ws, n)
    ensures ActionKey(ws, a, da, ca, n) == ActionKey(ws, b, db, cb, n) <==>
      && SameSurroundings(ws, ws, ca, cb) && ExtraInputs(ws, da, n) == ExtraInputs(ws, db, n)
      && forall p :: TakesPath(ws, da, n, p) ==> SameFile(a, b, p)
  {
    hide Inputs, ExtraInputs;
    WhitelistedTells(ws, ws, ca, cb);
    if ActionKey(ws, a, da, ca, n) == ActionKey(ws, b, db, cb, n) {
      KeyTells(ws, ws, a, b, da, db, ca, cb, n, n);
      SameExtras(ws, a, b, da, db, n);
    } else if
      && ExtraInputs(ws, da, n) == ExtraInputs(ws, db, n)
      && forall p :: TakesPath(ws, da, n, p) ==> SameFile(a, b, p)
    {
      ExtrasAreTaken(ws, da, n);
      SameInputs(ws, a, b, da, n);
      SameExtrasSameInputs(ws, b, da, db, n);
    }
  }

  lemma ExtrasAreTaken(ws: Workspace, dynamic: DynamicDeps, n: Name)
    requires KnownDeps(ws, n)
    ensures forall p :: p in ExtraInputs(ws, dynamic, n) ==> TakesPath(ws, dynamic, n, p)
    ensures forall d :: d in ws.targets[n].deps ==> TakesPath(ws, dynamic, n, ws.targets[d].out)
  {
  }

  lemma SameExtrasSameInputs(ws: Workspace, files: Files, da: DynamicDeps, db: DynamicDeps, n: Name)
    requires KnownDeps(ws, n) && ExtraInputs(ws, da, n) == ExtraInputs(ws, db, n)
    ensures Inputs(ws, files, da, n) == Inputs(ws, files, db, n)
  {
  }

  lemma SameExtras(ws: Workspace, a: Files, b: Files, da: DynamicDeps, db: DynamicDeps, n: Name)
    requires KnownDeps(ws, n) && Inputs(ws, a, da, n) == Inputs(ws, b, db, n)
    ensures ExtraInputs(ws, da, n) == ExtraInputs(ws, db, n)
  {
    hide ExtraInputs;
    var x, y := ExtraInputs(ws, da, n), ExtraInputs(ws, db, n);
    RowFixesReads(ws, ws, a, b, da, db, n);
    assert DepEntries(ws, a, ws.targets[n].deps) == DepEntries(ws, b, ws.targets[n].deps);
    var src := ws.targets[n].src;
    assert Entry(a, src, MissingSrc) == Entry(b, src, MissingSrc);
    InputsSplit(ws, a, da, n);
    InputsSplit(ws, b, db, n);
    forall p ensures p in x <==> p in y {
      ExtraPath(a, x, p);
      ExtraPath(b, y, p);
    }
  }

  lemma InputsSplit(ws: Workspace, files: Files, dynamic: DynamicDeps, n: Name)
    requires KnownDeps(ws, n)
    ensures multiset(ExtraEntries(files, ExtraInputs(ws, dynamic, n))) == Inputs(ws, files, dynamic, n) -
      multiset{Entry(files, ws.targets[n].src, MissingSrc)} - multiset(DepEntries(ws, files, ws.targets[n].deps))
  {
  }

  lemma ExtraPath(files: Files, extra: set<Path>, p: Path)
    ensures p in extra <==> exists d :: (p, d) in multiset(ExtraEntries(files, extra))
  {
    if p in extra {
      assert Entry(files, p, MissingInput) in ExtraEntries(files, extra);
    }
  }

  /** The default command names kind and source, so without a command of its own a target's key fixes both. */
  lemma DefaultCommandFixesKind(n: Name, m: Name, t: Target, u: Target)
    requires t.command == [] && u.command == []
    ensures Argv(n, t) == Argv(m, u) <==> n == m && t.kind == u.kind && t.src == u.src
  {
    var x, y := Argv(n, t), Argv(m, u);
    if x == y {
      assert x[2] == y[2] && x[4] == y[4] && x[6] == y[6];
      LabelTellsName(n, m);
    }
  }

  /** With a command of its own, changing a target's kind keeps every key while the payload changes. */
  lemma KindEditKeepsKey(ws: Workspace, n: Name, kind: string, files: Files, dynamic: DynamicDeps, context: Context)
    requires KnownDeps(ws, n) && DepsPresent(ws, files, n)
    requires ws.targets[n].command != [] && kind != ws.targets[n].kind
    ensures var vs := ws.(targets := ws.targets[n := ws.targets[n].(kind := kind)]);
      && KnownDeps(vs, n) && DepsPresent(vs, files, n)
      && ActionKey(vs, files, dynamic, context, n) == ActionKey(ws, files, dynamic, context, n)
      && Printed(vs, files, n) != Printed(ws, files, n)
  {
    var vs := ws.(targets := ws.targets[n := ws.targets[n].(kind := kind)]);
    assert DepEntries(vs, files, vs.targets[n].deps) == DepEntries(ws, files, ws.targets[n].deps);
    assert ExtraInputs(vs, dynamic, n) == ExtraInputs(ws, dynamic, n);
    assert Printed(vs, files, n).kind == kind;
  }

  // ----- the cache and the content-addressed store ------------------------------

  datatype FileHash = Hashed(digest: Digest) | Absent

  datatype World = World(
    files: Files,
    cache: map<Key, Digest>,
    cas: map<Digest, string>,
    saved: Option<map<Path, FileHash>>,
    dynamic: DynamicDeps)

  /** A cached digest names what running the action would write, in every workspace state with that key. */
  ghost predicate ValidCache(ws: Workspace, cache: map<Key, Digest>) {
    forall n, files, dynamic, context ::
      KnownDeps(ws, n) && ActionKey(ws, files, dynamic, context, n) in cache ==>
        RunAction(ws, files, n) == Ran(cache[ActionKey(ws, files, dynamic, context, n)].data)
  }

  /** Every blob hashes to its name. */
  ghost predicate ValidCas(cas: map<Digest, string>) {
    forall d :: d in cas ==> Sha(cas[d]) == d
  }

  ghost predicate ValidStore(ws: Workspace, w: World) {
    ValidCache(ws, w.cache) && ValidCas(w.cas)
  }

  datatype Options = Options(context: Context, useCache: bool, sandbox: bool, depfiles: map<Name, set<Path>>)

  datatype Status = CacheHit | Executed | ActionFailed | ActionCrashed

  predicate IsHit(ws: Workspace, w: World, o: Options, n: Name)
    requires KnownDeps(ws, n)
  {
    var key := ActionKey(ws, w.files, w.dynamic, o.context, n);
    o.useCache && key in w.cache && w.cache[key] in w.cas
  }

  /** `store_blob_in_cas` after a successful run, the new cache entry, and the inputs found in the depfile. */
  function Record(ws: Workspace, w: World, o: Options, n: Name, data: string): World
    requires KnownDeps(ws, n)
  {
    var key := ActionKey(ws, w.files, w.dynamic, o.context, n);
    w.(files := w.files[ws.targets[n].out := data],
       cas := if Sha(data) in w.cas then w.cas else w.cas[Sha(data) := data],
       cache := w.cache[key := Sha(data)],
       dynamic := if n in o.depfiles then w.dynamic[n := o.depfiles[n]] else w.dynamic)
  }

  /** What an action does when the cache does not help: `sandbox_check` first, if it is on, then the run. */
  function Attempt(ws: Workspace, w: World, o: Options, n: Name): Outcome
    requires KnownDeps(ws, n)
  {
    if o.sandbox && Denied(ws, w.files, w.dynamic, n) then Failed else RunAction(ws, w.files, n)
  }

  /** `execute_action`: a hit returns before the sandbox is asked. */
  function ExecuteAction(ws: Workspace, w: World, o: Options, n: Name): (World, Status)
    requires KnownDeps(ws, n)
  {
    if IsHit(ws, w, o, n) then
      var digest := w.cache[ActionKey(ws, w.files, w.dynamic, o.context, n)];
      (w.(files := w.files[ws.targets[n].out := w.cas[digest]]), CacheHit)
    else
      match Attempt(ws, w, o, n)
      case Ran(data) => (Record(ws, w, o, n, data), Executed)
      case Failed => (w, ActionFailed)
      case Crashed => (w, ActionCrashed)
  }

  /** A hit restores exactly what a run would have written. */
  lemma HitIsFaithful(ws: Workspace, w: World, o: Options, n: Name)
    requires KnownDeps(ws, n) && ValidStore(ws, w) && IsHit(ws, w, o, n)
    ensures RunAction(ws, w.files, n) == Ran(w.cas[w.cache[ActionKey(ws, w.files, w.dynamic, o.context, n)]])
  {
  }

  lemma RecordKeepsStore(ws: Workspace, w: World, o: Options, n: Name)
    requires KnownDeps(ws, n) && ValidStore(ws, w) && RunAction(ws, w.files, n).Ran?
    ensures ValidStore(ws, Record(ws, w, o, n, RunAction(ws, w.files, n).data))
  {
    hide Inputs, Argv, Whitelisted, ActionOutput;
    var data := RunAction(ws, w.files, n).data;
    var w' := Record(ws, w, o, n, data);
    var key := ActionKey(ws, w.files, w.dynamic, o.context, n);
    forall m, files, dynamic, context |
      KnownDeps(ws, m) && ActionKey(ws, files, dynamic, context, m) in w'.cache
      ensures RunAction(ws, files, m) == Ran(w'.cache[ActionKey(ws, files, dynamic, context, m)].data)
    {
      if ActionKey(ws, files, dynamic, context, m) == key {
        KeyDeterminesReads(ws, w.files, files, w.dynamic, dynamic, o.context, context, n);
        RunActionReads(ws, ws, w.files, files, n);
      }
    }
  }

  /** What an action comes to: a hit is never denied. */
  function Effective(ws: Workspace, w: World, o: Options, n: Name): Outcome
    requires KnownDeps(ws, n)
  {
    if IsHit(ws, w, o, n) then RunAction(ws, w.files, n) else Attempt(ws, w, o, n)
  }

  predicate Succeeds(status: Status) {
    status == CacheHit || status == Executed
  }

  lemma ActionEffect(ws: Workspace, w: World, o: Options, n: Name)
    requires KnownDeps(ws, n) && ValidStore(ws, w)
    ensures ValidStore(ws, ExecuteAction(ws, w, o, n).0)
    ensures ExecuteAction(ws, w, o, n).0.files ==
            (match Effective(ws, w, o, n) case Ran(data) => w.files[ws.targets[n].out := data] case _ => w.files)
    ensures Effective(ws, w, o, n).Ran? ==> Effective(ws, w, o, n) == RunAction(ws, w.files, n)
    ensures Succeeds(ExecuteAction(ws, w, o, n).1) <==> Effective(ws, w, o, n).Ran?
    ensures ExecuteAction(ws, w, o, n).1 == ActionFailed <==> Effective(ws, w, o, n) == Failed
    ensures ExecuteAction(ws, w, o, n).1 == ActionCrashed <==> Effective(ws, w, o, n) == Crashed
  {
    if IsHit(ws, w, o, n) {
      HitIsFaithful(ws, w, o, n);
    } else if Attempt(ws, w, o, n).Ran? {
      RecordKeepsStore(ws, w, o, n);
    }
  }

  /** The sandbox objects: the target is sandboxed and its source reads a path that is none of its inputs. */
  ghost predicate ReadsUndeclared(ws: Workspace, w: World, n: Name)
    requires KnownDeps(ws, n)
  {
    && ws.targets[n].sandbox && ws.targets[n].src in w.files
    && exists p :: p in ws.readLines(Universal(w.files[ws.targets[n].src])) && !TakesPath(ws, w.dynamic, n, p)
  }

  lemma DeniedIff(ws: Workspace, w: World, n: Name)
    requires KnownDeps(ws, n)
    ensures Denied(ws, w.files, w.dynamic, n) <==> ReadsUndeclared(ws, w, n)
  {
    forall p ensures p in Declared(ws, w.dynamic, n) <==> TakesPath(ws, w.dynamic, n, p) {}
  }

  /**
   What comes of an action, whatever the cache holds: a source that asks to fail always fails, undeclared reads are
   refused in the sandbox unless the cache answers, a missing dependency output crashes, and nothing changes then.
   Otherwise the output file, and it alone, is what printing prescribes, and the store holds it.
   */
  lemma StatusIs(ws: Workspace, w: World, o: Options, n: Name)
    requires KnownDeps(ws, n) && ValidStore(ws, w)
    ensures var (v, status) := ExecuteAction(ws, w, o, n);
      var t := ws.targets[n];
      if t.src in w.files && AsksToFail(w.files[t.src]) then status == ActionFailed && v == w
      else if !IsHit(ws, w, o, n) && o.sandbox && ReadsUndeclared(ws, w, n) then status == ActionFailed && v == w
      else if exists d :: d in t.deps && ws.targets[d].out !in w.files then status == ActionCrashed && v == w
      else
        && status == (if IsHit(ws, w, o, n) then CacheHit else Executed)
        && v.files == w.files[t.out := ws.render(Printed(ws, w.files, n))]
        && Sha(v.files[t.out]) in v.cas && v.cas[Sha(v.files[t.out])] == v.files[t.out]
        && v.saved == w.saved
  {
    hide ActionKey, PayloadOf, Denied, AsksToFail;
    DeniedIff(ws, w, n);
    if IsHit(ws, w, o, n) {
      HitIsFaithful(ws, w, o, n);
    }
  }

  /** The cache answers for an action that the sandbox would deny. */
  predicate Bypassed(ws: Workspace, w: World, o: Options, n: Name)
    requires KnownDeps(ws, n)
  {
    IsHit(ws, w, o, n) && o.sandbox && Denied(ws, w.files, w.dynamic, n)
  }

  /**
   One action under cache: the store stays valid, and files and success are
   those of an execution that never looks at the cache exactly when the cache
   does not answer for an action that the sandbox would deny.
   */
  lemma {:induction false} ActionTransparency(ws: Workspace, w: World, o: Options, n: Name)
    requires KnownDeps(ws, n) && ValidStore(ws, w)
    ensures ValidStore(ws, ExecuteAction(ws, w, o, n).0)
    ensures var (a, s), (b, t) := ExecuteAction(ws, w, o, n), ExecuteAction(ws, w, o.(useCache := false), n);
      (a.files == b.files && (Succeeds(s) <==> Succeeds(t))) <==> !Bypassed(ws, w, o, n)
  {
    ActionEffect(ws, w, o, n);
    ActionEffect(ws, w, o.(useCache := false), n);
    if IsHit(ws, w, o, n) {
      HitIsFaithful(ws, w, o, n);
    }
  }

  /** Every cached action is one the sandbox would let pass. */
  ghost predicate Screened(ws: Workspace, cache: map<Key, Digest>) {
    forall n, files, dynamic, context ::
      KnownDeps(ws, n) && ActionKey(ws, files, dynamic, context, n) in cache ==> !Denied(ws, files, dynamic, n)
  }

  /** Sandboxed actions keep the cache screened. */
  lemma ScreenedNext(ws: Workspace, w: World, o: Options, n: Name)
    requires KnownDeps(ws, n) && Screened(ws, w.cache) && o.sandbox
    ensures Screened(ws, ExecuteAction(ws, w, o, n).0.cache)
  {
    hide Denied, RunAction;
    var next := ExecuteAction(ws, w, o, n).0;
    var key := ActionKey(ws, w.files, w.dynamic, o.context, n);
    forall m, files, dynamic, context |
      KnownDeps(ws, m) && ActionKey(ws, files, dynamic, context, m) in next.cache
      ensures !Denied(ws, files, dynamic, m)
    {
      if ActionKey(ws, files, dynamic, context, m) !in w.cache {
        assert ActionKey(ws, files, dynamic, context, m) == key;
        KeyDeterminesDenied(ws, w.files, files, w.dynamic, dynamic, o.context, context, n);
      }
    }
  }

  /** An action run without the sandbox is a hit with it, even when the sandbox denies it. */
  lemma SandboxBypass(ws: Workspace, w: World, o: Options, n: Name)
    requires KnownDeps(ws, n) && ValidStore(ws, w) && o.useCache && !IsHit(ws, w, o, n)
    requires RunAction(ws, w.files, n).Ran? && Denied(ws, w.files, w.dynamic, n)
    requires ws.targets[n].out !in Declared(ws, w.dynamic, n) && n !in o.depfiles
    ensures var v := ExecuteAction(ws, w, o.(sandbox := false), n).0;
      && Bypassed(ws, v, o.(sandbox := true), n)
      && ExecuteAction(ws, v, o.(sandbox := true), n).1 == CacheHit
      && ExecuteAction(ws, v, o.(sandbox := true, useCache := false), n).1 == ActionFailed
  {
    hide ActionKey, RunAction, Denied, Declared, ValidCache;
    RecordKeepsKey(ws, w, o.(sandbox := false), n, RunAction(ws, w.files, n).data);
    RecordIsHit(ws, w, o.(sandbox := false), n, RunAction(ws, w.files, n).data);
  }

  /** An action that reads nothing it writes has the same key after it has run. */
  lemma RecordKeepsKey(ws: Workspace, w: World, o: Options, n: Name, data: string)
    requires KnownDeps(ws, n) && ws.targets[n].out !in Declared(ws, w.dynamic, n) && n !in o.depfiles
    ensures var v := Record(ws, w, o, n, data);
      && ActionKey(ws, v.files, v.dynamic, o.context, n) == ActionKey(ws, w.files, w.dynamic, o.context, n)
      && Denied(ws, v.files, v.dynamic, n) == Denied(ws, w.files, w.dynamic, n)
  {
    var v := Record(ws, w, o, n, data);
    forall d | d in ws.targets[n].deps ensures ws.targets[d].out in Declared(ws, w.dynamic, n) {}
    SameInputs(ws, w.files, v.files, w.dynamic, n);
    KeyDeterminesDenied(ws, w.files, v.files, w.dynamic, v.dynamic, o.context, o.context, n);
  }

  lemma RecordIsHit(ws: Workspace, w: World, o: Options, n: Name, data: string)
    requires KnownDeps(ws, n) && o.useCache
    requires var v := Record(ws, w, o, n, data);
      ActionKey(ws, v.files, v.dynamic, o.context, n) == ActionKey(ws, w.files, w.dynamic, o.context, n)
    ensures IsHit(ws, Record(ws, w, o, n, data), o, n)
  {
  }

  // ----- whole histories ----------------------------------------------------------

  /** Anything that can happen to a workspace: actions, edits, garbage collection, a lost or partly lost cache. */
  datatype Happening =
    | Act(n: Name, options: Options)
    | Write(path: Path, text: string)
    | Delete(path: Path)
    | Evict(blobs: set<Digest>)
    | Forget(keys: set<Key>)
    | SetDynamic(dynamic: DynamicDeps)

  predicate EventOk(ws: Workspace, e: Happening) {
    e.Act? ==> KnownDeps(ws, e.n)
  }

  function Happen(ws: Workspace, w: World, e: Happening): World
    requires EventOk(ws, e)
  {
    match e
    case Act(n, options) => ExecuteAction(ws, w, options, n).0
    case Write(p, text) => w.(files := w.files[p := text])
    case Delete(p) => w.(files := w.files - {p})
    case Evict(blobs) => w.(cas := w.cas - blobs)
    case Forget(keys) => w.(cache := w.cache - keys)
    case SetDynamic(dynamic) => w.(dynamic := dynamic)
  }

  function Play(ws: Workspace, w: World, es: seq<Happening>): World
    requires forall e :: e in es ==> EventOk(ws, e)
  {
    if |es| == 0 then w else Happen(ws, Play(ws, w, es[..|es| - 1]), es[|es| - 1])
  }

  function WithoutCache(e: Happening): Happening {
    match e
    case Act(n, o) => Act(n, o.(useCache := false))
    case _ => e
  }

  /** The same history with the cache switched off. */
  function Uncached(es: seq<Happening>): seq<Happening> {
    seq(|es|, i requires 0 <= i < |es| => WithoutCache(es[i]))
  }

  lemma UncachedOk(ws: Workspace, es: seq<Happening>)
    requires forall e :: e in es ==> EventOk(ws, e)
    ensures forall e :: e in Uncached(es) ==> EventOk(ws, e)
  {
    forall e | e in Uncached(es) ensures EventOk(ws, e) {
      var i :| 0 <= i < |es| && Uncached(es)[i] == e;
      assert EventOk(ws, es[i]);
    }
  }

  /** An action in the sandbox that records no inputs, or anything but an action. */
  predicate Plain(e: Happening) {
    e.Act? ==> e.options.sandbox && e.options.depfiles == map[]
  }

  /** The sandbox, where it is on, has been on from the start, with nothing recorded that it would then allow. */
  ghost predicate Steady(es: seq<Happening>) {
    forall i, j :: 0 <= i < j < |es| && es[j].Act? && es[j].options.sandbox ==> Plain(es[i])
  }

  /** One event, with and without the cache, from two worlds with the same files and recorded inputs. */
  lemma HappenTransparent(ws: Workspace, a: World, b: World, e: Happening)
    requires EventOk(ws, e) && ValidStore(ws, a) && ValidStore(ws, b) && a.files == b.files
    requires e.Act? && e.options.sandbox ==> Screened(ws, a.cache) && a.dynamic == b.dynamic
    ensures EventOk(ws, WithoutCache(e))
    ensures ValidStore(ws, Happen(ws, a, e)) && ValidStore(ws, Happen(ws, b, WithoutCache(e)))
    ensures Happen(ws, a, e).files == Happen(ws, b, WithoutCache(e)).files
  {
    if e.Act? {
      ActionEffect(ws, a, e.options, e.n);
      ActionEffect(ws, b, e.options.(useCache := false), e.n);
      if IsHit(ws, a, e.options, e.n) {
        HitIsFaithful(ws, a, e.options, e.n);
      }
    }
  }

  ghost predicate Unboxed(es: seq<Happening>) {
    forall i :: 0 <= i < |es| && es[i].Act? ==> !es[i].options.sandbox
  }

  lemma PlainNext(ws: Workspace, a: World, b: World, e: Happening)
    requires EventOk(ws, e) && Plain(e) && Screened(ws, a.cache) && a.dynamic == b.dynamic
    ensures EventOk(ws, WithoutCache(e)) && Screened(ws, Happen(ws, a, e).cache)
    ensures Happen(ws, a, e).dynamic == Happen(ws, b, WithoutCache(e)).dynamic
  {
    if e.Act? {
      ScreenedNext(ws, a, e.options, e.n);
    }
  }

  /**
   Cache transparency: over every history of actions, edits, evictions and lost
   entries the store stays valid and the files are those of the same history run
   without a cache, provided that no sandboxed action follows one that was run
   outside the sandbox or recorded its inputs (`SandboxBypass` shows why).
   */
  lemma {:induction false} CacheTransparency(ws: Workspace, w: World, es: seq<Happening>)
    requires ValidStore(ws, w) && forall e :: e in es ==> EventOk(ws, e)
    requires Steady(es) && (Screened(ws, w.cache) || Unboxed(es))
    ensures forall e :: e in Uncached(es) ==> EventOk(ws, e)
    ensures ValidStore(ws, Play(ws, w, es))
    ensures Play(ws, w, es).files == Play(ws, w, Uncached(es)).files
  {
    UncachedOk(ws, es);
    PlayTransparent(ws, w, es);
  }

  lemma UncachedLast(es: seq<Happening>)
    requires |es| > 0
    ensures |Uncached(es)| == |es|
    ensures Uncached(es)[..|es| - 1] == Uncached(es[..|es| - 1])
    ensures Uncached(es)[|es| - 1] == WithoutCache(es[|es| - 1])
  {
  }

  lemma {:induction false} PlayTransparent(ws: Workspace, w: World, es: seq<Happening>)
    requires ValidStore(ws, w) && forall e :: e in es ==> EventOk(ws, e)
    requires Steady(es) && (Screened(ws, w.cache) || Unboxed(es))
    requires forall e :: e in Uncached(es) ==> EventOk(ws, e)
    ensures ValidStore(ws, Play(ws, w, es)) && ValidStore(ws, Play(ws, w, Uncached(es)))
    ensures Play(ws, w, es).files == Play(ws, w, Uncached(es)).files
    ensures Screened(ws, w.cache) && (forall i :: 0 <= i < |es| ==> Plain(es[i])) ==>
      Screened(ws, Play(ws, w, es).cache) && Play(ws, w, es).dynamic == Play(ws, w, Uncached(es)).dynamic
    decreases |es|
  {
    if |es| > 0 {
      hide Screened, ValidStore, Happen, WithoutCache, EventOk, Uncached;
      var before, e := es[..|es| - 1], es[|es| - 1];
      assert e in es;
      UncachedLast(es);
      UncachedOk(ws, before);
      PlayTransparent(ws, w, before);
      HappenTransparent(ws, Play(ws, w, before), Play(ws, w, Uncached(before)), e);
      if Screened(ws, w.cache) && forall i :: 0 <= i < |es| ==> Plain(es[i]) {
        PlainNext(ws, Play(ws, w, before), Play(ws, w, Uncached(before)), e);
      }
    }
  }

  // ----- what a cache hit stands for --------------------------------------------------

  /** The `i`-th event ran an action, found no answer in the cache, and gave its key an entry. */
  ghost predicate FilledBy(ws: Workspace, w: World, es: seq<Happening>, i: nat, key: Key)
    requires i < |es| && forall e :: e in es ==> EventOk(ws, e)
  {
    && es[i].Act? && KnownDeps(ws, es[i].n)
    && var v := Play(ws, w, es[..i]);
       && ExecuteAction(ws, v, es[i].options, es[i].n).1 == Executed
       && ActionKey(ws, v.files, v.dynamic, es[i].options.context, es[i].n) == key
  }

  /** Every entry of a cache that was once empty was made by an action that ran. */
  lemma {:induction false} EntryHasRun(ws: Workspace, w: World, es: seq<Happening>, key: Key)
    requires w.cache == map[] && forall e :: e in es ==> EventOk(ws, e)
    requires key in Play(ws, w, es).cache
    ensures exists i :: 0 <= i < |es| && FilledBy(ws, w, es, i, key)
    decreases |es|
  {
    hide ActionKey, IsHit, Attempt;
    var last := |es| - 1;
    var before := es[..last];
    assert es[last] in es;
    if key in Play(ws, w, before).cache {
      EntryHasRun(ws, w, before, key);
      var i :| 0 <= i < |before| && FilledBy(ws, w, before, i, key);
      assert before[..i] == es[..i];
      assert FilledBy(ws, w, es, i, key);
    } else {
      assert FilledBy(ws, w, es, last, key);
    }
  }

  /**
   A hit stands for a run: in every history of a workspace that starts with an empty cache, an action
   answered by the cache was really run before, for the same target, with the same toolchain, on the same
   platform, in the same directory, under the same whitelisted variables, with the same inputs holding the same bytes.
   */
  lemma HitHasRun(ws: Workspace, w: World, es: seq<Happening>, o: Options, n: Name)
    requires w.cache == map[] && KnownDeps(ws, n) && forall e :: e in es ==> EventOk(ws, e)
    requires IsHit(ws, Play(ws, w, es), o, n)
    ensures exists i :: 0 <= i < |es| && RanAlike(ws, w, es, i, Play(ws, w, es), o.context, n)
  {
    var now := Play(ws, w, es);
    var key := ActionKey(ws, now.files, now.dynamic, o.context, n);
    EntryHasRun(ws, w, es, key);
    var i :| 0 <= i < |es| && FilledBy(ws, w, es, i, key);
    var v := Play(ws, w, es[..i]);
    KeyTells(ws, ws, v.files, now.files, v.dynamic, now.dynamic, es[i].options.context, o.context, es[i].n, n);
    assert RanAlike(ws, w, es, i, now, o.context, n);
  }

  /** The `i`-th event ran `n` in the same surroundings and on the same inputs as there are now. */
  ghost predicate RanAlike(ws: Workspace, w: World, es: seq<Happening>, i: nat, now: World, c: Context, n: Name)
    requires i < |es| && KnownDeps(ws, n) && forall e :: e in es ==> EventOk(ws, e)
  {
    && es[i].Act? && es[i].n == n && SameSurroundings(ws, ws, es[i].options.context, c)
    && var v := Play(ws, w, es[..i]);
       && ExecuteAction(ws, v, es[i].options, n).1 == Executed
       && (forall p :: TakesPath(ws, v.dynamic, n, p) <==> TakesPath(ws, now.dynamic, n, p))
       && (forall p :: TakesPath(ws, now.dynamic, n, p) ==> SameFile(v.files, now.files, p))
  }

  /**
   A cache filled in other surroundings never answers: after any history whose actions were all started on
   another platform, in another directory or with a whitelisted variable set differently, an action is not a hit.
   */
  lemma OtherSurroundingsMiss(ws: Workspace, w: World, es: seq<Happening>, o: Options, n: Name)
    requires w.cache == map[] && KnownDeps(ws, n) && forall e :: e in es ==> EventOk(ws, e)
    requires forall e :: e in es && e.Act? ==> !SameSurroundings(ws, ws, e.options.context, o.context)
    ensures !IsHit(ws, Play(ws, w, es), o, n)
  {
    hide IsHit, SameSurroundings;
    if IsHit(ws, Play(ws, w, es), o, n) {
      HitHasRun(ws, w, es, o, n);
    }
  }

  /** A workspace that has never been built has a valid store. */
  lemma EmptyStoreIsValid(ws: Workspace, files: Files, saved: Option<map<Path, FileHash>>, dynamic: DynamicDeps)
    ensures ValidStore(ws, World(files, map[], map[], saved, dynamic))
  {
  }

  // ----- comment-only edits -------------------------------------------------------

  lemma SemanticDecides(ws: Workspace, n: Name, a: string, b: string, depData: seq<string>)
    requires n in ws.targets && |depData| == |ws.targets[n].deps|
    requires Semantic(Universal(a)) == Semantic(Universal(b))
    ensures ActionOutput(ws, n, Some(a), depData) == ActionOutput(ws, n, Some(b), depData)
  {
  }

  /** A comment line inserted into its source leaves what an action writes unchanged. */
  lemma {:induction false} CommentEditSameRun(ws: Workspace, files: Files, n: Name, a: string, c: string, b: string)
    requires KnownDeps(ws, n) && forall d :: d in ws.targets[n].deps ==> ws.targets[d].out != ws.targets[n].src
    requires EndsLine(a) && IsComment(c) && forall k :: 0 <= k < |c| ==> !IsLineBreak(c[k])
    requires ws.targets[n].src in files && files[ws.targets[n].src] == a + b
    requires RunAction(ws, files, n).Ran?
    requires RunAction(ws, files[ws.targets[n].src := a + (c + "\n" + b)], n).Ran?
    ensures RunAction(ws, files[ws.targets[n].src := a + (c + "\n" + b)], n) == RunAction(ws, files, n)
  {
    var edited := files[ws.targets[n].src := a + (c + "\n" + b)];
    hide PayloadOf, AsksToFail;
    CommentLineInFile(a, c, b);
    assert DepData(ws, edited, n) == DepData(ws, files, n);
    SemanticDecides(ws, n, a + b, a + (c + "\n" + b), DepData(ws, files, n));
  }

  /** After such an edit and a rerun of `n`, the key of every other target is what it was. */
  lemma CommentEditStopsAtLeaf(ws: Workspace, files: Files, dynamic: DynamicDeps, context: Context, n: Name, m: Name,
          text: string)
    requires KnownDeps(ws, n) && KnownDeps(ws, m) && ws.targets[n].src !in Declared(ws, dynamic, m)
    requires ws.targets[n].out in files && RunAction(ws, files, n) == Ran(files[ws.targets[n].out])
    requires RunAction(ws, files[ws.targets[n].src := text], n) == RunAction(ws, files, n)
    ensures var edited := files[ws.targets[n].src := text];
      ActionKey(ws, edited[ws.targets[n].out := RunAction(ws, edited, n).data], dynamic, context, m)
      == ActionKey(ws, files, dynamic, context, m)
  {
    var edited := files[ws.targets[n].src := text];
    var after := edited[ws.targets[n].out := RunAction(ws, edited, n).data];
    assert forall p :: p != ws.targets[n].src ==> SameFile(files, after, p);
    SameInputs(ws, files, after, dynamic, m);
  }

  lemma SameInputs(ws: Workspace, a: Files, b: Files, dynamic: DynamicDeps, m: Name)
    requires KnownDeps(ws, m)
    requires SameFile(a, b, ws.targets[m].src)
    requires forall p :: p in ExtraInputs(ws, dynamic, m) ==> SameFile(a, b, p)
    requires forall d :: d in ws.targets[m].deps ==> SameFile(a, b, ws.targets[d].out)
    ensures Inputs(ws, a, dynamic, m) == Inputs(ws, b, dynamic, m)
  {
    var extra := ExtraInputs(ws, dynamic, m);
    assert ExtraEntries(a, extra) == ExtraEntries(b, extra);
    assert DepEntries(ws, a, ws.targets[m].deps) == DepEntries(ws, b, ws.targets[m].deps);
  }
}
