/**
 The Windows command line of `spawn_daemon`: the quoting loop, checked against
 the rules of "Parsing C command-line arguments" in the Microsoft C language
 reference.
 */
module ArgvQuoting {
  type Unit = u: nat | u < 0x1_0000

  const NUL: Unit := 0
  const TAB: Unit := 9
  const SPACE: Unit := 32
  const QUOTE: Unit := 34
  const BACKSLASH: Unit := 92

  type Text = seq<Unit>

  predicate Blank(u: Unit) {
    u == SPACE || u == TAB
  }

  predicate AtEnd(s: Text) {
    s == [] || s[0] == NUL
  }

  function Slashes(n: nat): (s: Text)
    ensures |s| == n && forall i :: 0 <= i < n ==> s[i] == '\\' as nat
  {
    seq(n, _ => BACKSLASH)
  }

  // ----- the parser's rules ----------------------------------------------------------

  /**
   The first argument follows its own rule: quotes only switch blanks between
   separators and text, and a backslash is always text.
   */
  function ProgramName(s: Text, quoted: bool): (r: (Text, Text))
    ensures QUOTE !in r.0 && NUL !in r.0 && |r.1| <= |s|
  {
    if AtEnd(s) || (!quoted && Blank(s[0])) then ([], s)
    else if s[0] == QUOTE then ProgramName(s[1..], !quoted)
    else
      var (name, rest) := ProgramName(s[1..], quoted);
      ([s[0]] + name, rest)
  }

  /**
   One later argument, `slashes` backslashes into it: backslashes are text
   unless a quote follows them; before a quote each pair stands for one
   backslash and an odd one makes the quote text; inside quotes a doubled
   quote is one quote of text.
   */
  function Argument(s: Text, quoted: bool, slashes: nat): (r: (Text, Text))
    ensures NUL !in r.0 && |r.1| <= |s|
    ensures !AtEnd(s) && !Blank(s[0]) ==> |r.1| < |s|
    decreases |s|
  {
    if AtEnd(s) || (!quoted && Blank(s[0])) then (Slashes(slashes), s)
    else if s[0] == BACKSLASH then Argument(s[1..], quoted, slashes + 1)
    else if s[0] == QUOTE then
      if slashes % 2 == 1 then
        var (text, rest) := Argument(s[1..], quoted, 0);
        (Slashes(slashes / 2) + [QUOTE] + text, rest)
      else if quoted && |s| > 1 && s[1] == QUOTE then
        var (text, rest) := Argument(s[2..], quoted, 0);
        (Slashes(slashes / 2) + [QUOTE] + text, rest)
      else
        var (text, rest) := Argument(s[1..], !quoted, 0);
        (Slashes(slashes / 2) + text, rest)
    else
      var (text, rest) := Argument(s[1..], quoted, 0);
      (Slashes(slashes) + [s[0]] + text, rest)
  }

  function Arguments(s: Text): (r: seq<Text>)
    ensures forall a :: a in r ==> NUL !in a
    decreases |s|
  {
    if AtEnd(s) then []
    else if Blank(s[0]) then Arguments(s[1..])
    else
      var (text, rest) := Argument(s, false, 0);
      [text] + Arguments(rest)
  }

  function Parse(s: Text): (r: seq<Text>)
    ensures forall a :: a in r ==> NUL !in a
    ensures |r| > 0 && QUOTE !in r[0]
  {
    var (name, rest) := ProgramName(s, false);
    [name] + Arguments(rest)
  }

  // ----- what the loop prints -----------------------------------------------------------

  /** The text between the quotes for what is left of an argument, `slashes` backslashes being held back. */
  function Escaped(text: Text, slashes: nat): Text
    decreases |text|
  {
    if text == [] then Slashes(2 * slashes)
    else if text[0] == BACKSLASH then Escaped(text[1..], slashes + 1)
    else if text[0] == QUOTE then Slashes(2 * slashes + 1) + [QUOTE] + Escaped(text[1..], 0)
    else Slashes(slashes) + [text[0]] + Escaped(text[1..], 0)
  }

  function Quoted(text: Text): Text {
    [QUOTE] + Escaped(text, 0) + [QUOTE]
  }

  function Joined(args: seq<Text>): Text {
    if args == [] then []
    else if |args| == 1 then Quoted(args[0])
    else Joined(args[..|args| - 1]) + [SPACE] + Quoted(args[|args| - 1])
  }

  lemma JoinedNone()
    ensures Joined([]) == []
  {}

  lemma JoinedOneMore(args: seq<Text>, i: nat)
    requires i < |args|
    ensures Joined(args[..i + 1]) == (if i == 0 then [] else Joined(args[..i]) + [SPACE]) + Quoted(args[i])
    ensures Joined(args[..i + 1]) != []
  {
    assert args[..i + 1][..i] == args[..i];
  }

  /** The loop of `spawn_daemon` over any argument list, with the closing NUL. */
  method CommandLine(args: seq<Text>) returns (line: Text)
    ensures line == Joined(args) + [NUL]
    ensures Parse(line) == args <==>
            args != [] && Passable(args[0]) && forall a :: a in args ==> NUL !in a
  {
    hide Parse, Passable, Joined;
    line := [];
    assert args[..0] == [];
    JoinedNone();
    var i := 0;
    while i < |args|
      invariant 0 <= i <= |args|
      invariant line == Joined(args[..i])
      invariant i > 0 ==> line != []
    {
      JoinedOneMore(args, i);
      ghost var before := line;
      if line != [] {
        line := line + [SPACE];
      }
      line := line + [QUOTE];
      ghost var start := line;
      var argument := args[i];
      var backslashes: nat := 0;
      var j := 0;
      while j < |argument|
        invariant 0 <= j <= |argument|
        invariant start <= line
        invariant line + Escaped(argument[j..], backslashes) == start + Escaped(argument, 0)
      {
        ghost var l0, held := line, backslashes;
        var unit := argument[j];
        assert argument[j..][0] == unit && argument[j..][1..] == argument[j + 1..];
        if unit == BACKSLASH {
          backslashes := backslashes + 1;
        } else if unit == QUOTE {
          line := line + Slashes(backslashes * 2 + 1);
          line := line + [unit];
          backslashes := 0;
          assert l0 + Escaped(argument[j..], held) == line + Escaped(argument[j + 1..], 0);
        } else {
          line := line + Slashes(backslashes);
          line := line + [unit];
          backslashes := 0;
          assert l0 + Escaped(argument[j..], held) == line + Escaped(argument[j + 1..], 0);
        }
        j := j + 1;
      }
      line := line + Slashes(backslashes * 2);
      assert line == start + Escaped(argument, 0);
      line := line + [QUOTE];
      assert line == (if i == 0 then [] else before + [SPACE]) + Quoted(argument);
      i := i + 1;
    }
    assert args[..|args|] == args;
    line := line + [NUL];
    QuotingRoundTrip(args);
  }

  /** The line `spawn_daemon` hands to `CreateProcessW`: only the executable's own path is restricted. */
  method DaemonCommandLine(executable: Text, root: Text) returns (line: Text)
    requires NUL !in executable && NUL !in root
    ensures Parse(line) == [executable, Wide("-C"), root, Wide("daemon"), Wide("serve")] <==> Passable(executable)
    ensures Passable(executable) && Passable(root) ==>
      line == InQuotes(executable) + Wide(" ") + InQuotes(Wide("-C")) + Wide(" ") + InQuotes(root) + Wide(" ")
        + InQuotes(Wide("daemon")) + Wide(" ") + InQuotes(Wide("serve")) + [0]
  {
    hide Parse, Joined, Passable, Wide, InQuotes;
    line := CommandLine([executable, Wide("-C"), root, Wide("daemon"), Wide("serve")]);
    FixedArguments();
    if Passable(executable) && Passable(root) {
      DaemonLine(executable, root);
    }
  }

  lemma FixedArguments()
    ensures NUL !in Wide("-C") && NUL !in Wide("daemon") && NUL !in Wide("serve")
    ensures Passable(Wide("-C")) && Passable(Wide("daemon")) && Passable(Wide("serve"))
  {}

  /** Text of one unit per character in UTF-16. */
  function Wide(s: string): (t: Text)
    ensures |t| == |s| && forall i :: 0 <= i < |s| ==> t[i] == s[i] as nat % 0x1_0000
  {
    seq(|s|, i requires 0 <= i < |s| => s[i] as nat % 0x1_0000)
  }

  function InQuotes(text: Text): Text {
    Wide("\"") + text + Wide("\"")
  }

  /** Text that needs no escaping is printed as it is. */
  lemma {:induction false} PassableIsPrinted(text: Text, slashes: nat)
    requires Passable(text) && (text == [] ==> slashes == 0)
    ensures Escaped(text, slashes) == Slashes(slashes) + text
    decreases |text|
  {
    if text != [] {
      if text[0] == BACKSLASH {
        PassableIsPrinted(text[1..], slashes + 1);
        assert Slashes(slashes + 1) + text[1..] == Slashes(slashes) + text;
      } else {
        PassableIsPrinted(text[1..], 0);
        assert Slashes(slashes) + [text[0]] + (Slashes(0) + text[1..]) == Slashes(slashes) + text;
      }
    }
  }

  /** Such an argument only gets its quotes. */
  lemma PassableIsQuoted(text: Text)
    requires Passable(text)
    ensures Quoted(text) == InQuotes(text)
  {
    PassableIsPrinted(text, 0);
    assert Slashes(0) + text == text;
    assert Wide("\"") == [QUOTE];
  }

  /**
   How backslashes are printed: doubled before the closing quote, doubled with one more before a quote, and as
   they are before anything else.
   */
  lemma EscapingRules(n: nat, u: Unit, rest: Text)
    ensures Escaped(Slashes(n), 0) == Slashes(2 * n)
    ensures Escaped(Slashes(n) + Wide("\"") + rest, 0) == Slashes(2 * n + 1) + Wide("\"") + Escaped(rest, 0)
    ensures u != '\\' as nat && u != '"' as nat ==>
      Escaped(Slashes(n) + [u] + rest, 0) == Slashes(n) + [u] + Escaped(rest, 0)
  {
    assert Wide("\"") == [QUOTE];
    assert Slashes(n) + [] == Slashes(n);
    HoldBack(n, [], 0);
    assert Slashes(n) + [QUOTE] + rest == Slashes(n) + ([QUOTE] + rest);
    HoldBack(n, [QUOTE] + rest, 0);
    assert Slashes(n) + [u] + rest == Slashes(n) + ([u] + rest);
    HoldBack(n, [u] + rest, 0);
  }

  lemma {:induction false} HoldBack(n: nat, rest: Text, slashes: nat)
    ensures Escaped(Slashes(n) + rest, slashes) == Escaped(rest, slashes + n)
    decreases n
  {
    if n == 0 {
      assert Slashes(n) + rest == rest;
    } else {
      var t := Slashes(n) + rest;
      assert t[0] == BACKSLASH && t[1..] == Slashes(n - 1) + rest;
      HoldBack(n - 1, rest, slashes + 1);
    }
  }

  lemma DaemonLine(executable: Text, root: Text)
    requires Passable(executable) && Passable(root)
    ensures Joined([executable, Wide("-C"), root, Wide("daemon"), Wide("serve")]) ==
      InQuotes(executable) + Wide(" ") + InQuotes(Wide("-C")) + Wide(" ") + InQuotes(root) + Wide(" ")
        + InQuotes(Wide("daemon")) + Wide(" ") + InQuotes(Wide("serve"))
  {
    assert Wide(" ") == [SPACE];
    hide Joined, Passable, Wide, InQuotes, Quoted;
    FixedArguments();
    PassableIsQuoted(executable);
    PassableIsQuoted(Wide("-C"));
    PassableIsQuoted(root);
    PassableIsQuoted(Wide("daemon"));
    PassableIsQuoted(Wide("serve"));
    JoinedFive(executable, Wide("-C"), root, Wide("daemon"), Wide("serve"));
  }

  lemma JoinedLast(args: seq<Text>, last: Text)
    requires args != []
    ensures Joined(args + [last]) == Joined(args) + [SPACE] + Quoted(last)
  {
    assert (args + [last])[..|args|] == args;
  }

  lemma JoinedFive(a: Text, b: Text, c: Text, d: Text, e: Text)
    ensures Joined([a, b, c, d, e]) ==
      Quoted(a) + [SPACE] + Quoted(b) + [SPACE] + Quoted(c) + [SPACE] + Quoted(d) + [SPACE] + Quoted(e)
  {
    assert Joined([a]) == Quoted(a);
    hide Quoted, Joined;
    JoinedLast([a], b);
    JoinedLast([a, b], c);
    JoinedLast([a, b, c], d);
    JoinedLast([a, b, c, d], e);
    assert [a] + [b] == [a, b] && [a, b] + [c] == [a, b, c] && [a, b, c] + [d] == [a, b, c, d];
    assert [a, b, c, d] + [e] == [a, b, c, d, e];
  }

  /** What the first argument must look like to come back: a path with no quote, not ending in a backslash. */
  predicate Passable(text: Text) {
    QUOTE !in text && (text == [] || text[|text| - 1] != BACKSLASH)
  }

  // ----- reading back one argument ---------------------------------------------------------

  lemma {:induction false} ReadSlashes(n: nat, s: Text, quoted: bool, slashes: nat)
    ensures Argument(Slashes(n) + s, quoted, slashes) == Argument(s, quoted, slashes + n)
    decreases n
  {
    if n == 0 {
      assert Slashes(n) + s == s;
    } else {
      var t := Slashes(n) + s;
      assert t[0] == BACKSLASH && t[1..] == Slashes(n - 1) + s;
      ReadSlashes(n - 1, s, quoted, slashes + 1);
    }
  }

  /**
   The documented rules of the parser: before a quote each pair of backslashes stands for one, an odd one makes the
   quote text, and otherwise the quote switches, unless it is the first of two inside quotes, which are one quote of
   text; backslashes before anything else are text; outside quotes a blank or a tab ends the argument.
   */
  lemma DocumentedRules(n: nat, quoted: bool, u: Unit, rest: Text)
    ensures var (text, more) := Argument(rest, quoted, 0);
      && Argument(Slashes(2 * n + 1) + (Wide("\"") + rest), quoted, 0) == (Slashes(n) + Wide("\"") + text, more)
      && (quoted ==>
            Argument(Slashes(2 * n) + (Wide("\"\"") + rest), true, 0) == (Slashes(n) + Wide("\"") + text, more))
      && (u !in Wide("\\\"") && u != 0 && (quoted || u !in Wide(" \t")) ==>
            Argument(Slashes(n) + ([u] + rest), quoted, 0) == (Slashes(n) + [u] + text, more))
    ensures var (text, more) := Argument(rest, !quoted, 0);
      !(quoted && rest != [] && rest[0] == '"' as nat) ==>
        Argument(Slashes(2 * n) + (Wide("\"") + rest), quoted, 0) == (Slashes(n) + text, more)
    ensures u in Wide(" \t") ==> Argument(Slashes(n) + ([u] + rest), false, 0) == (Slashes(n), [u] + rest)
  {
    assert Wide("\"") == [QUOTE] && Wide("\"\"") == [QUOTE, QUOTE] && Wide("\\\"") == [BACKSLASH, QUOTE];
    assert Wide(" \t") == [SPACE, TAB];
    hide Argument, Slashes, Wide;
    QuoteIsText(n, quoted, rest);
    QuoteSwitches(n, quoted, rest);
    QuotesAreQuote(n, rest);
    UnitIsText(n, quoted, u, rest);
    BlankEnds(n, u, rest);
  }

  lemma QuoteIsText(n: nat, quoted: bool, rest: Text)
    ensures var (text, more) := Argument(rest, quoted, 0);
      Argument(Slashes(2 * n + 1) + ([QUOTE] + rest), quoted, 0) == (Slashes(n) + [QUOTE] + text, more)
  {
    assert ([QUOTE] + rest)[1..] == rest;
    ReadSlashes(2 * n + 1, [QUOTE] + rest, quoted, 0);
  }

  lemma QuoteSwitches(n: nat, quoted: bool, rest: Text)
    ensures var (text, more) := Argument(rest, !quoted, 0);
      !(quoted && rest != [] && rest[0] == QUOTE) ==>
        Argument(Slashes(2 * n) + ([QUOTE] + rest), quoted, 0) == (Slashes(n) + text, more)
  {
    assert ([QUOTE] + rest)[1..] == rest;
    ReadSlashes(2 * n, [QUOTE] + rest, quoted, 0);
  }

  lemma QuotesAreQuote(n: nat, rest: Text)
    ensures var (text, more) := Argument(rest, true, 0);
      Argument(Slashes(2 * n) + ([QUOTE, QUOTE] + rest), true, 0) == (Slashes(n) + [QUOTE] + text, more)
  {
    assert ([QUOTE, QUOTE] + rest)[2..] == rest;
    ReadSlashes(2 * n, [QUOTE, QUOTE] + rest, true, 0);
  }

  lemma UnitIsText(n: nat, quoted: bool, u: Unit, rest: Text)
    ensures var (text, more) := Argument(rest, quoted, 0);
      u !in [BACKSLASH, QUOTE, NUL] && (quoted || u !in [SPACE, TAB]) ==>
        Argument(Slashes(n) + ([u] + rest), quoted, 0) == (Slashes(n) + [u] + text, more)
  {
    assert ([u] + rest)[1..] == rest;
    ReadSlashes(n, [u] + rest, quoted, 0);
  }

  lemma BlankEnds(n: nat, u: Unit, rest: Text)
    ensures u in [SPACE, TAB] ==> Argument(Slashes(n) + ([u] + rest), false, 0) == (Slashes(n), [u] + rest)
  {
    ReadSlashes(n, [u] + rest, false, 0);
  }

  /** Where a quoted argument may end: at a separator or at the end of the line. */
  predicate Boundary(tail: Text) {
    AtEnd(tail) || Blank(tail[0])
  }

  /** The backslashes held back at the end of an argument are doubled, so the quote after them closes it. */
  lemma ReadClosing(slashes: nat, tail: Text)
    requires Boundary(tail)
    ensures Argument(Slashes(2 * slashes) + [QUOTE] + tail, true, 0) == (Slashes(slashes), tail)
  {
    var next := [QUOTE] + tail;
    assert Slashes(2 * slashes) + [QUOTE] + tail == Slashes(2 * slashes) + next;
    ReadSlashes(2 * slashes, next, true, 0);
    assert next[1..] == tail;
    assert Slashes(slashes) + Slashes(0) == Slashes(slashes);
  }

  /** The escaped form of one unit other than a backslash, behind `slashes` backslashes. */
  lemma ReadEscapedUnit(unit: Unit, slashes: nat, more: Text)
    requires unit != NUL && unit != BACKSLASH
    ensures var (text, rest) := Argument(more, true, 0);
            Argument(Ahead(unit, slashes) + more, true, 0) == (Slashes(slashes) + [unit] + text, rest)
  {
    var n := if unit == QUOTE then 2 * slashes + 1 else slashes;
    var next := [unit] + more;
    assert next[1..] == more;
    assert Argument(Slashes(n) + next, true, 0) == Argument(next, true, n) by {
      hide Argument;
      ReadSlashes(n, next, true, 0);
    }
    assert Ahead(unit, slashes) + more == Slashes(n) + next;
  }

  /** Inside quotes the parser undoes the escaping, whatever backslashes were held back. */
  lemma {:induction false} ReadEscaped(text: Text, slashes: nat, tail: Text)
    requires NUL !in text && Boundary(tail)
    ensures Argument(Escaped(text, slashes) + [QUOTE] + tail, true, 0) == (Slashes(slashes) + text, tail)
    decreases |text|
  {
    hide Argument, Slashes;
    if text == [] {
      ReadClosing(slashes, tail);
      assert Slashes(slashes) + text == Slashes(slashes);
    } else if text[0] == BACKSLASH {
      ReadEscaped(text[1..], slashes + 1, tail);
      assert Slashes(slashes + 1) + text[1..] == Slashes(slashes) + text;
    } else {
      var unit, rest := text[0], text[1..];
      var more := Escaped(rest, 0) + [QUOTE] + tail;
      ReadEscaped(rest, 0, tail);
      ReadEscapedUnit(unit, slashes, more);
      EscapedUnit(text, slashes);
      assert Escaped(text, slashes) + [QUOTE] + tail == Ahead(unit, slashes) + more;
      assert Slashes(slashes) + [unit] + (Slashes(0) + rest) == Slashes(slashes) + text;
    }
  }

  /** What the loop prints for one unit other than a backslash. */
  function Ahead(unit: Unit, slashes: nat): Text {
    Slashes(if unit == QUOTE then 2 * slashes + 1 else slashes) + [unit]
  }

  lemma EscapedUnit(text: Text, slashes: nat)
    requires text != [] && text[0] != BACKSLASH
    ensures Escaped(text, slashes) == Ahead(text[0], slashes) + Escaped(text[1..], 0)
  {}

  /** A later argument comes back whatever it holds: empty, blanks, quotes, runs of backslashes. */
  lemma {:induction false} ReadQuoted(text: Text, tail: Text)
    requires NUL !in text && Boundary(tail)
    ensures Argument(Quoted(text) + tail, false, 0) == (text, tail)
  {
    var s := Quoted(text) + tail;
    assert s[1..] == Escaped(text, 0) + [QUOTE] + tail;
    ReadEscaped(text, 0, tail);
    assert Slashes(0) + text == text;
    assert Slashes(0) + s[..0] == [];
  }

  // ----- reading back the list ----------------------------------------------------------------

  /** The rest of the line after an argument, the remaining ones being `args`. */
  function Following(args: seq<Text>): Text {
    if args == [] then [NUL] else [SPACE] + Quoted(args[0]) + Following(args[1..])
  }

  lemma FollowingIsBoundary(args: seq<Text>)
    ensures Boundary(Following(args))
  {}

  lemma {:induction false} ReadFollowing(args: seq<Text>)
    requires forall a :: a in args ==> NUL !in a
    ensures Arguments(Following(args)) == args
  {
    if args != [] {
      var s := Following(args);
      var t := Quoted(args[0]) + Following(args[1..]);
      assert s[0] == SPACE && s[1..] == t;
      ReadQuoted(args[0], Following(args[1..]));
      ReadFollowing(args[1..]);
      assert t[0] == QUOTE;
    }
  }

  lemma {:induction false} JoinedThenFollowing(args: seq<Text>, n: nat)
    requires 0 < n <= |args|
    ensures Joined(args) + [NUL] == Joined(args[..n]) + Following(args[n..])
    decreases |args| - n
  {
    if n == |args| {
      assert args[..n] == args;
    } else {
      JoinedThenFollowing(args, n + 1);
      assert args[..n + 1][..n] == args[..n];
      assert args[n..][1..] == args[n + 1..];
    }
  }

  // ----- the program name -----------------------------------------------------------------------

  /** How many backslashes end the text, `slashes` of them already seen. */
  function Trailing(text: Text, slashes: nat): nat {
    if text == [] then slashes
    else if text[0] == BACKSLASH then Trailing(text[1..], slashes + 1)
    else Trailing(text[1..], 0)
  }

  lemma {:induction false} TrailingZero(text: Text, slashes: nat)
    ensures Trailing(text, slashes) == 0 <==>
            if text == [] then slashes == 0 else text[|text| - 1] != BACKSLASH
    decreases |text|
  {
    if text != [] {
      TrailingZero(text[1..], if text[0] == BACKSLASH then slashes + 1 else 0);
    }
  }

  /** Without quotes, escaping only repeats the backslashes at the end. */
  lemma {:induction false} EscapedPlain(text: Text, slashes: nat)
    requires QUOTE !in text
    ensures Escaped(text, slashes) == Slashes(slashes) + text + Slashes(Trailing(text, slashes))
    decreases |text|
  {
    if text == [] {
      assert Slashes(2 * slashes) == Slashes(slashes) + text + Slashes(slashes);
    } else if text[0] == BACKSLASH {
      EscapedPlain(text[1..], slashes + 1);
      assert Slashes(slashes + 1) + text[1..] == Slashes(slashes) + text;
    } else {
      EscapedPlain(text[1..], 0);
      assert [text[0]] + (Slashes(0) + text[1..]) == text;
      var end := Slashes(Trailing(text[1..], 0));
      assert Slashes(slashes) + [text[0]] + (Slashes(0) + text[1..] + end) == Slashes(slashes) + text + end;
    }
  }

  lemma {:induction false} ReadName(text: Text, tail: Text)
    requires QUOTE !in text && NUL !in text && Boundary(tail)
    ensures ProgramName(text + [QUOTE] + tail, true) == (text, tail)
  {
    var s := text + [QUOTE] + tail;
    if text == [] {
      assert s[0] == QUOTE && s[1..] == tail;
    } else {
      assert s[0] == text[0] && s[1..] == text[1..] + [QUOTE] + tail;
      ReadName(text[1..], tail);
      assert [text[0]] + text[1..] == text;
    }
  }

  /** The first argument comes back with its trailing backslashes doubled. */
  lemma ReadProgram(text: Text, tail: Text)
    requires QUOTE !in text && NUL !in text && Boundary(tail)
    ensures ProgramName(Quoted(text) + tail, false) == (text + Slashes(Trailing(text, 0)), tail)
  {
    var s := Quoted(text) + tail;
    var shown := text + Slashes(Trailing(text, 0));
    EscapedPlain(text, 0);
    assert Escaped(text, 0) == shown;
    assert s[0] == QUOTE && s[1..] == shown + [QUOTE] + tail;
    ReadName(shown, tail);
  }

  // ----- the round trip ---------------------------------------------------------------------------

  /** Parsing the line returns the list exactly when there is one, no NUL cuts it, and its head is `Passable`. */
  lemma {:induction false} QuotingRoundTrip(args: seq<Text>)
    ensures Parse(Joined(args) + [NUL]) == args <==>
            args != [] && Passable(args[0]) && forall a :: a in args ==> NUL !in a
  {
    hide Quoted, Following, ProgramName, Arguments, Escaped, Trailing;
    if args != [] && QUOTE !in args[0] && forall a :: a in args ==> NUL !in a {
      var line := Joined(args) + [NUL];
      JoinedThenFollowing(args, 1);
      assert args[..1] == [args[0]];
      assert line == Quoted(args[0]) + Following(args[1..]);
      FollowingIsBoundary(args[1..]);
      ReadProgram(args[0], Following(args[1..]));
      ReadFollowing(args[1..]);
      TrailingZero(args[0], 0);
      var name := args[0] + Slashes(Trailing(args[0], 0));
      assert Parse(line) == [name] + args[1..];
      assert Trailing(args[0], 0) == 0 <==> |name| == |args[0]|;
      if Trailing(args[0], 0) == 0 {
        assert name == args[0];
      }
    }
  }
}
