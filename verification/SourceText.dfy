/**
 What an action reads out of a source file: the text without comment lines,
 and whether the source asks the simulated action to fail.
 */
module SourceText {

  /** The separators `str.splitlines` knows. */
  predicate IsLineBreak(c: char) {
    c == '\n' || c == '\r' || c == '\U{0b}' || c == '\U{0c}' || c == '\U{1c}' || c == '\U{1d}' ||
    c == '\U{1e}' || c == '\U{85}' || c == '\U{2028}' || c == '\U{2029}'
  }

  predicate IsSpace(c: char) {
    IsLineBreak(c) || c == ' ' || c == '\t' || c == '\U{1f}' || c == '\U{a0}' || c == '\U{1680}' ||
    '\U{2000}' <= c <= '\U{200a}' || c == '\U{202f}' || c == '\U{205f}' || c == '\U{3000}'
  }

  /** The position of the first separator, or the length. */
  function FirstBreak(s: string): (i: nat)
    ensures i <= |s|
    ensures forall k :: 0 <= k < i ==> !IsLineBreak(s[k])
    ensures i < |s| ==> IsLineBreak(s[i])
  {
    if s == "" then 0
    else if IsLineBreak(s[0]) then 0
    else FirstBreak(s[1..]) + 1
  }

  /** Where the next line starts: a CR LF pair is one separator. */
  function NextLine(s: string, i: nat): (j: nat)
    requires i < |s|
    ensures i < j <= |s|
  {
    if s[i] == '\r' && i + 1 < |s| && s[i + 1] == '\n' then i + 2 else i + 1
  }

  function SplitLines(s: string): seq<string>
    decreases |s|
  {
    if s == "" then []
    else
      var i := FirstBreak(s);
      if i == |s| then [s] else [s[..i]] + SplitLines(s[NextLine(s, i)..])
  }

  /** `line.lstrip().startswith("#")` */
  predicate IsComment(line: string) {
    line != "" && (line[0] == '#' || (IsSpace(line[0]) && IsComment(line[1..])))
  }

  function DropComments(lines: seq<string>): seq<string> {
    if lines == [] then []
    else (if IsComment(lines[0]) then [] else [lines[0]]) + DropComments(lines[1..])
  }

  function Join(lines: seq<string>): string {
    if lines == [] then "" else if |lines| == 1 then lines[0] else lines[0] + "\n" + Join(lines[1..])
  }

  function Semantic(text: string): string {
    Join(DropComments(SplitLines(text))) + "\n"
  }

  /** Text as `read_text` returns it: a CR LF pair and a lone CR become LF. */
  function Universal(s: string): string
    decreases |s|
  {
    if s == "" then ""
    else if s[0] == '\r' then "\n" + Universal(s[NextLine(s, 0)..])
    else [s[0]] + Universal(s[1..])
  }

  /** A match of `FAIL` as the first word of a line, leading white space (line breaks included) aside. */
  predicate FailAt(s: string, i: nat, j: nat) {
    && i <= j && j + 4 <= |s|
    && (i == 0 || s[i - 1] == '\n')
    && (forall k :: i <= k < j ==> IsSpace(s[k]))
    && s[j..j + 4] == "FAIL"
    && (j + 4 == |s| || IsSpace(s[j + 4]))
  }

  predicate AsksToFail(file: string) {
    var s := Universal(file);
    exists i, j | 0 <= i <= |s| && 0 <= j <= |s| :: FailAt(s, i, j)
  }

  // ----- lines --------------------------------------------------------------

  predicate OneLine(s: string) {
    forall k :: 0 <= k < |s| ==> !IsLineBreak(s[k])
  }

  /** The first character that is not white space is `#`, and it is the `i`-th. */
  predicate HashFirst(line: string, i: nat) {
    i < |line| && line[i] == '#' && forall k :: 0 <= k < i ==> IsSpace(line[k])
  }

  lemma {:induction false} CommentIsHashFirst(line: string)
    ensures IsComment(line) <==> exists i: nat :: HashFirst(line, i)
  {
    if line != "" && line[0] != '#' {
      CommentIsHashFirst(line[1..]);
      if i: nat :| HashFirst(line[1..], i) {
        assert IsSpace(line[0]) ==> HashFirst(line, i + 1) by {
          forall k | 0 <= k < i + 1 && IsSpace(line[0]) ensures IsSpace(line[k]) {
            assert k > 0 ==> line[k] == line[1..][k - 1];
          }
        }
      }
      if i: nat :| HashFirst(line, i) {
        assert i > 0 && IsSpace(line[0]);
        forall k | 0 <= k < i - 1 ensures IsSpace(line[1..][k]) {
          assert line[1..][k] == line[k + 1];
        }
        assert HashFirst(line[1..], i - 1);
      }
    } else if line != "" {
      assert HashFirst(line, 0);
    }
  }

  lemma {:induction false} DropCommentsKeeps(lines: seq<string>, l: string)
    ensures multiset(DropComments(lines))[l] == if IsComment(l) then 0 else multiset(lines)[l]
  {
    hide IsComment;
    if lines != [] {
      DropCommentsKeeps(lines[1..], l);
      assert lines == [lines[0]] + lines[1..];
    }
  }

  lemma {:induction false} SplitGivesLines(s: string)
    ensures forall l :: l in SplitLines(s) ==> OneLine(l)
    decreases |s|
  {
    if s != "" {
      var i := FirstBreak(s);
      if i < |s| {
        SplitGivesLines(s[NextLine(s, i)..]);
      }
    }
  }

  lemma {:induction false} JoinThenSplit(lines: seq<string>)
    requires forall l :: l in lines ==> OneLine(l)
    ensures SplitLines(Join(lines) + "\n") == if lines == [] then [""] else lines
  {
    if |lines| <= 1 {
      var c := if lines == [] then "" else lines[0];
      assert c + "\n" + "" == c + "\n";
      assert lines != [] ==> lines == [c] && OneLine(lines[0]);
      SplitCommentLine(c, "");
    } else {
      var rest := lines[1..];
      assert lines[0] in lines;
      hide SplitLines;
      assert Join(lines) + "\n" == lines[0] + "\n" + (Join(rest) + "\n");
      SplitCommentLine(lines[0], Join(rest) + "\n");
      JoinThenSplit(rest);
    }
  }

  /** The lines of the semantic text are the lines of the source that are not comments, in their order. */
  lemma SemanticKeepsLines(text: string)
    ensures var kept := DropComments(SplitLines(text));
      SplitLines(Semantic(text)) == if kept == [] then [""] else kept
  {
    SplitGivesLines(text);
    var kept := DropComments(SplitLines(text));
    forall l | l in kept ensures OneLine(l) {
      DropCommentsKeeps(SplitLines(text), l);
      assert l in multiset(kept) && l in multiset(SplitLines(text));
    }
    JoinThenSplit(kept);
  }

  lemma {:induction false} UniversalOfLine(c: string, rest: string)
    requires OneLine(c)
    ensures Universal(c + rest) == c + Universal(rest)
  {
    if c == "" {
      assert c + rest == rest;
    } else {
      assert (c + rest)[1..] == c[1..] + rest;
      UniversalOfLine(c[1..], rest);
    }
  }

  lemma SplitAtBreak(c: string, b: char, rest: string)
    requires OneLine(c) && IsLineBreak(b) && (b == '\r' ==> rest == "" || rest[0] != '\n')
    ensures SplitLines(c + [b] + rest) == [c] + SplitLines(rest)
  {
    var s := c + [b] + rest;
    FirstBreakIs(s, |c|);
    assert s[..|c|] == c && s[|c| + 1..] == rest;
  }

  lemma {:induction false} FirstBreakIs(s: string, i: nat)
    requires i < |s| && IsLineBreak(s[i]) && forall k :: 0 <= k < i ==> !IsLineBreak(s[k])
    ensures FirstBreak(s) == i
  {
  }

  /** Reading a file as text leaves its lines as they are, and no carriage return. */
  lemma {:induction false} UniversalKeepsLines(s: string)
    ensures SplitLines(Universal(s)) == SplitLines(s) && '\r' !in Universal(s)
    decreases |s|
  {
    var i := FirstBreak(s);
    if i == |s| {
      UniversalOfLine(s, "");
      assert s + "" == s && Universal("") == "";
    } else {
      var rest := s[NextLine(s, i)..];
      SplitUnfold(s, i);
      UniversalUnfold(s, i);
      hide Universal, SplitLines, FirstBreak, NextLine;
      UniversalKeepsLines(rest);
      SplitAtBreak(s[..i], if s[i] == '\r' then '\n' else s[i], Universal(rest));
    }
  }

  lemma SplitUnfold(s: string, i: nat)
    requires i == FirstBreak(s) < |s|
    ensures SplitLines(s) == [s[..i]] + SplitLines(s[NextLine(s, i)..])
  {
  }

  lemma UniversalUnfold(s: string, i: nat)
    requires i == FirstBreak(s) < |s|
    ensures Universal(s) == s[..i] + [if s[i] == '\r' then '\n' else s[i]] + Universal(s[NextLine(s, i)..])
  {
    hide Universal, FirstBreak;
    var c, t := s[..i], s[i..];
    assert s == c + t && t[NextLine(t, 0)..] == s[NextLine(s, i)..];
    UniversalOfCut(c, t);
  }

  lemma UniversalOfCut(c: string, t: string)
    requires OneLine(c) && t != "" && IsLineBreak(t[0])
    ensures Universal(c + t) == c + [if t[0] == '\r' then '\n' else t[0]] + Universal(t[NextLine(t, 0)..])
  {
    UniversalBreak(t);
    hide Universal, NextLine;
    UniversalOfLine(c, t);
  }

  lemma UniversalBreak(s: string)
    requires s != "" && IsLineBreak(s[0])
    ensures Universal(s) == [if s[0] == '\r' then '\n' else s[0]] + Universal(s[NextLine(s, 0)..])
  {
  }

  // ----- comment lines ------------------------------------------------------

  predicate EndsLine(s: string) {
    s == "" || s[|s| - 1] == '\n'
  }

  lemma {:induction false} FirstBreakPrefix(a: string, b: string)
    requires FirstBreak(a) < |a|
    ensures FirstBreak(a + b) == FirstBreak(a)
  {
    if !IsLineBreak(a[0]) {
      assert (a + b)[1..] == a[1..] + b;
      FirstBreakPrefix(a[1..], b);
    }
  }

  lemma {:induction false} SplitAfterNewline(a: string, b: string)
    requires EndsLine(a)
    ensures SplitLines(a + b) == SplitLines(a) + SplitLines(b)
    decreases |a|
  {
    if a == "" {
      assert a + b == b;
    } else {
      var i := FirstBreak(a);
      assert IsLineBreak(a[|a| - 1]);
      FirstBreakPrefix(a, b);
      var j := NextLine(a, i);
      assert NextLine(a + b, i) == j;
      assert (a + b)[j..] == a[j..] + b;
      assert (a + b)[..i] == a[..i];
      SplitAfterNewline(a[j..], b);
    }
  }

  lemma {:induction false} FirstBreakOfLine(c: string, b: string)
    requires forall k :: 0 <= k < |c| ==> !IsLineBreak(c[k])
    ensures FirstBreak(c + "\n" + b) == |c|
  {
    var s := c + "\n" + b;
    if c != "" {
      assert s[0] == c[0];
      assert s[1..] == c[1..] + "\n" + b;
      FirstBreakOfLine(c[1..], b);
    }
  }

  lemma {:induction false} DropCommentsAppend(a: seq<string>, b: seq<string>)
    ensures DropComments(a + b) == DropComments(a) + DropComments(b)
    decreases |a|
  {
    if a == [] {
      assert a + b == b;
    } else {
      assert (a + b)[1..] == a[1..] + b;
      DropCommentsAppend(a[1..], b);
    }
  }

  lemma SplitCommentLine(c: string, b: string)
    requires forall k :: 0 <= k < |c| ==> !IsLineBreak(c[k])
    ensures SplitLines(c + "\n" + b) == [c] + SplitLines(b)
  {
    var s := c + "\n" + b;
    FirstBreakOfLine(c, b);
    assert s[..|c|] == c && s[|c|] == '\n';
    assert s[|c| + 1..] == b;
  }

  lemma {:induction false} UniversalAppend(a: string, b: string)
    requires a == "" || a[|a| - 1] != '\r'
    ensures Universal(a + b) == Universal(a) + Universal(b)
    decreases |a|
  {
    if a == "" {
      assert a + b == b;
    } else if a[0] == '\r' {
      var i := NextLine(a, 0);
      assert (a + b)[i..] == a[i..] + b;
      UniversalAppend(a[i..], b);
    } else {
      assert (a + b)[1..] == a[1..] + b;
      UniversalAppend(a[1..], b);
    }
  }

  lemma {:induction false} UniversalEndsLine(a: string)
    requires EndsLine(a)
    ensures EndsLine(Universal(a))
    decreases |a|
  {
    if a != "" {
      UniversalEndsLine(a[if a[0] == '\r' then NextLine(a, 0) else 1..]);
    }
  }

  lemma {:induction false} UniversalLine(c: string)
    requires forall k :: 0 <= k < |c| ==> !IsLineBreak(c[k])
    ensures Universal(c + "\n") == c + "\n"
  {
    if c != "" {
      assert (c + "\n")[1..] == c[1..] + "\n";
      UniversalLine(c[1..]);
    }
  }

  lemma {:induction false} UniversalWithoutReturns(s: string)
    requires '\r' !in s
    ensures Universal(s) == s
  {
    if s != "" {
      UniversalWithoutReturns(s[1..]);
    }
  }

  /** Any file with an indented line `FAIL`, or one that starts with that word, asks to fail. */
  lemma FailLine(a: string, blank: string, space: char, b: string)
    requires EndsLine(a) && '\r' !in blank && space != '\r' && IsSpace(space)
    requires forall k :: 0 <= k < |blank| ==> IsSpace(blank[k])
    ensures AsksToFail(a + (blank + "FAIL" + [space] + b))
  {
    var line := blank + "FAIL" + [space];
    UniversalAppend(a, line + b);
    UniversalAppend(line, b);
    UniversalWithoutReturns(line);
    UniversalEndsLine(a);
    hide Universal, IsSpace, FailAt;
    assert Universal(a + (line + b)) == Universal(a) + (line + Universal(b));
    FailAtLine(Universal(a), blank, space, Universal(b));
  }

  lemma FailAtLine(u: string, blank: string, space: char, v: string)
    requires EndsLine(u) && IsSpace(space) && forall k :: 0 <= k < |blank| ==> IsSpace(blank[k])
    ensures FailAt(u + (blank + "FAIL" + [space] + v), |u|, |u| + |blank|)
  {
    hide IsSpace;
    var s := u + (blank + "FAIL" + [space] + v);
    var i, j := |u|, |u| + |blank|;
    assert s[i..j] == blank && s[j..j + 4] == "FAIL" && s[j + 4] == space;
    forall k | i <= k < j ensures IsSpace(s[k]) {
      assert s[k] == s[i..j][k - i];
    }
  }

  /** Inserting a whole comment line into a file changes nothing an action reads of it. */
  lemma CommentLineInFile(a: string, c: string, b: string)
    requires EndsLine(a) && IsComment(c)
    requires forall k :: 0 <= k < |c| ==> !IsLineBreak(c[k])
    ensures Semantic(Universal(a + (c + "\n" + b))) == Semantic(Universal(a + b))
  {
    UniversalAppend(a, c + "\n" + b);
    UniversalAppend(a, b);
    UniversalAppend(c + "\n", b);
    UniversalLine(c);
    UniversalEndsLine(a);
    CommentLineIsInvisible(Universal(a), c, Universal(b));
  }

  /** Inserting a whole comment line changes nothing of the semantic text. */
  lemma {:induction false} CommentLineIsInvisible(a: string, c: string, b: string)
    requires EndsLine(a) && IsComment(c)
    requires forall k :: 0 <= k < |c| ==> !IsLineBreak(c[k])
    ensures Semantic(a + (c + "\n" + b)) == Semantic(a + b)
  {
    var s, la, lb := c + "\n" + b, SplitLines(a), SplitLines(b);
    SplitCommentLine(c, b);
    SplitAfterNewline(a, s);
    SplitAfterNewline(a, b);
    DropCommentsAppend(la, [c] + lb);
    DropCommentsAppend(la, lb);
    assert ([c] + lb)[0] == c && ([c] + lb)[1..] == lb;
    assert DropComments([c] + lb) == DropComments(lb);
  }
}
