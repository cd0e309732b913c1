/**
 The lines of a ledger's text and the blank space around them.
 */
module LedgerLines {
  import opened Wrappers
  import opened JsonText
  import opened JsonGrammar
  import opened JsonParser
  import opened JsonPrinter

  /* ---------- lines ---------- */

  predicate OneLine(s: Text) {
    forall i :: 0 <= i < |s| ==> s[i] != LF
  }

  /** The lines of a text, the last one being what follows the last LF. */
  function Lines(text: Text): (ls: seq<Text>)
    ensures ls != []
  {
    if text == [] then [[]]
    else if text[0] == LF then [[]] + Lines(text[1..])
    else Prepend(text[0], Lines(text[1..]))
  }

  function Prepend(u: Unit, ls: seq<Text>): seq<Text>
    requires ls != []
  {
    [[u] + ls[0]] + ls[1..]
  }

  lemma {:induction false} LinesAreOneLine(text: Text)
    ensures forall l <- Lines(text) :: OneLine(l)
    decreases |text|
  {
    if text != [] {
      LinesAreOneLine(text[1..]);
      assert OneLine(Lines(text[1..])[0]);
    }
  }

  /** Two runs of lines, the last of the first going on as the first of the second. */
  function RunTogether(a: seq<Text>, b: seq<Text>): seq<Text>
    requires a != [] && b != []
  {
    a[..|a| - 1] + [a[|a| - 1] + b[0]] + b[1..]
  }

  lemma RunTogetherPrepend(u: Unit, a: seq<Text>, b: seq<Text>)
    requires a != [] && b != []
    ensures RunTogether(Prepend(u, a), b) == Prepend(u, RunTogether(a, b))
  {
    if |a| == 1 {
      assert [u] + (a[0] + b[0]) == ([u] + a[0]) + b[0];
    } else {
      assert RunTogether(a, b)[0] == a[0];
      assert RunTogether(a, b)[1..] == RunTogether(a[1..], b);
      assert Prepend(u, a)[1..] == a[1..];
    }
  }

  lemma RunTogetherAfterEmpty(a: seq<Text>, b: seq<Text>)
    requires a != [] && b != []
    ensures RunTogether([[]] + a, b) == [[]] + RunTogether(a, b)
  {
  }

  function LastLine(text: Text): Text {
    var ls := Lines(text);
    ls[|ls| - 1]
  }

  lemma {:induction false} LinesJoin(a: Text, b: Text)
    ensures Lines(a + b) == RunTogether(Lines(a), Lines(b))
    decreases |a|
  {
    if a == [] {
      assert a + b == b;
      assert [] + Lines(b)[0] == Lines(b)[0];
    } else {
      assert (a + b)[1..] == a[1..] + b;
      LinesJoin(a[1..], b);
      if a[0] == LF {
        RunTogetherAfterEmpty(Lines(a[1..]), Lines(b));
      } else {
        RunTogetherPrepend(a[0], Lines(a[1..]), Lines(b));
      }
    }
  }

  lemma {:induction false} LinesOfOne(line: Text)
    requires OneLine(line)
    ensures Lines(line) == [line]
    decreases |line|
  {
    if line != [] {
      assert OneLine(line[1..]);
      LinesOfOne(line[1..]);
      assert [line[0]] + line[1..] == line;
    }
  }

  /** A line ended by LF comes off the front. */
  lemma LinesSplit(line: Text, rest: Text)
    requires OneLine(line)
    ensures Lines(line + [LF] + rest) == [line] + Lines(rest)
  {
    Assoc(line, [LF], rest);
    LinesJoin(line, [LF] + rest);
    LinesOfOne(line);
    assert ([LF] + rest)[1..] == rest;
    assert Lines([LF] + rest) == [[]] + Lines(rest);
    assert line + [] == line;
  }

  /** The lines of a decoded text have their surrogates paired as the text has. */
  lemma {:induction false} LinesPaired(text: Text)
    requires !Lone(text)
    ensures forall l <- Lines(text) :: !Lone(l)
    decreases |text|
  {
    if text != [] {
      if IsHigh(text[0]) {
        LinesPaired(text[2..]);
        assert text[1..][1..] == text[2..];
        var rest := Lines(text[2..]);
        assert Lines(text) == [[text[0]] + ([text[1]] + rest[0])] + rest[1..];
        var first := [text[0]] + ([text[1]] + rest[0]);
        assert first[2..] == rest[0];
      } else {
        LinesPaired(text[1..]);
        var rest := Lines(text[1..]);
        assert ([text[0]] + rest[0])[1..] == rest[0];
      }
    }
  }

  /* ---------- blank space around a line ---------- */

  function StripLeft(s: Text): Text {
    if s != [] && IsWs(s[0]) then StripLeft(s[1..]) else s
  }

  function StripRight(s: Text): Text {
    if s != [] && IsWs(s[|s| - 1]) then StripRight(s[..|s| - 1]) else s
  }

  /** Without space, tab, CR and LF at both ends. */
  function Strip(s: Text): Text {
    StripRight(StripLeft(s))
  }

  lemma {:induction false} StripRightParts(s: Text) returns (after: Ws)
    ensures s == StripRight(s) + after
    decreases |s|
  {
    after := [];
    if s != [] && IsWs(s[|s| - 1]) {
      var more := StripRightParts(s[..|s| - 1]);
      after := more + [s[|s| - 1]];
    }
  }

  lemma {:induction false} StripLeftParts(s: Text) returns (before: Ws)
    ensures s == before + StripLeft(s)
    decreases |s|
  {
    before := [];
    if s != [] && IsWs(s[0]) {
      var more := StripLeftParts(s[1..]);
      before := [s[0]] + more;
    }
  }

  /** What stripping takes away is blank. */
  lemma StripParts(s: Text) returns (before: Ws, after: Ws)
    ensures s == before + Strip(s) + after
  {
    before := StripLeftParts(s);
    after := StripRightParts(StripLeft(s));
    Assoc(before, Strip(s), after);
  }

  lemma {:induction false} StripLeftOf(before: Ws, s: Text)
    ensures StripLeft(before + s) == StripLeft(s)
    decreases |before|
  {
    if before == [] {
      assert before + s == s;
    } else {
      assert (before + s)[1..] == before[1..] + s;
      StripLeftOf(before[1..], s);
    }
  }

  lemma {:induction false} StripRightOf(s: Text, after: Ws)
    ensures StripRight(s + after) == StripRight(s)
    decreases |after|
  {
    if after == [] {
      assert s + after == s;
    } else {
      assert (s + after)[..|s + after| - 1] == s + after[..|after| - 1];
      StripRightOf(s, after[..|after| - 1]);
    }
  }

  /** Stripping gives back what stands between blanks. */
  lemma StripBetween(before: Ws, t: Text, after: Ws)
    requires t != [] && !IsWs(t[0]) && !IsWs(t[|t| - 1])
    ensures Strip(before + t + after) == t
  {
    Assoc(before, t, after);
    StripLeftOf(before, t + after);
    StripRightOf(t, after);
  }

  lemma {:induction false} StripBlank(s: Text)
    ensures Strip(s) == [] <==> AllWs(s)
  {
    if AllWs(s) {
      StripLeftOf(s, []);
      assert s + [] == s;
    }
    var before, after := StripParts(s);
    if Strip(s) == [] {
      assert s == before + after;
    }
  }

  /* ---------- stripping changes nothing for the parser ---------- */

  lemma {:induction false} LoneAfterWs(before: Ws, s: Text)
    ensures Lone(before + s) == Lone(s)
    decreases |before|
  {
    if before == [] {
      assert before + s == s;
    } else {
      assert (before + s)[1..] == before[1..] + s;
      LoneAfterWs(before[1..], s);
    }
  }

  lemma {:induction false} LoneBeforeWs(s: Text, after: Ws)
    ensures Lone(s + after) == Lone(s)
    decreases |s|
  {
    if s == [] {
      assert s + after == after;
      AsciiIsPaired(after);
    } else {
      assert (s + after)[1..] == s[1..] + after;
      LoneBeforeWs(s[1..], after);
      if 1 < |s| {
        assert (s + after)[2..] == s[2..] + after;
        LoneBeforeWs(s[2..], after);
      }
    }
  }

  lemma StripPaired(s: Text)
    ensures Lone(Strip(s)) == Lone(s)
  {
    var before, after := StripParts(s);
    LoneAfterWs(before, Strip(s));
    LoneBeforeWs(before + Strip(s), after);
  }

  lemma {:induction false} TreeEnds(t: Tree)
    ensures TreeText(t) != [] && !IsWs(TreeText(t)[0]) && !IsWs(TreeText(t)[|TreeText(t)| - 1])
  {
    TreeStarts(t);
    if t.TNum? {
      NumeralUnits(t.n);
    }
  }

  lemma ParsedWithoutBlanks(line: Text)
    requires !Lone(line) && ParseText(line) != None
    ensures ParseText(Strip(line)) == ParseText(line)
  {
    StripPaired(line);
    ParsedIsDocument(line);
    var d: Document :| DocumentText(d) == line && InProfile(d.tree);
    TreeEnds(d.tree);
    StripBetween(d.before, TreeText(d.tree), d.after);
    BareDocument(d.tree);
    ParsesDocument(Document([], d.tree, []));
  }

  lemma ParsedWithBlanks(line: Text)
    requires !Lone(line) && ParseText(Strip(line)) != None
    ensures ParseText(line) != None
  {
    StripPaired(line);
    ParsedIsDocument(Strip(line));
    var d: Document :| DocumentText(d) == Strip(line) && InProfile(d.tree);
    var before, after := StripParts(line);
    BlanksAround(line, before, d, after);
  }

  lemma BlanksAround(line: Text, before: Ws, d: Document, after: Ws)
    requires !Lone(line) && InProfile(d.tree) && line == before + DocumentText(d) + after
    ensures ParseText(line) != None
  {
    Regroup(before, d.before, TreeText(d.tree), d.after, after);
    PaddedParses(before + d.before, d.tree, d.after + after, line);
  }

  lemma PaddedParses(before: Ws, t: Tree, after: Ws, line: Text)
    requires !Lone(line) && InProfile(t) && line == before + TreeText(t) + after
    ensures ParseText(line) != None
  {
    ParsesDocument(Document(before, t, after));
  }

  /** A line is parsed alike with and without the blanks around it. */
  lemma StripIsParsedAlike(line: Text)
    requires !Lone(line)
    ensures ParseText(Strip(line)) == ParseText(line)
  {
    if ParseText(Strip(line)) != None {
      ParsedWithBlanks(line);
    }
    if ParseText(line) != None {
      ParsedWithoutBlanks(line);
    }
  }

  lemma BareDocument(t: Tree)
    ensures DocumentText(Document([], t, [])) == TreeText(t)
  {
  }

  lemma Regroup(a: Text, b: Text, c: Text, d: Text, e: Text)
    ensures (a + b) + c + (d + e) == a + (b + c + d) + e
  {
  }
}
