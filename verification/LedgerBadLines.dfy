/**
 Which lines of a ledger are reported, said of the lines themselves.
 */
module LedgerBadLines {
  import opened Wrappers
  import opened JsonText
  import opened LedgerLines
  import opened LedgerChain

  predicate BlankLine(line: Text) {
    Strip(line) == []
  }

  /** The self_hash a line carries, when it holds an object whose self_hash is a string. */
  function CarriedHash(line: Text): Option<Text> {
    if BlankLine(line) then None
    else
      match EntryOn(line)
      case None => None
      case Some(e) =>
        match Get(e, Ascii("self_hash"))
        case Some(Str(s)) => Some(s)
        case _ => None
  }

  /** The numbers of the lines in front of the i-th that are not blank. */
  function NumbersBefore(lines: seq<Text>, i: nat): set<int>
    requires i <= |lines|
  {
    set j | 0 <= j < i && !BlankLine(lines[j])
  }

  /** What each line carries. */
  function Carried(lines: seq<Text>): (cs: seq<Option<Text>>)
    ensures |cs| == |lines| && forall k :: 0 <= k < |cs| ==> cs[k] == CarriedHash(lines[k])
  {
    seq(|lines|, k requires 0 <= k < |lines| => CarriedHash(lines[k]))
  }

  /** The last hash carried by the first i lines, good or bad, or 64 zeros where there is none. */
  ghost predicate LastCarried(cs: seq<Option<Text>>, i: nat, prev: Text)
    requires i <= |cs|
  {
    || (exists j :: 0 <= j < i && cs[j] == Some(prev) && forall k :: j < k < i ==> cs[k] == None)
    || ((forall k :: 0 <= k < i ==> cs[k] == None) && |prev| == 64 && forall k :: 0 <= k < 64 ==> prev[k] == '0' as int)
  }

  /** The line holds an object that is numbered n, links to prev and carries its own hash. */
  ghost predicate HoldsEntry(h: Text -> Text, line: Text, n: nat, prev: Text) {
    EntryOn(line).Some? &&
    var e := EntryOn(line).value;
    && Get(e, Ascii("idx")) == Some(Num(Decimal(n)))
    && Get(e, Ascii("prev_hash")) == Some(Str(prev))
    && Get(e, Ascii("self_hash")) == Some(Str(HashEntry(h, e)))
  }

  /** The state behind the first i lines, good and bad. */
  function StateBehind(lines: seq<Text>, i: nat): State
    requires i <= |lines|
  {
    if i == 0 then START else Behind(lines[i - 1], StateBehind(lines, i - 1))
  }

  lemma {:induction false} StateCounts(lines: seq<Text>, i: nat)
    requires i <= |lines|
    ensures StateBehind(lines, i).count == |NumbersBefore(lines, i)|
    decreases i
  {
    if 0 < i {
      StateCounts(lines, i - 1);
      OneNumberMore(lines, i - 1);
      BehindCounts(lines[i - 1], StateBehind(lines, i - 1));
    }
  }

  lemma OneNumberMore(lines: seq<Text>, i: nat)
    requires i < |lines|
    ensures |NumbersBefore(lines, i + 1)| == |NumbersBefore(lines, i)| + if BlankLine(lines[i]) then 0 else 1
  {
    var before := NumbersBefore(lines, i);
    assert NumbersBefore(lines, i + 1) == if BlankLine(lines[i]) then before else before + {i};
  }

  lemma BehindCounts(line: Text, st: State)
    ensures Behind(line, st).count == st.count + if BlankLine(line) then 0 else 1
  {
  }

  lemma {:induction false} StateCarries(lines: seq<Text>, i: nat)
    requires i <= |lines|
    ensures LastCarried(Carried(lines), i, StateBehind(lines, i).last)
    decreases i
  {
    if 0 < i {
      StateCarries(lines, i - 1);
      BehindCarries(lines[i - 1], StateBehind(lines, i - 1));
      CarriedOneMore(Carried(lines), i, StateBehind(lines, i - 1).last);
    }
  }

  lemma BehindCarries(line: Text, st: State)
    ensures Behind(line, st).last == match CarriedHash(line) case None => st.last case Some(s) => s
  {
  }

  lemma CarriedOneMore(cs: seq<Option<Text>>, i: nat, prev: Text)
    requires 0 < i <= |cs| && LastCarried(cs, i - 1, prev)
    ensures LastCarried(cs, i, match cs[i - 1] case None => prev case Some(s) => s)
  {
    if cs[i - 1] == None {
      if j :| 0 <= j < i - 1 && cs[j] == Some(prev) && forall k :: j < k < i - 1 ==> cs[k] == None {
        assert forall k :: j < k < i ==> cs[k] == None;
      }
    }
  }

  /** The last hash carried is one thing only. */
  lemma OneCarried(cs: seq<Option<Text>>, i: nat, p: Text, q: Text)
    requires i <= |cs| && LastCarried(cs, i, p) && LastCarried(cs, i, q)
    ensures p == q
  {
    if forall k :: 0 <= k < i ==> cs[k] == None {
    } else {
      var a :| 0 <= a < i && cs[a] == Some(p) && forall k :: a < k < i ==> cs[k] == None;
      var b :| 0 <= b < i && cs[b] == Some(q) && forall k :: b < k < i ==> cs[k] == None;
    }
  }

  lemma {:induction false} BadFromIs(h: Text -> Text, lines: seq<Text>, i: nat, k: nat)
    requires i <= |lines|
    ensures k in BadFrom(h, lines[i..], i, StateBehind(lines, i)) <==> i <= k && BadAt(h, lines, k)
    decreases |lines| - i
  {
    if i < |lines| {
      BadFromOne(h, lines, i);
      BadFromIs(h, lines, i + 1, k);
    }
  }

  predicate BadAt(h: Text -> Text, lines: seq<Text>, k: nat) {
    k < |lines| && IsBad(h, lines[k], StateBehind(lines, k))
  }

  lemma BadFromOne(h: Text -> Text, lines: seq<Text>, i: nat)
    requires i < |lines|
    ensures BadFrom(h, lines[i..], i, StateBehind(lines, i)) ==
            (if BadAt(h, lines, i) then [i] else []) + BadFrom(h, lines[i + 1..], i + 1, StateBehind(lines, i + 1))
  {
    assert lines[i..][0] == lines[i] && lines[i..][1..] == lines[i + 1..];
  }

  /**
   A line is reported if and only if it is not blank and is not the entry due: numbered by the
   lines in front of it that are not blank, linked to the last self_hash carried in front of it,
   and carrying its own. So behind a bad line the rest is still checked, against what stands there.
   */
  lemma ReportedLines(h: Text -> Text, text: Text, k: nat, prev: Text)
    requires k < |Lines(text)| && LastCarried(Carried(Lines(text)), k, prev)
    ensures k in BadLines(h, text) <==>
            var line := Lines(text)[k];
            !BlankLine(line) && !HoldsEntry(h, line, |NumbersBefore(Lines(text), k)|, prev)
  {
    var lines := Lines(text);
    assert lines[0..] == lines;
    BadFromIs(h, lines, 0, k);
    StateCounts(lines, k);
    StateCarries(lines, k);
    OneCarried(Carried(lines), k, prev, StateBehind(lines, k).last);
    DueIs(h, lines[k], StateBehind(lines, k));
  }

  lemma DueIs(h: Text -> Text, line: Text, st: State)
    ensures IsDue(h, line, st) <==> HoldsEntry(h, line, st.count, st.last)
  {
  }

  /* ---------- lines and blanks ---------- */

  /** Lines with an LF between each two. */
  function Joined(ls: seq<Text>): Text {
    if ls == [] then []
    else if |ls| == 1 then ls[0]
    else ls[0] + [0x0A] + Joined(ls[1..])
  }

  /** The lines of a text hold no LF, and with an LF between each two they are the text. */
  lemma {:induction false} LinesAreText(text: Text)
    ensures Joined(Lines(text)) == text
    ensures forall l <- Lines(text), i :: 0 <= i < |l| ==> l[i] != 0x0A
    decreases |text|
  {
    LinesAreOneLine(text);
    if text != [] {
      var rest := Lines(text[1..]);
      LinesAreText(text[1..]);
      if text[0] == LF {
        assert ([[]] + rest)[1..] == rest;
        assert Joined([[]] + rest) == [] + [0x0A] + Joined(rest);
      } else {
        JoinedPrepend(text[0], rest);
      }
      assert text == [text[0]] + text[1..];
    }
  }

  lemma JoinedPrepend(u: Unit, ls: seq<Text>)
    requires ls != []
    ensures Joined(Prepend(u, ls)) == [u] + Joined(ls)
  {
    assert Prepend(u, ls)[1..] == ls[1..];
    if 1 < |ls| {
      assert [u] + ls[0] + [0x0A] + Joined(ls[1..]) == [u] + (ls[0] + [0x0A] + Joined(ls[1..]));
    }
  }

  predicate BlankUnit(u: Unit) {
    u == 0x20 || u == 0x09 || u == 0x0D || u == 0x0A
  }

  /** A line is stripped of space, tab, CR and LF at both ends, and of nothing else. */
  lemma StripTakesBlanks(s: Text) returns (before: Text, after: Text)
    ensures s == before + Strip(s) + after
    ensures (forall i :: 0 <= i < |before| ==> BlankUnit(before[i])) && forall i :: 0 <= i < |after| ==> BlankUnit(after[i])
    ensures Strip(s) != [] ==> !BlankUnit(Strip(s)[0]) && !BlankUnit(Strip(s)[|Strip(s)| - 1])
  {
    before := StripLeftParts(s);
    after := StripRightParts(StripLeft(s));
    StrippedEnds(s);
    Assoc(before, Strip(s), after);
  }

  lemma {:induction false} StripLeftEnds(s: Text)
    ensures StripLeft(s) != [] ==> !IsWs(StripLeft(s)[0])
    decreases |s|
  {
    if s != [] && IsWs(s[0]) {
      StripLeftEnds(s[1..]);
    }
  }

  lemma {:induction false} StripRightEnds(s: Text)
    ensures StripRight(s) != [] ==> !IsWs(StripRight(s)[|StripRight(s)| - 1]) && StripRight(s)[0] == s[0]
    decreases |s|
  {
    if s != [] && IsWs(s[|s| - 1]) {
      StripRightEnds(s[..|s| - 1]);
    }
  }

  lemma StrippedEnds(s: Text)
    ensures Strip(s) != [] ==> !BlankUnit(Strip(s)[0]) && !BlankUnit(Strip(s)[|Strip(s)| - 1])
  {
    StripLeftEnds(s);
    StripRightEnds(StripLeft(s));
  }
}
