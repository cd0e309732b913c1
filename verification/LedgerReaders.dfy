/**
 The other readers of a ledger: the loop of the second verifier, which stops at the first
 break and hands over the entries, and the replay by which an instance brings itself up to
 date. What a cut or joined line does to a ledger, and what the last hash fixes.
 */
module LedgerReaders {
  import opened Wrappers
  import opened JsonText
  import opened JsonGrammar
  import opened JsonParser
  import opened JsonPrinter
  import opened JsonCanonical
  import opened LedgerLines
  import opened LedgerChain

  /* ---------- the loop that stops at the first break ---------- */

  /** A member read as a string; what is missing or no string reads as empty. */
  function StringOf(e: Entry, key: Text): Text {
    match Get(e, key)
    case Some(Str(s)) => s
    case _ => []
  }

  function NumberOf(e: Entry, key: Text): Text {
    match Get(e, key)
    case Some(Num(lexeme)) => lexeme
    case _ => []
  }

  predicate Blank(raw: Text) {
    forall i :: 0 <= i < |raw| ==> raw[i] == SPACE || raw[i] == TAB || raw[i] == CR
  }

  /** The entry of a line, with its blanks left on, and whether it is the one due. */
  method ReadEntry(h: Text -> Text, raw: Text, n: nat, prev: Text) returns (e: Entry, isObj: bool, ok: bool, prev': Text)
    requires !Lone(raw) && prev != []
    ensures isObj <==> EntryOn(raw).Some?
    ensures isObj ==> EntryOn(raw) == Some(e)
    ensures ok <==> IsDue(h, raw, State(n, prev))
    ensures ok ==> prev' == HashEntry(h, e)
    ensures prev' != []
  {
    StripIsParsedAlike(raw);
    prev' := prev;
    match ParseText(raw) {
      case Some(Obj(members)) =>
        e, isObj := members, true;
        var sh := StringOf(e, SELF_HASH);
        ok := NumberOf(e, IDX) == Decimal(n) && StringOf(e, PREV_HASH) == prev && sh == HashEntry(h, e);
        if sh != [] {
          prev' := sh;
        }
      case _ =>
        e, isObj, ok := [], false, false;
    }
  }

  /** What a line that is not blank does to the walk, and to the entries read so far. */
  lemma LineCounts(h: Text -> Text, raw: Text, rest: seq<Text>, st: State, front: seq<Entry>)
    requires Strip(raw) != []
    ensures Walk(h, true, [raw] + rest, st) ==
            if IsDue(h, raw, st) then Walk(h, true, rest, State(st.count + 1, HashEntry(h, EntryOn(raw).value))) else None
    ensures EntryOn(raw).Some? ==> Rest(front, Entries([raw] + rest)) == Rest(front + [EntryOn(raw).value], Entries(rest))
  {
    WalkOneMore(h, true, raw, rest, st);
    EntriesFrom(raw, rest);
    if EntryOn(raw).Some? {
      RestAppend(front, EntryOn(raw).value, Entries(rest));
    }
  }

  lemma EntriesFrom(raw: Text, rest: seq<Text>)
    ensures Strip(raw) == [] ==> Entries([raw] + rest) == Entries(rest)
    ensures Strip(raw) != [] && EntryOn(raw).Some? ==> Entries([raw] + rest) == Rest([EntryOn(raw).value], Entries(rest))
  {
    assert ([raw] + rest)[1..] == rest;
  }

  lemma BlankCountsNothing(h: Text -> Text, raw: Text, rest: seq<Text>, st: State)
    requires Strip(raw) == []
    ensures Walk(h, true, [raw] + rest, st) == Walk(h, true, rest, st) && Entries([raw] + rest) == Entries(rest)
  {
    WalkOneMore(h, true, raw, rest, st);
    EntriesFrom(raw, rest);
  }

  lemma AllOfRest(raw: Text, rest: seq<Text>)
    requires forall l <- [raw] + rest :: !Lone(l) && OneLine(l)
    ensures !Lone(raw) && OneLine(raw) && forall l <- rest :: !Lone(l) && OneLine(l)
  {
    assert raw in [raw] + rest && forall l <- rest :: l in [raw] + rest;
  }

  /** One turn of the loop: a blank line is passed over, any other must be the entry due. */
  method TakeLine(h: Text -> Text, raw: Text, n: nat, prev: Text, entries: seq<Entry>, ghost rest: seq<Text>)
    returns (ok: bool, n': nat, prev': Text, entries': seq<Entry>)
    requires !Lone(raw) && OneLine(raw) && prev != []
    ensures prev' != []
    ensures Walk(h, true, [raw] + rest, State(n, prev)) == if ok then Walk(h, true, rest, State(n', prev')) else None
    ensures ok ==> Rest(entries, Entries([raw] + rest)) == Rest(entries', Entries(rest))
  {
    ok, n', prev', entries' := true, n, prev, entries;
    BlankIsStripped(raw);
    if Blank(raw) {
      BlankCountsNothing(h, raw, rest, State(n, prev));
      return;
    }
    LineCounts(h, raw, rest, State(n, prev), entries);
    var e, isObj;
    e, isObj, ok, prev' := ReadEntry(h, raw, n, prev);
    if isObj {
      entries' := entries + [e];
    }
    n' := n + 1;
  }

  /** The entries of a ledger that verifies, and nothing of one that does not. */
  method LedgerEntries(h: Text -> Text, text: Text) returns (out: Option<seq<Entry>>)
    requires !Lone(text)
    ensures out == if Verifies(h, text) then Entries(Lines(text)) else None
  {
    LinesPaired(text);
    LinesAreOneLine(text);
    var prev, n, ok := GENESIS, 0, true;
    var entries: seq<Entry> := [];
    var next: Option<nat> := Some(0);
    assert text[0..] == text;
    RestNone(Entries(Lines(text)));
    while next != None && ok
      invariant next.Some? ==> next.value <= |text|
      invariant prev != []
      invariant forall l <- Left(text, next) :: !Lone(l) && OneLine(l)
      invariant if ok then Walk(h, true, Lines(text), START) == Walk(h, true, Left(text, next), State(n, prev))
                else !Verifies(h, text)
      invariant ok ==> Entries(Lines(text)) == Rest(entries, Entries(Left(text, next)))
      decreases match next case None => 0 case Some(k) => |text| - k + 1
    {
      var raw: Text;
      raw, next := NextLine(text, next.value);
      AllOfRest(raw, Left(text, next));
      ok, n, prev, entries := TakeLine(h, raw, n, prev, entries, Left(text, next));
    }
    out := if ok then Some(entries) else None;
    if ok {
      assert entries + [] == entries;
    }
  }

  /** The entries already read and those still to come. */
  function Rest(front: seq<Entry>, more: Option<seq<Entry>>): Option<seq<Entry>> {
    match more
    case None => None
    case Some(es) => Some(front + es)
  }

  lemma RestNone(more: Option<seq<Entry>>)
    ensures Rest([], more) == more
  {
    if more.Some? {
      assert [] + more.value == more.value;
    }
  }

  lemma RestAppend(front: seq<Entry>, e: Entry, more: Option<seq<Entry>>)
    ensures Rest(front + [e], more) == Rest(front, Rest([e], more))
  {
    if more.Some? {
      assert front + [e] + more.value == front + ([e] + more.value);
    }
  }

  lemma BlankIsStripped(raw: Text)
    requires OneLine(raw)
    ensures Blank(raw) <==> Strip(raw) == []
  {
    StripBlank(raw);
  }

  /* ---------- replaying ---------- */

  method ReplayLine(h: Text -> Text, line: Text, n: nat, last: Text) returns (next: Option<State>)
    ensures next == Pass(h, false, line, State(n, last))
  {
    if Strip(line) == [] {
      return Some(State(n, last));
    }
    match EntryOn(line) {
      case None =>
        return None;
      case Some(e) =>
        if !Follows(h, false, e, State(n, last)) {
          return None;
        }
        return Some(State(n + 1, HashEntry(h, e)));
    }
  }

  /** Bring a known state up to date; the number of an entry is not looked at. */
  method Replay(h: Text -> Text, raw: Text, count: nat, prev: Text) returns (st: Option<State>)
    ensures st == Walk(h, false, Lines(raw), State(count, prev))
  {
    var n, last := count, prev;
    var next: Option<nat> := Some(0);
    assert raw[0..] == raw;
    while next != None
      invariant next.Some? ==> next.value <= |raw|
      invariant Walk(h, false, Lines(raw), State(count, prev)) == Walk(h, false, Left(raw, next), State(n, last))
      decreases match next case None => 0 case Some(k) => |raw| - k + 1
    {
      var line: Text;
      line, next := NextLine(raw, next.value);
      WalkOneMore(h, false, line, Left(raw, next), State(n, last));
      var onward := ReplayLine(h, line, n, last);
      match onward {
        case None =>
          return None;
        case Some(st') =>
          n, last := st'.count, st'.last;
      }
    }
    return Some(State(n, last));
  }

  ghost predicate InTurn(es: seq<Entry>) {
    forall k :: 0 <= k < |es| ==> Get(es[k], IDX) == Some(Num(Decimal(k)))
  }

  /** What replaying leaves out: a text verifies exactly when it is replayed and its entries are numbered in turn. */
  lemma VerifiedIsReplayedInTurn(h: Text -> Text, text: Text)
    ensures Verifies(h, text) <==>
            && Walk(h, false, Lines(text), START).Some?
            && Entries(Lines(text)).Some?
            && InTurn(Entries(Lines(text)).value)
  {
    WalkIsLinked(h, true, Lines(text), START);
    WalkIsLinked(h, false, Lines(text), START);
    if Entries(Lines(text)).Some? {
      LinkedInTurn(h, Entries(Lines(text)).value);
    }
  }

  lemma LinkedInTurn(h: Text -> Text, es: seq<Entry>)
    ensures Linked(h, true, es, START) <==> Linked(h, false, es, START) && InTurn(es)
  {
    forall k | 0 <= k < |es|
      ensures FollowsAt(h, true, es, START, k) <==>
              FollowsAt(h, false, es, START, k) && Get(es[k], IDX) == Some(Num(Decimal(k)))
    {
      FollowsInTurn(h, es, k);
    }
  }

  lemma FollowsInTurn(h: Text -> Text, es: seq<Entry>, k: nat)
    requires k < |es|
    ensures FollowsAt(h, true, es, START, k) <==> FollowsAt(h, false, es, START, k) && Get(es[k], IDX) == Some(Num(Decimal(k)))
  {
    FollowsIndexed(h, es[k], StateAt(h, es, START, k), k);
  }

  lemma FollowsIndexed(h: Text -> Text, e: Entry, st: State, k: nat)
    requires st.count == k
    ensures Follows(h, true, e, st) <==> Follows(h, false, e, st) && Get(e, IDX) == Some(Num(Decimal(k)))
  {
  }

  /* ---------- one object a line ---------- */

  /** Behind an object no text but white space can follow. */
  lemma ObjectEndsText(s: Text, more: Text)
    requires !Lone(s) && !Lone(s + more)
    requires ParseText(s).Some? && ParseText(s).value.Obj?
    requires ParseText(s + more).Some?
    ensures AllWs(more)
  {
    ParsedIsDocument(s);
    var d: Document :| DocumentText(d) == s && InProfile(d.tree);
    assert ValueOf(d.tree) == ParseText(s).value;
    Around(d, more);
    ObjectIsRead(d, more);
    ParsedToTheEnd(s + more, ValueOf(d.tree), d.after + more);
    SkipWsSkips(d.after, more);
    SkipsToNothing(more);
  }

  lemma Around(d: Document, more: Text)
    ensures DocumentText(d) + more == d.before + (TreeText(d.tree) + (d.after + more))
  {
    var t := TreeText(d.tree);
    assert d.before + t + d.after + more == d.before + (t + (d.after + more));
  }

  lemma ParsedToTheEnd(s: Text, v: Value, rest: Text)
    requires ParseText(s).Some? && ReadValue(SkipWs(s)) == Good(v, rest)
    ensures SkipWs(rest) == []
  {
  }

  lemma ObjectIsRead(d: Document, more: Text)
    requires d.tree.TObj? && Plain(d.tree)
    ensures ReadValue(SkipWs(d.before + (TreeText(d.tree) + (d.after + more)))) == Good(ValueOf(d.tree), d.after + more)
  {
    var s := TreeText(d.tree) + (d.after + more);
    SkipWsSkips(d.before, s);
    TreeStarts(d.tree);
    SkipWsStops(s);
    ReadsObject(d.tree.pad, d.tree.fields, d.after + more);
  }

  lemma {:induction false} SkipsToNothing(s: Text)
    requires SkipWs(s) == []
    ensures AllWs(s)
    decreases |s|
  {
    if s != [] {
      SkipsToNothing(s[1..]);
    }
  }
}
