/**
 What an append writes, and when the ledger it leaves behind still verifies.
 */
module LedgerAppend {
  import opened Wrappers
  import opened JsonText
  import opened JsonGrammar
  import opened JsonParser
  import opened JsonPrinter
  import opened JsonCanonical
  import opened LedgerLines
  import opened LedgerChain
  import opened LedgerReaders
  import opened LedgerBinding

  /* ---------- the data that may be appended ---------- */

  /** What an append looks at before it writes: integers in range, no unpaired surrogate in a string value. */
  predicate CheckPortable(v: Value)
    requires InMemory(v)
    decreases v, 0
  {
    match v
    case Str(s) => !Lone(s)
    case Num(lexeme) => InRange(lexeme)
    case Arr(items) => CheckItems(items)
    case Obj(members) => CheckMembers(members)
    case _ => true
  }

  predicate CheckItems(vs: seq<Value>)
    requires ItemsInMemory(vs)
    decreases vs, 0
  {
    vs == [] || (CheckPortable(vs[0]) && CheckItems(vs[1..]))
  }

  predicate CheckMembers(ms: seq<Member>)
    requires MembersInMemory(ms)
    decreases ms, 0
  {
    ms == [] || (CheckPortable(ms[0].value) && CheckMembers(ms[1..]))
  }

  /** Some key, at any depth, holds an unpaired surrogate: the one thing about surrogates an append does not look at. */
  predicate LoneKey(v: Value)
    decreases v, 0
  {
    match v
    case Arr(items) => LoneKeyInItems(items)
    case Obj(members) => LoneKeyInMembers(members)
    case _ => false
  }

  predicate LoneKeyInItems(vs: seq<Value>)
    decreases vs, 0
  {
    vs != [] && (LoneKey(vs[0]) || LoneKeyInItems(vs[1..]))
  }

  predicate LoneKeyInMembers(ms: seq<Member>)
    decreases ms, 0
  {
    ms != [] && (Lone(ms[0].key) || LoneKey(ms[0].value) || LoneKeyInMembers(ms[1..]))
  }

  /** Data that passes the check is well formed, and only a key can still hold an unpaired surrogate. */
  lemma {:induction false} CheckedIsWellFormed(v: Value)
    requires InMemory(v) && CheckPortable(v)
    ensures WellFormed(v) && HoldsLone(v) == LoneKey(v)
    decreases v, 0
  {
    match v
    case Arr(items) => CheckedItems(items);
    case Obj(members) => CheckedMembers(members);
    case _ =>
  }

  lemma {:induction false} CheckedItems(vs: seq<Value>)
    requires ItemsInMemory(vs) && CheckItems(vs)
    ensures ItemsWellFormed(vs) && ItemsHoldLone(vs) == LoneKeyInItems(vs)
    decreases vs, 0
  {
    if vs != [] {
      CheckedIsWellFormed(vs[0]);
      CheckedItems(vs[1..]);
    }
  }

  lemma {:induction false} CheckedMembers(ms: seq<Member>)
    requires MembersInMemory(ms) && CheckMembers(ms)
    ensures MembersWellFormed(ms) && MembersHoldLone(ms) == LoneKeyInMembers(ms)
    decreases ms, 0
  {
    if ms != [] {
      CheckedIsWellFormed(ms[0].value);
      CheckedMembers(ms[1..]);
    }
  }

  /* ---------- the entry ---------- */

  /** One append: the time it reads and the data it is given. */
  datatype Item = Item(ts: Text, data: Value)

  predicate Checked(item: Item) {
    !Lone(item.ts) && InMemory(item.data) && CheckPortable(item.data)
  }

  /** The entry without its own hash. */
  function Bare(st: State, item: Item): Entry {
    [Member(IDX, Num(Decimal(st.count))), Member(TS, Str(item.ts)), Member(DATA, item.data), Member(PREV_HASH, Str(st.last))]
  }

  function EntryFor(h: Text -> Text, st: State, item: Item): Entry {
    Bare(st, item) + [Member(SELF_HASH, Str(Digest(h, Canonical(Obj(Bare(st, item))))))]
  }

  function LineFor(h: Text -> Text, st: State, item: Item): Text {
    Print(Obj(EntryFor(h, st, item))) + [LF]
  }

  lemma KeysApart()
    ensures IDX != TS && IDX != DATA && IDX != PREV_HASH && IDX != SELF_HASH && TS != DATA
    ensures TS != PREV_HASH && TS != SELF_HASH && DATA != PREV_HASH && DATA != SELF_HASH && PREV_HASH != SELF_HASH
  {
    assert |IDX| == 3 && |TS| == 2 && |DATA| == 4 && |PREV_HASH| == 9 && |SELF_HASH| == 9;
    assert PREV_HASH[0] == 'p' as int && SELF_HASH[0] == 's' as int;
  }

  lemma EntryKeys(h: Text -> Text, st: State, item: Item)
    ensures UniqueKeys(EntryFor(h, st, item)) && UniqueKeys(Bare(st, item))
  {
    KeysApart();
  }

  lemma DropNone(ms: Entry, key: Text)
    requires forall m <- ms :: m.key != key
    ensures Without(ms, key) == ms
  {
    if ms != [] {
      DropNone(ms[1..], key);
    }
  }

  lemma {:induction false} DropLast(ms: Entry, m: Member)
    requires forall n <- ms :: n.key != m.key
    ensures Without(ms + [m], m.key) == ms
    decreases |ms|
  {
    if ms == [] {
      assert ms + [m] == [m];
    } else {
      assert (ms + [m])[1..] == ms[1..] + [m];
      DropLast(ms[1..], m);
    }
  }

  /** The entry is the one due: numbered, linked, and carrying the hash of everything else in it. */
  lemma EntryFollows(h: Text -> Text, indexed: bool, st: State, item: Item)
    ensures var e := EntryFor(h, st, item);
            && Follows(h, indexed, e, st)
            && Payload(e) == Canonical(Obj(Bare(st, item)))
            && Get(e, DATA) == Some(item.data) && Get(e, TS) == Some(Str(item.ts))
  {
    var e := EntryFor(h, st, item);
    KeysApart();
    DropLast(Bare(st, item), e[4]);
    EntryKeys(h, st, item);
    MemberIsGet(e, e[0]);
    MemberIsGet(e, e[1]);
    MemberIsGet(e, e[2]);
    MemberIsGet(e, e[3]);
    MemberIsGet(e, e[4]);
  }

  /** What an append does not check and a reader needs: depth under the entry, keys, and the number itself. */
  predicate Loadable(st: State, item: Item) {
    st.count <= SAFE_INT && ValueDepth(item.data) < MAX_DEPTH && !LoneKey(item.data)
  }

  lemma HexIsPaired(t: Text)
    requires IsHex64(t)
    ensures !Lone(t)
  {
    AsciiIsPaired(t);
  }

  lemma DecimalIsLexeme(n: nat)
    ensures IsIntLexeme(Decimal(n)) && Normal(Decimal(n)) == Decimal(n)
    ensures InRange(Decimal(n)) <==> n <= SAFE_INT
  {
  }

  /** The written entry lies within the profile exactly when the append was loadable. */
  lemma EntryPortable(h: Text -> Text, st: State, item: Item)
    requires Checked(item) && IsHex64(st.last)
    ensures Portable(Obj(EntryFor(h, st, item))) <==> Loadable(st, item)
    ensures InMemory(Obj(EntryFor(h, st, item)))
  {
    var hash := Digest(h, Canonical(Obj(Bare(st, item))));
    EntryKeys(h, st, item);
    DecimalIsLexeme(st.count);
    HexIsPaired(st.last);
    HexIsPaired(hash);
    AroundData(Decimal(st.count), item.ts, item.data, st.last, hash);
    assert EntryFor(h, st, item) == EntryMembers(Decimal(st.count), item.ts, item.data, st.last, hash);
  }

  function EntryMembers(idx: Text, ts: Text, data: Value, prev: Text, hash: Text): Entry {
    [Member(IDX, Num(idx)), Member(TS, Str(ts)), Member(DATA, data), Member(PREV_HASH, Str(prev)), Member(SELF_HASH, Str(hash))]
  }

  lemma AroundData(idx: Text, ts: Text, data: Value, prev: Text, hash: Text)
    requires IsIntLexeme(idx) && Normal(idx) == idx && !Lone(ts) && !Lone(prev) && !Lone(hash)
    requires InMemory(data) && CheckPortable(data)
    ensures var e := EntryMembers(idx, ts, data, prev, hash);
            && MembersInMemory(e)
            && (MembersWellFormed(e) <==> InRange(idx))
            && MembersDepth(e) == ValueDepth(data)
            && (MembersHoldLone(e) <==> LoneKey(data))
  {
    CheckedIsWellFormed(data);
    KeysArePaired();
    FiveMembers(Member(IDX, Num(idx)), Member(TS, Str(ts)), Member(DATA, data), Member(PREV_HASH, Str(prev)), Member(SELF_HASH, Str(hash)));
  }

  lemma KeysArePaired()
    ensures !Lone(IDX) && !Lone(TS) && !Lone(DATA) && !Lone(PREV_HASH) && !Lone(SELF_HASH)
  {
    AsciiIsPaired(IDX);
    AsciiIsPaired(TS);
    AsciiIsPaired(DATA);
    AsciiIsPaired(PREV_HASH);
    AsciiIsPaired(SELF_HASH);
  }

  lemma FirstMember(m: Member, rest: Entry)
    ensures MembersInMemory([m] + rest) <==> InMemory(m.value) && MembersInMemory(rest)
    ensures MembersWellFormed([m] + rest) <==> WellFormed(m.value) && MembersWellFormed(rest)
    ensures MembersDepth([m] + rest) == Max(ValueDepth(m.value), MembersDepth(rest))
    ensures MembersHoldLone([m] + rest) <==> Lone(m.key) || HoldsLone(m.value) || MembersHoldLone(rest)
  {
    assert ([m] + rest)[1..] == rest;
  }

  /** Four scalar members around one value. */
  lemma FiveMembers(a: Member, b: Member, c: Member, d: Member, f: Member)
    requires InMemory(a.value) && a.value.Num? && b.value.Str? && InMemory(c.value) && d.value.Str? && f.value.Str?
    ensures var e := [a, b, c, d, f];
            && MembersInMemory(e)
            && (MembersWellFormed(e) <==> WellFormed(a.value) && WellFormed(c.value))
            && MembersDepth(e) == ValueDepth(c.value)
            && (MembersHoldLone(e) <==>
                Lone(a.key) || Lone(b.key) || Lone(c.key) || Lone(d.key) || Lone(f.key)
                || HoldsLone(b.value) || HoldsLone(c.value) || HoldsLone(d.value) || HoldsLone(f.value))
  {
    assert [f] == [f] + [];
    FirstMember(f, []);
    FirstMember(d, [f]);
    assert [d, f] == [d] + [f];
    FirstMember(c, [d, f]);
    assert [c, d, f] == [c] + [d, f];
    FirstMember(b, [c, d, f]);
    assert [b, c, d, f] == [b] + [c, d, f];
    FirstMember(a, [b, c, d, f]);
    assert [a, b, c, d, f] == [a] + [b, c, d, f];
  }

  /* ---------- the line ---------- */

  lemma PrintedObjectEnds(h: Text -> Text, st: State, item: Item)
    requires Checked(item) && IsHex64(st.last)
    ensures var p := Print(Obj(EntryFor(h, st, item)));
            && 2 <= |p| && p[0] == LBRACE && p[|p| - 1] == RBRACE
            && OneLine(p) && !Lone(p) && !Lone(p + [LF])
  {
    EntryPortable(h, st, item);
    PrintPrintable(Obj(EntryFor(h, st, item)));
    AsciiIsPaired(Print(Obj(EntryFor(h, st, item))));
    AsciiIsPaired(LineFor(h, st, item));
  }

  /** A written line is read back as its entry exactly when the append was loadable. */
  lemma LineIsRead(h: Text -> Text, st: State, item: Item, blank: Ws)
    requires Checked(item) && IsHex64(st.last)
    ensures var e := EntryFor(h, st, item);
            EntryOn(blank + Print(Obj(e))) == if Loadable(st, item) then Some(e) else None
  {
    var e := EntryFor(h, st, item);
    EntryPortable(h, st, item);
    PrintedObjectEnds(h, st, item);
    var p := Print(Obj(e));
    StripBetween(blank, p, []);
    assert blank + p + [] == blank + p;
    PrintedIsParsed([], Obj(e), []);
    assert [] + p + [] == p;
  }

  lemma LineEndsLines(p: Text)
    requires OneLine(p)
    ensures Lines(p + [LF]) == [p, []]
  {
    LinesSplit(p, []);
    assert p + [LF] + [] == p + [LF];
  }

  /** The state behind a single line. */
  lemma PassLine(h: Text -> Text, indexed: bool, st: State, item: Item, blank: Ws)
    requires Checked(item) && IsHex64(st.last)
    ensures var e := EntryFor(h, st, item);
            Pass(h, indexed, blank + Print(Obj(e)), st) == if Loadable(st, item) then Some(After(h, e, st)) else None
  {
    var p := Print(Obj(EntryFor(h, st, item)));
    LineIsRead(h, st, item, blank);
    EntryFollows(h, indexed, st, item);
    PrintedObjectEnds(h, st, item);
    StripBetween(blank, p, []);
    assert blank + p + [] == blank + p;
  }

  /** Behind a blank last line, an append is walked through exactly when it is loadable. */
  lemma AppendPasses(h: Text -> Text, indexed: bool, text: Text, s0: State, st: State, item: Item)
    requires Checked(item) && IsHex64(st.last) && EndsBlank(text)
    requires Walk(h, indexed, Lines(text), s0) == Some(st)
    ensures Walk(h, indexed, Lines(text + LineFor(h, st, item)), s0) ==
            if Loadable(st, item) then Some(After(h, EntryFor(h, st, item), st)) else None
    ensures EndsBlank(text + LineFor(h, st, item))
  {
    var p := Print(Obj(EntryFor(h, st, item)));
    PrintedObjectEnds(h, st, item);
    LineEndsLines(p);
    WalkText(h, indexed, text, p + [LF], s0);
    PassLine(h, indexed, st, item, []);
    assert [] + p == p;
    WalkTwo(h, indexed, p, st);
    LinesJoin(text, p + [LF]);
  }

  lemma WalkTwo(h: Text -> Text, indexed: bool, line: Text, st: State)
    ensures Walk(h, indexed, [line, []], st) == Pass(h, indexed, line, st)
    ensures Walk(h, indexed, [line], st) == Pass(h, indexed, line, st)
  {
    var last: seq<Text> := [[]];
    assert [line, []] == [line] + last && [line] == [line] + [] && last == last + [];
    WalkOneMore(h, indexed, line, last, st);
    WalkOneMore(h, indexed, line, [], st);
    if Pass(h, indexed, line, st).Some? {
      WalkOneMore(h, indexed, [], [], Pass(h, indexed, line, st).value);
    }
  }

  /* ---------- lines cut short, lines run together ---------- */

  /** An object that goes on with anything but white space is no entry. */
  lemma RunOnIsNoEntry(line: Text, more: Text)
    requires !Lone(line) && !Lone(line + more) && !AllWs(more)
    requires EntryOn(line).Some?
    ensures EntryOn(line + more) == None
  {
    StripIsParsedAlike(line);
    StripIsParsedAlike(line + more);
    if ParseText(line + more).Some? {
      ObjectEndsText(line, more);
    }
  }

  /** Behind a last line that is not blank, an append breaks the ledger: no LF is put in between. */
  lemma AppendRunsOn(h: Text -> Text, indexed: bool, text: Text, s0: State, st: State, item: Item)
    requires Checked(item) && IsHex64(st.last) && !EndsBlank(text) && !Lone(text)
    requires Walk(h, indexed, Lines(text), s0).Some?
    ensures Walk(h, indexed, Lines(text + LineFor(h, st, item)), s0) == None
  {
    var p := Print(Obj(EntryFor(h, st, item)));
    PrintedObjectEnds(h, st, item);
    LineEndsLines(p);
    LinesJoin(text, p + [LF]);
    LinesPaired(text);
    var ls, line := Lines(text), LastLine(text);
    var front, rest: seq<Text> := ls[..|ls| - 1], [[]];
    assert ls == front + [line] && Lines(text + LineFor(h, st, item)) == front + ([line + p] + rest);
    WalkAppend(h, indexed, front, [line], s0);
    WalkAppend(h, indexed, front, [line + p] + rest, s0);
    var mid := Walk(h, indexed, front, s0).value;
    WalkTwo(h, indexed, line, mid);
    WalkOneMore(h, indexed, line + p, rest, mid);
    StripBlank(line);
    StripBlank(line + p);
    assert !AllWs(p) && (line + p)[|line|] == LBRACE;
    PairedJoin(line, p);
    RunOnIsNoEntry(line, p);
  }

  lemma {:induction false} PairedJoin(a: Text, b: Text)
    requires !Lone(a) && !Lone(b)
    ensures !Lone(a + b)
    decreases |a|
  {
    if a == [] {
      assert a + b == b;
    } else {
      var n := if IsHigh(a[0]) then 2 else 1;
      assert (a + b)[n..] == a[n..] + b;
      PairedJoin(a[n..], b);
    }
  }

  /** The ledger behind an append verifies exactly when the last line was blank and the entry is one a reader accepts. */
  lemma AppendVerifies(h: Text -> Text, indexed: bool, text: Text, s0: State, st: State, item: Item)
    requires Checked(item) && IsHex64(st.last) && !Lone(text)
    requires Walk(h, indexed, Lines(text), s0) == Some(st)
    ensures Walk(h, indexed, Lines(text + LineFor(h, st, item)), s0) ==
            if EndsBlank(text) && Loadable(st, item) then Some(After(h, EntryFor(h, st, item), st)) else None
  {
    if EndsBlank(text) {
      AppendPasses(h, indexed, text, s0, st, item);
    } else {
      AppendRunsOn(h, indexed, text, s0, st, item);
    }
  }

  lemma CutIsNoEntry(h: Text -> Text, st: State, item: Item, j: nat)
    requires Checked(item) && IsHex64(st.last) && Loadable(st, item)
    requires 0 < j < |Print(Obj(EntryFor(h, st, item)))|
    ensures var cut := Print(Obj(EntryFor(h, st, item)))[..j];
            EntryOn(cut) == None && OneLine(cut) && Strip(cut) != []
  {
    var p := Print(Obj(EntryFor(h, st, item)));
    PrintedObjectEnds(h, st, item);
    LineIsRead(h, st, item, []);
    assert [] + p == p;
    EntryPortable(h, st, item);
    PrintPrintable(Obj(EntryFor(h, st, item)));
    CutText(p, j);
  }

  /** No beginning of a printed object is an object. */
  lemma CutText(p: Text, j: nat)
    requires 0 < j < |p| && Printable(p) && EntryOn(p).Some? && OneLine(p)
    requires p[0] == LBRACE && p[|p| - 1] == RBRACE
    ensures EntryOn(p[..j]) == None && OneLine(p[..j]) && Strip(p[..j]) != []
  {
    var cut, more := p[..j], p[j..];
    AsciiIsPaired(p);
    AsciiIsPaired(cut);
    StripBlank(cut);
    assert cut[0] == LBRACE && more[|more| - 1] == RBRACE && cut + more == p;
    if EntryOn(cut).Some? {
      RunOnIsNoEntry(cut, more);
    }
  }

  /** A power loss cuts a line anywhere: what is left verifies only when nothing of the entry is left, or all of it. */
  lemma CutLineVerifies(h: Text -> Text, indexed: bool, text: Text, s0: State, st: State, item: Item, j: nat)
    requires Checked(item) && IsHex64(st.last) && EndsBlank(text) && Loadable(st, item)
    requires Walk(h, indexed, Lines(text), s0) == Some(st) && j <= |LineFor(h, st, item)|
    ensures var whole := |LineFor(h, st, item)| - 1;
            Walk(h, indexed, Lines(text + LineFor(h, st, item)[..j]), s0) ==
            if j == 0 then Some(st)
            else if j < whole then None
            else Some(After(h, EntryFor(h, st, item), st))
  {
    var p := Print(Obj(EntryFor(h, st, item)));
    var cut := LineFor(h, st, item)[..j];
    PrintedObjectEnds(h, st, item);
    if j == |p| + 1 {
      assert cut == LineFor(h, st, item);
      AppendPasses(h, indexed, text, s0, st, item);
    } else {
      assert cut == p[..j] && OneLine(cut);
      LinesOfOne(cut);
      WalkText(h, indexed, text, cut, s0);
      WalkTwo(h, indexed, cut, st);
      if j == |p| {
        PassLine(h, indexed, st, item, []);
        assert [] + p == cut;
      } else if 0 < j {
        CutIsNoEntry(h, st, item, j);
      }
    }
  }
}
