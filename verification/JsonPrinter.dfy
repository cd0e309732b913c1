/**
 The printer: one text per value, ASCII only, in the members' own order or sorted by
 code points. Printing and parsing undo each other, and the sorted form is one text per
 value up to the order of members.
 */
module JsonPrinter {
  import opened Wrappers
  import opened JsonText
  import opened JsonGrammar
  import opened JsonNesting
  import opened JsonSurrogates
  import opened JsonParser
  import opened CodePoints

  /* ---------- printing ---------- */

  function HexLower(d: int): (u: Unit)
    requires 0 <= d < 16
    ensures HexDigit(u) == d
  {
    if d < 10 then '0' as int + d else 'a' as int + d - 10
  }

  /** Four lower-case hexadecimal digits. */
  function Hex4Text(u: Unit): (h: Text)
    ensures IsHex4(h) && Hex4(h) == u
  {
    var a, b, c, d := u / 16 / 16 / 16, u / 16 / 16 % 16, u / 16 % 16, u % 16;
    assert ((a * 16 + b) * 16 + c) * 16 + d == u by {
      assert a * 16 + b == u / 16 / 16;
      assert u / 16 / 16 * 16 + c == u / 16;
    }
    [HexLower(a), HexLower(b), HexLower(c), HexLower(d)]
  }

  /** How one unit of a string is written. */
  function PieceFor(u: Unit): (p: Piece)
    ensures PieceUnit(p) == u
  {
    if u == QUOTE then Short(QUOTE)
    else if u == BACKSLASH then Short(BACKSLASH)
    else if u == LF then Short('n' as int)
    else if u == CR then Short('r' as int)
    else if u == TAB then Short('t' as int)
    else if u == 0x08 then Short('b' as int)
    else if u == 0x0C then Short('f' as int)
    else if 0x20 <= u <= 0x7E then Raw(u)
    else Hex(Hex4Text(u))
  }

  function PiecesFor(s: Text): seq<Piece> {
    if s == [] then [] else [PieceFor(s[0])] + PiecesFor(s[1..])
  }

  function PrintString(s: Text): Text {
    StringText(PiecesFor(s))
  }

  /** The text of a value, members in their own order. */
  function Print(v: Value): Text
    decreases v, 0
  {
    match v
    case Null => NULL
    case Bool(b) => if b then TRUE else FALSE
    case Num(lexeme) => lexeme
    case Str(s) => PrintString(s)
    case Arr(items) => [LBRACKET] + PrintItems(items) + [RBRACKET]
    case Obj(members) => [LBRACE] + PrintMembers(members) + [RBRACE]
  }

  function PrintItems(vs: seq<Value>): Text
    decreases vs, 0
  {
    if vs == [] then []
    else Print(vs[0]) + if |vs| == 1 then [] else [COMMA] + PrintItems(vs[1..])
  }

  function PrintMember(m: Member): Text
    decreases m, 0
  {
    PrintString(m.key) + [COLON] + Print(m.value)
  }

  function PrintMembers(ms: seq<Member>): Text
    decreases ms, 0
  {
    if ms == [] then []
    else PrintMember(ms[0]) + if |ms| == 1 then [] else [COMMA] + PrintMembers(ms[1..])
  }

  /* ---------- values the parser can hand over ---------- */

  /** A value held in memory: integers of any size in normal form, and distinct keys. */
  predicate InMemory(v: Value)
    decreases v, 0
  {
    match v
    case Num(lexeme) => IsIntLexeme(lexeme) && Normal(lexeme) == lexeme
    case Arr(items) => ItemsInMemory(items)
    case Obj(members) => UniqueKeys(members) && MembersInMemory(members)
    case _ => true
  }

  predicate ItemsInMemory(vs: seq<Value>)
    decreases vs, 0
  {
    vs == [] || (InMemory(vs[0]) && ItemsInMemory(vs[1..]))
  }

  predicate MembersInMemory(ms: seq<Member>)
    decreases ms, 0
  {
    ms == [] || (InMemory(ms[0].value) && MembersInMemory(ms[1..]))
  }

  /** Integers in range, too. */
  predicate WellFormed(v: Value)
    decreases v, 0
  {
    match v
    case Num(lexeme) => IsIntLexeme(lexeme) && Normal(lexeme) == lexeme && InRange(lexeme)
    case Arr(items) => ItemsWellFormed(items)
    case Obj(members) => UniqueKeys(members) && MembersWellFormed(members)
    case _ => true
  }

  predicate ItemsWellFormed(vs: seq<Value>)
    decreases vs, 0
  {
    vs == [] || (WellFormed(vs[0]) && ItemsWellFormed(vs[1..]))
  }

  predicate MembersWellFormed(ms: seq<Member>)
    decreases ms, 0
  {
    ms == [] || (WellFormed(ms[0].value) && MembersWellFormed(ms[1..]))
  }

  lemma {:induction false} WellFormedIsInMemory(v: Value)
    requires WellFormed(v)
    ensures InMemory(v)
    decreases v, 0
  {
    match v
    case Arr(items) => ItemsAreInMemory(items);
    case Obj(members) => MembersAreInMemory(members);
    case _ =>
  }

  lemma {:induction false} ItemsAreInMemory(vs: seq<Value>)
    requires ItemsWellFormed(vs)
    ensures ItemsInMemory(vs)
    decreases vs, 0
  {
    if vs != [] {
      WellFormedIsInMemory(vs[0]);
      ItemsAreInMemory(vs[1..]);
    }
  }

  lemma {:induction false} MembersAreInMemory(ms: seq<Member>)
    requires MembersWellFormed(ms)
    ensures MembersInMemory(ms)
    decreases ms, 0
  {
    if ms != [] {
      WellFormedIsInMemory(ms[0].value);
      MembersAreInMemory(ms[1..]);
    }
  }

  function ValueDepth(v: Value): nat
    decreases v, 0
  {
    match v
    case Arr(items) => 1 + ItemsDepth(items)
    case Obj(members) => 1 + MembersDepth(members)
    case _ => 0
  }

  function ItemsDepth(vs: seq<Value>): nat
    decreases vs, 0
  {
    if vs == [] then 0 else Max(ValueDepth(vs[0]), ItemsDepth(vs[1..]))
  }

  function MembersDepth(ms: seq<Member>): nat
    decreases ms, 0
  {
    if ms == [] then 0 else Max(ValueDepth(ms[0].value), MembersDepth(ms[1..]))
  }

  /** Some key or string of the value holds an unpaired surrogate. */
  predicate HoldsLone(v: Value)
    decreases v, 0
  {
    match v
    case Str(s) => Lone(s)
    case Arr(items) => ItemsHoldLone(items)
    case Obj(members) => MembersHoldLone(members)
    case _ => false
  }

  predicate ItemsHoldLone(vs: seq<Value>)
    decreases vs, 0
  {
    vs != [] && (HoldsLone(vs[0]) || ItemsHoldLone(vs[1..]))
  }

  predicate MembersHoldLone(ms: seq<Member>)
    decreases ms, 0
  {
    ms != [] && (Lone(ms[0].key) || HoldsLone(ms[0].value) || MembersHoldLone(ms[1..]))
  }

  /** The acceptance profile of values. */
  predicate Portable(v: Value) {
    WellFormed(v) && ValueDepth(v) <= MAX_DEPTH && !HoldsLone(v)
  }

  /* ---------- the tree of a printed value ---------- */

  function TreeFor(v: Value): Tree
    requires InMemory(v)
    decreases v, 0
  {
    match v
    case Null => TNull
    case Bool(b) => if b then TTrue else TFalse
    case Num(lexeme) => TNum(Number(lexeme, [], []))
    case Str(s) => TStr(PiecesFor(s))
    case Arr(items) => TArr([], ElemsFor(items))
    case Obj(members) => TObj([], FieldsFor(members))
  }

  function ElemsFor(vs: seq<Value>): Elems
    requires ItemsInMemory(vs)
    decreases vs, 0
  {
    if vs == [] then NoElems else Elem([], TreeFor(vs[0]), [], ElemsFor(vs[1..]))
  }

  function FieldsFor(ms: seq<Member>): Fields
    requires MembersInMemory(ms)
    decreases ms, 0
  {
    if ms == [] then NoFields
    else Field([], PiecesFor(ms[0].key), [], [], TreeFor(ms[0].value), [], FieldsFor(ms[1..]))
  }

  lemma {:induction false} PiecesForDecode(s: Text)
    ensures Decoded(PiecesFor(s)) == s
    decreases |s|
  {
    if s != [] {
      PiecesForDecode(s[1..]);
      assert PiecesFor(s)[1..] == PiecesFor(s[1..]);
      assert s == [s[0]] + s[1..];
    }
  }

  /** A printed value is the text of its tree. */
  lemma {:induction false} PrintIsTreeText(v: Value)
    requires InMemory(v)
    ensures Print(v) == TreeText(TreeFor(v))
    decreases v, 0
  {
    match v
    case Num(lexeme) => PrintNumIsText(lexeme);
    case Arr(items) => PrintItemsIsText(items);
    case Obj(members) => PrintMembersIsText(members);
    case _ =>
  }

  lemma {:induction false} PrintItemsIsText(vs: seq<Value>)
    requires ItemsInMemory(vs)
    ensures PrintItems(vs) == ElemsText(ElemsFor(vs))
    decreases vs, 0
  {
    if vs != [] {
      PrintIsTreeText(vs[0]);
      PrintItemsIsText(vs[1..]);
      var t := TreeText(TreeFor(vs[0]));
      assert [] + t + [] == t;
      assert |vs| == 1 <==> ElemsFor(vs[1..]).NoElems?;
    }
  }

  lemma {:induction false} PrintMembersIsText(ms: seq<Member>)
    requires MembersInMemory(ms)
    ensures PrintMembers(ms) == FieldsText(FieldsFor(ms))
    decreases ms, 0
  {
    if ms != [] {
      PrintIsTreeText(ms[0].value);
      PrintMembersIsText(ms[1..]);
      var k, t := PrintString(ms[0].key), TreeText(TreeFor(ms[0].value));
      var tail := if |ms| == 1 then [] else [COMMA] + PrintMembers(ms[1..]);
      BareKey(ms[0].key);
      BareSlot(TreeFor(ms[0].value));
      Assoc(k + [COLON], t, tail);
      assert |ms| == 1 <==> FieldsFor(ms[1..]).NoFields?;
    }
  }

  lemma BareKey(key: Text)
    ensures KeyText([], PiecesFor(key), []) == PrintString(key) + [COLON]
  {
  }

  lemma BareSlot(t: Tree)
    ensures SlotText([], t, []) == TreeText(t)
  {
  }

  lemma PrintNumIsText(lexeme: Text)
    requires InMemory(Num(lexeme))
    ensures Print(Num(lexeme)) == TreeText(TreeFor(Num(lexeme)))
  {
    assert lexeme + [] + [] == lexeme;
  }

  /** The tree of a printed value denotes that value, within the same bounds. */
  lemma {:induction false} TreeForDenotes(v: Value)
    requires InMemory(v)
    ensures ValueOf(TreeFor(v)) == v && Plain(TreeFor(v)) == WellFormed(v)
    ensures Depth(TreeFor(v)) == ValueDepth(v) && HasLone(TreeFor(v)) == HoldsLone(v)
    decreases v, 0
  {
    match v
    case Num(lexeme) => assert lexeme + [] + [] == lexeme;
    case Str(s) => PiecesForDecode(s);
    case Arr(items) => ElemsForDenote(items);
    case Obj(members) => FieldsForDenote(members);
    case _ =>
  }

  lemma {:induction false} ElemsForDenote(vs: seq<Value>)
    requires ItemsInMemory(vs)
    ensures ItemsOf(ElemsFor(vs)) == vs && ElemsPlain(ElemsFor(vs)) == ItemsWellFormed(vs)
    ensures ElemsDepth(ElemsFor(vs)) == ItemsDepth(vs) && ElemsHaveLone(ElemsFor(vs)) == ItemsHoldLone(vs)
    decreases vs, 0
  {
    if vs != [] {
      TreeForDenotes(vs[0]);
      ElemsForDenote(vs[1..]);
      assert vs == [vs[0]] + vs[1..];
    }
  }

  lemma {:induction false} FieldsForDenote(ms: seq<Member>)
    requires MembersInMemory(ms)
    ensures MembersOf(FieldsFor(ms)) == ms && FieldsPlain(FieldsFor(ms)) == MembersWellFormed(ms)
    ensures FieldsDepth(FieldsFor(ms)) == MembersDepth(ms) && FieldsHaveLone(FieldsFor(ms)) == MembersHoldLone(ms)
    decreases ms, 0
  {
    if ms != [] {
      TreeForDenotes(ms[0].value);
      FieldsForDenote(ms[1..]);
      PiecesForDecode(ms[0].key);
      assert ms == [Member(ms[0].key, ms[0].value)] + ms[1..];
    }
  }

  /* ---------- printed text is ASCII ---------- */

  /** Printable ASCII only: no control character, nothing beyond 0x7E. */
  predicate Printable(s: Text) {
    forall i :: 0 <= i < |s| ==> 0x20 <= s[i] <= 0x7E
  }

  lemma {:induction false} PiecesPrintable(s: Text)
    ensures Printable(PiecesText(PiecesFor(s)))
    decreases |s|
  {
    if s != [] {
      PiecesPrintable(s[1..]);
      assert PiecesFor(s)[1..] == PiecesFor(s[1..]);
    }
  }

  lemma {:induction false} PrintPrintable(v: Value)
    requires InMemory(v)
    ensures Printable(Print(v))
    decreases v, 0
  {
    match v
    case Str(s) => PiecesPrintable(s);
    case Num(lexeme) => assert forall i :: 0 < i < |lexeme| ==> lexeme[i] == lexeme[1..][i - 1];
    case Arr(items) => PrintItemsPrintable(items);
    case Obj(members) => PrintMembersPrintable(members);
    case _ =>
  }

  lemma {:induction false} PrintItemsPrintable(vs: seq<Value>)
    requires ItemsInMemory(vs)
    ensures Printable(PrintItems(vs))
    decreases vs, 0
  {
    if vs != [] {
      PrintPrintable(vs[0]);
      PrintItemsPrintable(vs[1..]);
    }
  }

  lemma {:induction false} PrintMembersPrintable(ms: seq<Member>)
    requires MembersInMemory(ms)
    ensures Printable(PrintMembers(ms))
    decreases ms, 0
  {
    if ms != [] {
      PiecesPrintable(ms[0].key);
      PrintPrintable(ms[0].value);
      PrintMembersPrintable(ms[1..]);
    }
  }

  lemma {:induction false} AsciiIsPaired(s: Text)
    requires forall i :: 0 <= i < |s| ==> s[i] < 0x80
    ensures !Lone(s)
    decreases |s|
  {
    if s != [] {
      AsciiIsPaired(s[1..]);
    }
  }

  /* ---------- the round trip ---------- */

  /** A printed value, between white space, is parsed back exactly when it lies within the profile. */
  lemma PrintedIsParsed(before: Ws, v: Value, after: Ws)
    requires InMemory(v)
    ensures ParseText(before + Print(v) + after) == if Portable(v) then Some(v) else None
  {
    var d := Document(before, TreeFor(v), after);
    PrintIsTreeText(v);
    TreeForDenotes(v);
    PrintPrintable(v);
    AsciiIsPaired(before + Print(v) + after);
    ParsesDocument(d);
  }

  /** Whatever is parsed is within the profile, so printing and parsing again change nothing. */
  lemma ParsedIsPortable(s: Text)
    requires !Lone(s)
    ensures ParseText(s).Some? ==> Portable(ParseText(s).value) && ParseText(Print(ParseText(s).value)) == ParseText(s)
  {
    ParsedIsDocument(s);
    if ParseText(s).Some? {
      var d: Document :| DocumentText(d) == s && InProfile(d.tree);
      var v := ValueOf(d.tree);
      PlainIsWellFormed(d.tree);
      WellFormedIsInMemory(v);
      PrintedIsParsed([], v, []);
      assert [] + Print(v) + [] == Print(v);
    }
  }

  /** The value of a plain tree is well formed, with the tree's depth and surrogates. */
  lemma {:induction false} PlainIsWellFormed(t: Tree)
    requires Plain(t)
    ensures WellFormed(ValueOf(t)) && ValueDepth(ValueOf(t)) == Depth(t) && HoldsLone(ValueOf(t)) == HasLone(t)
    decreases t
  {
    match t
    case TNum(n) =>
      assert NumText(n) == n.whole;
      NormalKeepsValue(n.whole);
    case TArr(_, es) => ElemsAreWellFormed(es);
    case TObj(_, fs) => FieldsAreWellFormed(fs);
    case _ =>
  }

  lemma {:induction false} ElemsAreWellFormed(es: Elems)
    requires ElemsPlain(es)
    ensures ItemsWellFormed(ItemsOf(es))
    ensures ItemsDepth(ItemsOf(es)) == ElemsDepth(es) && ItemsHoldLone(ItemsOf(es)) == ElemsHaveLone(es)
    decreases es
  {
    if es.Elem? {
      PlainIsWellFormed(es.value);
      ElemsAreWellFormed(es.rest);
      assert ItemsOf(es)[1..] == ItemsOf(es.rest);
    }
  }

  lemma {:induction false} FieldsAreWellFormed(fs: Fields)
    requires FieldsPlain(fs)
    ensures MembersWellFormed(MembersOf(fs))
    ensures MembersDepth(MembersOf(fs)) == FieldsDepth(fs) && MembersHoldLone(MembersOf(fs)) == FieldsHaveLone(fs)
    decreases fs
  {
    if fs.Field? {
      PlainIsWellFormed(fs.value);
      FieldsAreWellFormed(fs.rest);
      assert MembersOf(fs)[1..] == MembersOf(fs.rest);
    }
  }
}
