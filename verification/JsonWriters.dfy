/**
 The two hand-written printers of the canonical form: one writes UTF-16 unit by unit and
 sorts keys by code points, the other writes code point by code point and sorts keys by
 UTF-8 bytes. Both write the same text.

 The proof goes through the order of keys first: UTF-8 keeps the order of code points, so
 both sorts give one list of members. Then through strings: the surrogate pair that the
 second printer computes for a code point above the basic plane is the pair of units the
 first printer finds in the text. The two writers are objects with a buffer, and each is
 tied to the printed text of the value; the first may hand its buffer to a digest at any
 time.
 */
module JsonWriters {
  import opened JsonText
  import opened JsonGrammar
  import opened JsonPrinter
  import opened JsonCanonical
  import opened CodePoints

  /* ---------- sorting keys by UTF-8 bytes ---------- */

  predicate ByteLess(a: Text, b: Text)
    requires !Lone(a) && !Lone(b)
  {
    PairedPointsAreScalars(a);
    PairedPointsAreScalars(b);
    LexLess(Utf8(Points(a)), Utf8(Points(b)))
  }

  predicate PairedKeys(ms: seq<Member>) {
    forall i :: 0 <= i < |ms| ==> !Lone(ms[i].key)
  }

  function InsertByBytes(m: Member, ms: seq<Member>): (r: seq<Member>)
    requires !Lone(m.key) && PairedKeys(ms)
    ensures PairedKeys(r)
  {
    if ms == [] || !ByteLess(ms[0].key, m.key) then [m] + ms else [ms[0]] + InsertByBytes(m, ms[1..])
  }

  function SortByBytes(ms: seq<Member>): (r: seq<Member>)
    requires PairedKeys(ms)
    ensures PairedKeys(r)
  {
    if ms == [] then [] else InsertByBytes(ms[0], SortByBytes(ms[1..]))
  }

  lemma ByteLessIsKeyLess(a: Text, b: Text)
    requires !Lone(a) && !Lone(b)
    ensures ByteLess(a, b) == KeyLess(a, b)
  {
    PairedPointsAreScalars(a);
    PairedPointsAreScalars(b);
    ByteOrderIsPointOrder(Points(a), Points(b));
  }

  lemma {:induction false} InsertByBytesIsInsert(m: Member, ms: seq<Member>)
    requires !Lone(m.key) && PairedKeys(ms)
    ensures InsertByBytes(m, ms) == Insert(m, ms)
    decreases |ms|
  {
    if ms != [] {
      ByteLessIsKeyLess(ms[0].key, m.key);
      InsertByBytesIsInsert(m, ms[1..]);
    }
  }

  /** Sorting members by the UTF-8 bytes of their keys is sorting them by code points. */
  lemma {:induction false} SortByBytesIsSort(ms: seq<Member>)
    requires PairedKeys(ms)
    ensures SortByBytes(ms) == Sort(ms)
    decreases |ms|
  {
    if ms != [] {
      SortByBytesIsSort(ms[1..]);
      InsertByBytesIsInsert(ms[0], SortByBytes(ms[1..]));
    }
  }

  /* ---------- writing strings code point by code point ---------- */

  function Escape(u: Unit): Text {
    [BACKSLASH, LOWER_U] + Hex4Text(u)
  }

  /** How one code point is written: above the basic plane, as the two halves of its pair. */
  function RuneText(r: int): Text
    requires 0 <= r < 0x110000
  {
    if r == QUOTE then [BACKSLASH, QUOTE]
    else if r == BACKSLASH then [BACKSLASH, BACKSLASH]
    else if r == LF then [BACKSLASH, 'n' as int]
    else if r == CR then [BACKSLASH, 'r' as int]
    else if r == TAB then [BACKSLASH, 't' as int]
    else if r == 0x08 then [BACKSLASH, 'b' as int]
    else if r == 0x0C then [BACKSLASH, 'f' as int]
    else if 0x20 <= r <= 0x7E then [r]
    else if r > 0xFFFF then
      var x := r - 0x10000;
      Escape(0xD800 + x / 0x400) + Escape(0xDC00 + x % 0x400)
    else Escape(r)
  }

  function RunesText(rs: seq<int>): Text
    requires AllScalars(rs)
  {
    if rs == [] then [] else RuneText(rs[0]) + RunesText(rs[1..])
  }

  lemma SurrogatePiece(u: Unit)
    requires IsHigh(u) || IsLow(u)
    ensures PieceText(PieceFor(u)) == Escape(u)
  {
  }

  lemma HighAndLow(a: nat, b: nat)
    requires b < 0x400
    ensures (a * 0x400 + b) / 0x400 == a && (a * 0x400 + b) % 0x400 == b
  {
  }

  /** The two halves the writer computes from a code point above the basic plane. */
  lemma HalvesOfAstral(hi: Unit, lo: Unit)
    requires IsHigh(hi) && IsLow(lo)
    ensures var x := Astral(hi, lo) - 0x10000;
            0 <= x < 0x100000 && 0xD800 + x / 0x400 == hi && 0xDC00 + x % 0x400 == lo
  {
    HighAndLow(hi - 0xD800, lo - 0xDC00);
  }

  /** The surrogate arithmetic per code point gives the escapes of the two UTF-16 units. */
  lemma AstralIsTwoUnits(hi: Unit, lo: Unit)
    requires IsHigh(hi) && IsLow(lo)
    ensures RuneText(Astral(hi, lo)) == PieceText(PieceFor(hi)) + PieceText(PieceFor(lo))
  {
    HalvesOfAstral(hi, lo);
    RuneAbovePlane(Astral(hi, lo), hi, lo);
    SurrogatePiece(hi);
    SurrogatePiece(lo);
  }

  /** Above the basic plane a code point is written as two escapes. */
  lemma RuneAbovePlane(r: int, hi: Unit, lo: Unit)
    requires 0x10000 <= r < 0x110000
    requires hi == 0xD800 + (r - 0x10000) / 0x400 && lo == 0xDC00 + (r - 0x10000) % 0x400
    ensures RuneText(r) == Escape(hi) + Escape(lo)
  {
  }

  /** Writing a paired string by code points is writing it by units. */
  lemma {:induction false} RunesAreUnits(s: Text)
    requires !Lone(s)
    ensures AllScalars(Points(s)) && RunesText(Points(s)) == PiecesText(PiecesFor(s))
    decreases |s|
  {
    PairedPointsAreScalars(s);
    if s != [] {
      var n := if IsHigh(s[0]) then 2 else 1;
      RunesAreUnits(s[n..]);
      assert Points(s)[1..] == Points(s[n..]);
      if n == 2 {
        AstralIsTwoUnits(s[0], s[1]);
        PiecesOfTwo(s);
      } else {
        assert PiecesFor(s)[1..] == PiecesFor(s[1..]);
      }
    }
  }

  lemma PiecesOfTwo(s: Text)
    requires 2 <= |s|
    ensures PiecesText(PiecesFor(s)) == PieceText(PieceFor(s[0])) + PieceText(PieceFor(s[1])) + PiecesText(PiecesFor(s[2..]))
  {
    assert PiecesFor(s)[1..] == PiecesFor(s[1..]);
    assert PiecesFor(s[1..])[1..] == PiecesFor(s[1..][1..]);
    assert s[1..][1..] == s[2..];
    Assoc(PieceText(PieceFor(s[0])), PieceText(PieceFor(s[1])), PiecesText(PiecesFor(s[2..])));
  }

  /* ---------- values of the profile ---------- */

  lemma {:induction false} NoLoneKeys(ms: seq<Member>)
    requires !MembersHoldLone(ms)
    ensures PairedKeys(ms)
    decreases |ms|
  {
    if ms != [] {
      NoLoneKeys(ms[1..]);
      assert ms == [ms[0]] + ms[1..];
    }
  }

  lemma {:induction false} NoLoneMember(ms: seq<Member>, i: nat)
    requires i < |ms| && !MembersHoldLone(ms)
    ensures !HoldsLone(ms[i].value)
    decreases |ms|
  {
    if 0 < i {
      NoLoneMember(ms[1..], i - 1);
    }
  }

  lemma {:induction false} NoLoneItem(vs: seq<Value>, i: nat)
    requires i < |vs| && !ItemsHoldLone(vs)
    ensures !HoldsLone(vs[i])
    decreases |vs|
  {
    if 0 < i {
      NoLoneItem(vs[1..], i - 1);
    }
  }

  /** Sorting the members' values and sorting the members commute. */
  lemma {:induction false} SortCommutes(ms: seq<Member>)
    ensures Sort(SortMembers(ms)) == SortMembers(Sort(ms))
    decreases |ms|
  {
    if ms != [] {
      SortCommutes(ms[1..]);
      InsertCommutes(ms[0], Sort(ms[1..]));
      assert SortMembers(ms)[1..] == SortMembers(ms[1..]);
    }
  }

  lemma {:induction false} InsertCommutes(m: Member, ms: seq<Member>)
    ensures SortMembers(Insert(m, ms)) == Insert(Member(m.key, SortValue(m.value)), SortMembers(ms))
    decreases |ms|
  {
    if ms != [] && KeyLess(ms[0].key, m.key) {
      InsertCommutes(m, ms[1..]);
      assert SortMembers(ms)[1..] == SortMembers(ms[1..]);
      assert Insert(m, ms)[1..] == Insert(m, ms[1..]);
    } else {
      assert ([m] + ms)[1..] == ms;
    }
  }

  /** What is still to be written of a list of members once some are. */
  function MembersLeft(ms: seq<Member>, k: nat): Text
    requires k <= |ms|
  {
    if k == |ms| then [] else (if k == 0 then [] else [COMMA]) + PrintMembers(ms[k..])
  }

  function ItemsLeft(vs: seq<Value>, k: nat): Text
    requires k <= |vs|
  {
    if k == |vs| then [] else (if k == 0 then [] else [COMMA]) + PrintItems(vs[k..])
  }

  lemma NextMemberLeft(ms: seq<Member>, k: nat)
    requires k < |ms|
    ensures MembersLeft(ms, k) == (if k == 0 then [] else [COMMA]) + (PrintMember(ms[k]) + MembersLeft(ms, k + 1))
  {
    assert ms[k..][1..] == ms[k + 1..];
  }

  lemma NextItemLeft(vs: seq<Value>, k: nat)
    requires k < |vs|
    ensures ItemsLeft(vs, k) == (if k == 0 then [] else [COMMA]) + (Print(vs[k]) + ItemsLeft(vs, k + 1))
  {
    assert vs[k..][1..] == vs[k + 1..];
  }

  lemma NextPieceLeft(s: Text, k: nat)
    requires k < |s|
    ensures PiecesText(PiecesFor(s[k..])) == PieceText(PieceFor(s[k])) + PiecesText(PiecesFor(s[k + 1..]))
  {
    assert s[k..][1..] == s[k + 1..];
    assert PiecesFor(s[k..])[1..] == PiecesFor(s[k + 1..]);
  }

  /** What a writer has done once a bracketed text is closed. */
  lemma Closed(done: Text, open: Unit, body: Text, close: Unit, now: Text)
    requires now + [] == done + [open] + body
    ensures now + [close] == done + ([open] + body + [close])
  {
    assert now + [] == now;
    Assoc(done, [open], body);
    Assoc(done, [open] + body, [close]);
  }

  /** Writing the front of what is left. */
  lemma Written(done: Text, front: Text, left: Text)
    ensures done + front + left == done + (front + left)
  {
  }

  /** One item more is written. */
  lemma ItemWritten(done: Text, comma: Text, vs: seq<Value>, k: nat)
    requires k < |vs| && comma == if k == 0 then [] else [COMMA]
    ensures done + comma + Print(vs[k]) + ItemsLeft(vs, k + 1) == done + ItemsLeft(vs, k)
  {
    NextItemLeft(vs, k);
    Written(done, comma, Print(vs[k]) + ItemsLeft(vs, k + 1));
    Written(done + comma, Print(vs[k]), ItemsLeft(vs, k + 1));
  }

  lemma MemberWritten(done: Text, comma: Text, ms: seq<Member>, k: nat)
    requires k < |ms| && comma == if k == 0 then [] else [COMMA]
    ensures done + comma + PrintMember(ms[k]) + MembersLeft(ms, k + 1) == done + MembersLeft(ms, k)
  {
    NextMemberLeft(ms, k);
    Written(done, comma, PrintMember(ms[k]) + MembersLeft(ms, k + 1));
    Written(done + comma, PrintMember(ms[k]), MembersLeft(ms, k + 1));
  }

  /* ---------- the writer that sorts by code points ---------- */

  /** Text goes to a buffer, which is fed to a digest whenever it grows long. */
  class Writer {
    const digesting: bool
    var fed: Text
    var buffer: Text

    constructor (digesting: bool)
      ensures this.digesting == digesting && Out() == []
    {
      this.digesting, fed, buffer := digesting, [], [];
    }

    /** Everything written so far. */
    ghost function Out(): Text
      reads this
    {
      fed + buffer
    }

    method Append(t: Text)
      modifies this
      ensures Out() == old(Out()) + t
    {
      buffer := buffer + t;
    }

    method Spill()
      modifies this
      ensures Out() == old(Out())
    {
      if digesting && |buffer| >= 0x10000 {
        fed, buffer := fed + buffer, [];
      }
    }

    method WriteString(s: Text)
      modifies this
      ensures Out() == old(Out()) + PrintString(s)
    {
      ghost var start := old(Out()) + [QUOTE];
      Append([QUOTE]);
      for k := 0 to |s|
        invariant Out() + PiecesText(PiecesFor(s[k..])) == start + PiecesText(PiecesFor(s))
      {
        NextPieceLeft(s, k);
        Written(Out(), PieceText(PieceFor(s[k])), PiecesText(PiecesFor(s[k + 1..])));
        Append(PieceText(PieceFor(s[k])));
        if k % 0x10000 == 0xFFFF {
          Spill();
        }
      }
      Closed(old(Out()), QUOTE, PiecesText(PiecesFor(s)), QUOTE, Out());
      Append([QUOTE]);
    }

    method Encode(v: Value)
      modifies this
      ensures Out() == old(Out()) + Canonical(v)
      decreases v, 5
    {
      match v {
        case Null => Append(NULL);
        case Bool(b) => Append(if b then TRUE else FALSE);
        case Num(lexeme) => Append(lexeme);
        case Str(s) => WriteString(s);
        case Arr(items) => EncodeArray(items);
        case Obj(members) => EncodeObject(members);
      }
      Spill();
    }

    /** A comma in front of every item but the first. */
    method Comma(k: nat)
      modifies this
      ensures Out() == old(Out()) + if k == 0 then [] else [COMMA]
    {
      if k > 0 {
        Append([COMMA]);
      }
    }

    method EncodeArray(items: seq<Value>)
      modifies this
      ensures Out() == old(Out()) + Canonical(Arr(items))
      decreases items, 2
    {
      ghost var sorted := SortItems(items);
      ghost var start := old(Out()) + [LBRACKET];
      Append([LBRACKET]);
      for k := 0 to |items|
        invariant Out() + ItemsLeft(sorted, k) == start + PrintItems(sorted)
      {
        SortItemsAt(items, k);
        ItemWritten(Out(), if k == 0 then [] else [COMMA], sorted, k);
        Comma(k);
        Encode(items[k]);
      }
      Closed(old(Out()), LBRACKET, PrintItems(sorted), RBRACKET, Out());
      Append([RBRACKET]);
    }

    method EncodeObject(members: seq<Member>)
      modifies this
      ensures Out() == old(Out()) + Canonical(Obj(members))
      decreases members, 4
    {
      SortCommutes(members);
      SortMembership(members);
      EncodeInOrder(Sort(members), members);
    }

    /** The members of an object, already in key order. */
    method EncodeInOrder(inOrder: seq<Member>, ghost members: seq<Member>)
      requires forall m <- inOrder :: m in members
      modifies this
      ensures Out() == old(Out()) + ([LBRACE] + PrintMembers(SortMembers(inOrder)) + [RBRACE])
      decreases members, 3
    {
      ghost var sorted := SortMembers(inOrder);
      ghost var start := old(Out()) + [LBRACE];
      Append([LBRACE]);
      for k := 0 to |inOrder|
        invariant Out() + MembersLeft(sorted, k) == start + PrintMembers(sorted)
      {
        SortMembersAt(inOrder, k);
        MemberWritten(Out(), if k == 0 then [] else [COMMA], sorted, k);
        Comma(k);
        assert inOrder[k] in members;
        ghost var at :| 0 <= at < |members| && members[at] == inOrder[k];
        EncodeMember(inOrder[k]);
      }
      Closed(old(Out()), LBRACE, PrintMembers(sorted), RBRACE, Out());
      Append([RBRACE]);
    }

    method EncodeMember(m: Member)
      modifies this
      ensures Out() == old(Out()) + PrintMember(Member(m.key, SortValue(m.value)))
      decreases m, 6
    {
      WriteString(m.key);
      Append([COLON]);
      Encode(m.value);
      Written(old(Out()) + PrintString(m.key), [COLON], Canonical(m.value));
      Written(old(Out()), PrintString(m.key), [COLON] + Canonical(m.value));
      Assoc(PrintString(m.key), [COLON], Canonical(m.value));
    }
  }

  /* ---------- the writer that sorts by UTF-8 bytes ---------- */

  class RuneWriter {
    var buffer: Text

    constructor ()
      ensures buffer == []
    {
      buffer := [];
    }

    method WriteString(s: Text)
      requires !Lone(s)
      modifies this
      ensures buffer == old(buffer) + PrintString(s)
    {
      RunesAreUnits(s);
      var runes := Points(s);
      ghost var start := buffer + [QUOTE];
      buffer := buffer + [QUOTE];
      for k := 0 to |runes|
        invariant AllScalars(runes[k..])
        invariant buffer + RunesText(runes[k..]) == start + RunesText(runes)
      {
        assert runes[k..][1..] == runes[k + 1..];
        Written(buffer, RuneText(runes[k]), RunesText(runes[k + 1..]));
        buffer := buffer + RuneText(runes[k]);
      }
      Closed(old(buffer), QUOTE, RunesText(runes), QUOTE, buffer);
      buffer := buffer + [QUOTE];
    }

    /** The same text as the writer that sorts by code points. */
    method Encode(v: Value)
      requires !HoldsLone(v)
      modifies this
      ensures buffer == old(buffer) + Canonical(v)
      decreases v, 5
    {
      match v {
        case Null => buffer := buffer + NULL;
        case Bool(b) => buffer := buffer + if b then TRUE else FALSE;
        case Num(lexeme) => buffer := buffer + lexeme;
        case Str(s) => WriteString(s);
        case Arr(items) => EncodeArray(items);
        case Obj(members) => EncodeObject(members);
      }
    }

    method Comma(k: nat)
      modifies this
      ensures buffer == old(buffer) + if k == 0 then [] else [COMMA]
    {
      if k > 0 {
        buffer := buffer + [COMMA];
      }
    }

    method EncodeArray(items: seq<Value>)
      requires !ItemsHoldLone(items)
      modifies this
      ensures buffer == old(buffer) + Canonical(Arr(items))
      decreases items, 2
    {
      ghost var sorted := SortItems(items);
      ghost var start := buffer + [LBRACKET];
      buffer := buffer + [LBRACKET];
      for k := 0 to |items|
        invariant buffer + ItemsLeft(sorted, k) == start + PrintItems(sorted)
      {
        SortItemsAt(items, k);
        NoLoneItem(items, k);
        ItemWritten(buffer, if k == 0 then [] else [COMMA], sorted, k);
        Comma(k);
        Encode(items[k]);
      }
      Closed(old(buffer), LBRACKET, PrintItems(sorted), RBRACKET, buffer);
      buffer := buffer + [RBRACKET];
    }

    method EncodeObject(members: seq<Member>)
      requires !MembersHoldLone(members)
      modifies this
      ensures buffer == old(buffer) + Canonical(Obj(members))
      decreases members, 4
    {
      NoLoneKeys(members);
      SortByBytesIsSort(members);
      SortCommutes(members);
      SortIn(members);
      SortMembership(members);
      EncodeInOrder(SortByBytes(members), members);
    }

    /** The members of an object, already in key order. */
    method EncodeInOrder(inOrder: seq<Member>, ghost members: seq<Member>)
      requires forall m <- inOrder :: m in members
      requires !MembersHoldLone(inOrder)
      modifies this
      ensures buffer == old(buffer) + ([LBRACE] + PrintMembers(SortMembers(inOrder)) + [RBRACE])
      decreases members, 3
    {
      NoLoneKeys(inOrder);
      ghost var sorted := SortMembers(inOrder);
      ghost var start := buffer + [LBRACE];
      buffer := buffer + [LBRACE];
      for k := 0 to |inOrder|
        invariant buffer + MembersLeft(sorted, k) == start + PrintMembers(sorted)
      {
        SortMembersAt(inOrder, k);
        NoLoneMember(inOrder, k);
        MemberWritten(buffer, if k == 0 then [] else [COMMA], sorted, k);
        Comma(k);
        assert inOrder[k] in members;
        ghost var at :| 0 <= at < |members| && members[at] == inOrder[k];
        EncodeMember(inOrder[k]);
      }
      Closed(old(buffer), LBRACE, PrintMembers(sorted), RBRACE, buffer);
      buffer := buffer + [RBRACE];
    }

    method EncodeMember(m: Member)
      requires !Lone(m.key) && !HoldsLone(m.value)
      modifies this
      ensures buffer == old(buffer) + PrintMember(Member(m.key, SortValue(m.value)))
      decreases m, 6
    {
      WriteString(m.key);
      buffer := buffer + [COLON];
      Encode(m.value);
      Written(old(buffer) + PrintString(m.key), [COLON], Canonical(m.value));
      Written(old(buffer), PrintString(m.key), [COLON] + Canonical(m.value));
      Assoc(PrintString(m.key), [COLON], Canonical(m.value));
    }
  }
}
