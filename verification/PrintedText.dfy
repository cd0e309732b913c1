/**
 Printed texts written out: arrays, objects, the line of a ledger entry and what its hash covers.
 */
module PrintedText {
  import opened Wrappers
  import opened JsonText
  import opened JsonGrammar
  import opened JsonPrinter
  import opened JsonCanonical
  import opened CodePoints
  import opened LedgerChain
  import opened LedgerAppend

  /* ---------- values ---------- */

  /** Texts with a comma, and nothing else, between each two. */
  function Between(ts: seq<Text>): Text {
    if ts == [] then []
    else if |ts| == 1 then ts[0]
    else ts[0] + [',' as int] + Between(ts[1..])
  }

  function Texts(vs: seq<Value>): (ts: seq<Text>)
    ensures |ts| == |vs| && forall i :: 0 <= i < |ts| ==> ts[i] == Print(vs[i])
  {
    seq(|vs|, i requires 0 <= i < |vs| => Print(vs[i]))
  }

  function MemberTexts(ms: seq<Member>): (ts: seq<Text>)
    ensures |ts| == |ms| && forall i :: 0 <= i < |ts| ==> ts[i] == Print(Str(ms[i].key)) + [':' as int] + Print(ms[i].value)
  {
    seq(|ms|, i requires 0 <= i < |ms| => Print(Str(ms[i].key)) + [':' as int] + Print(ms[i].value))
  }

  lemma {:induction false} ItemsPrint(vs: seq<Value>)
    ensures PrintItems(vs) == Between(Texts(vs))
    decreases |vs|
  {
    if vs != [] {
      ItemsPrint(vs[1..]);
      assert Texts(vs)[1..] == Texts(vs[1..]);
      if 1 < |vs| {
        Assoc(Print(vs[0]), [COMMA], PrintItems(vs[1..]));
      }
    }
  }

  lemma {:induction false} MembersPrint(ms: seq<Member>)
    ensures PrintMembers(ms) == Between(MemberTexts(ms))
    decreases |ms|
  {
    if ms != [] {
      MembersPrint(ms[1..]);
      assert MemberTexts(ms)[1..] == MemberTexts(ms[1..]);
      assert PrintMember(ms[0]) == MemberTexts(ms)[0];
      if 1 < |ms| {
        Assoc(PrintMember(ms[0]), [COMMA], PrintMembers(ms[1..]));
      }
    }
  }

  /** What is printed for each kind of value: no blank anywhere, members and items in their order. */
  lemma ValuesPrint(vs: seq<Value>, ms: seq<Member>, lexeme: Text)
    ensures Print(Null) == Ascii("null") && Print(Bool(true)) == Ascii("true") && Print(Bool(false)) == Ascii("false")
    ensures Print(Num(lexeme)) == lexeme
    ensures Print(Arr(vs)) == ['[' as int] + Between(Texts(vs)) + [']' as int]
    ensures Print(Obj(ms)) == ['{' as int] + Between(MemberTexts(ms)) + ['}' as int]
  {
    ItemsPrint(vs);
    MembersPrint(ms);
  }

  /** Printable ASCII without quotes and backslashes. */
  predicate Simple(s: Text) {
    forall i :: 0 <= i < |s| ==> 0x20 <= s[i] <= 0x7E && s[i] != 0x22 && s[i] != 0x5C
  }

  lemma {:induction false} SimplePieces(s: Text)
    requires Simple(s)
    ensures PiecesText(PiecesFor(s)) == s
    decreases |s|
  {
    if s != [] {
      SimplePieces(s[1..]);
      PiecesMore(s);
      SimplePiece(s[0]);
      assert s == [s[0]] + s[1..];
    }
  }

  lemma PiecesMore(s: Text)
    requires s != []
    ensures PiecesText(PiecesFor(s)) == PieceText(PieceFor(s[0])) + PiecesText(PiecesFor(s[1..]))
  {
    assert PiecesFor(s)[1..] == PiecesFor(s[1..]);
  }

  lemma SimplePiece(u: Unit)
    requires Simple([u])
    ensures PieceText(PieceFor(u)) == [u]
  {
    assert [u][0] == u;
  }

  /** Such a string is printed as it is, between quotes. */
  lemma SimplePrints(s: Text)
    requires Simple(s)
    ensures Print(Str(s)) == ['"' as int] + s + ['"' as int]
  {
    SimplePieces(s);
  }

  /* ---------- the line of an entry ---------- */

  lemma NamesAreSimple()
    ensures Simple(IDX) && Simple(TS) && Simple(DATA) && Simple(PREV_HASH) && Simple(SELF_HASH)
  {
  }

  lemma BetweenMore(t: Text, ts: seq<Text>)
    requires ts != []
    ensures Between([t] + ts) == t + [',' as int] + Between(ts)
  {
    assert ([t] + ts)[1..] == ts;
  }

  lemma Four(a: Text, b: Text, c: Text, d: Text)
    ensures Between([a, b, c, d]) == a + [',' as int] + (b + [',' as int] + (c + [',' as int] + d))
  {
    BetweenMore(c, [d]);
    BetweenMore(b, [c, d]);
    BetweenMore(a, [b, c, d]);
    assert [c] + [d] == [c, d] && [b] + [c, d] == [b, c, d] && [a] + [b, c, d] == [a, b, c, d];
  }

  lemma Five(a: Text, b: Text, c: Text, d: Text, e: Text)
    ensures Between([a, b, c, d, e]) == a + [',' as int] + (b + [',' as int] + (c + [',' as int] + (d + [',' as int] + e)))
  {
    Four(b, c, d, e);
    BetweenMore(a, [b, c, d, e]);
    assert [a] + [b, c, d, e] == [a, b, c, d, e];
  }

  /** A named member: its name between quotes, a colon, its value. */
  function Named(m: Member): Text {
    ['"' as int] + m.key + ['"' as int] + [':' as int] + Print(m.value)
  }

  lemma NamedIs(ms: seq<Member>, k: nat)
    requires k < |ms| && Simple(ms[k].key)
    ensures MemberTexts(ms)[k] == Named(ms[k])
  {
    SimplePrints(ms[k].key);
  }

  lemma FiveMembersPrint(a: Member, b: Member, c: Member, d: Member, e: Member)
    requires Simple(a.key) && Simple(b.key) && Simple(c.key) && Simple(d.key) && Simple(e.key)
    ensures Print(Obj([a, b, c, d, e])) ==
            ['{' as int]
            + (Named(a) + [',' as int] + (Named(b) + [',' as int] + (Named(c) + [',' as int] + (Named(d) + [',' as int] + Named(e)))))
            + ['}' as int]
  {
    var ms := [a, b, c, d, e];
    ValuesPrint([], ms, []);
    NamedIs(ms, 0);
    NamedIs(ms, 1);
    NamedIs(ms, 2);
    NamedIs(ms, 3);
    NamedIs(ms, 4);
    assert MemberTexts(ms) == [Named(a), Named(b), Named(c), Named(d), Named(e)];
    Five(Named(a), Named(b), Named(c), Named(d), Named(e));
  }

  lemma FourMembersPrint(a: Member, b: Member, c: Member, d: Member)
    requires Simple(a.key) && Simple(b.key) && Simple(c.key) && Simple(d.key)
    ensures Print(Obj([a, b, c, d])) ==
            ['{' as int]
            + (Named(a) + [',' as int] + (Named(b) + [',' as int] + (Named(c) + [',' as int] + Named(d))))
            + ['}' as int]
  {
    var ms := [a, b, c, d];
    ValuesPrint([], ms, []);
    NamedIs(ms, 0);
    NamedIs(ms, 1);
    NamedIs(ms, 2);
    NamedIs(ms, 3);
    assert MemberTexts(ms) == [Named(a), Named(b), Named(c), Named(d)];
    Four(Named(a), Named(b), Named(c), Named(d));
  }

  /** The line of an entry: its five members in this order, no blanks, and an LF. */
  lemma LineIs(h: Text -> Text, st: State, item: Item)
    ensures LineFor(h, st, item) ==
            ['{' as int]
            + (Named(Member(Ascii("idx"), Num(Decimal(st.count)))) + [',' as int]
               + (Named(Member(Ascii("ts"), Str(item.ts))) + [',' as int]
                  + (Named(Member(Ascii("data"), item.data)) + [',' as int]
                     + (Named(Member(Ascii("prev_hash"), Str(st.last))) + [',' as int]
                        + Named(Member(Ascii("self_hash"), Str(Digest(h, Canonical(Obj(Bare(st, item)))))))))))
            + ['}' as int] + [0x0A]
  {
    NamesAreSimple();
    FiveMembersPrint(Member(IDX, Num(Decimal(st.count))), Member(TS, Str(item.ts)), Member(DATA, item.data),
                     Member(PREV_HASH, Str(st.last)), Member(SELF_HASH, Str(Digest(h, Canonical(Obj(Bare(st, item)))))));
    EntryIs(h, st, item);
  }

  lemma EntryIs(h: Text -> Text, st: State, item: Item)
    ensures EntryFor(h, st, item) ==
            [Member(IDX, Num(Decimal(st.count))), Member(TS, Str(item.ts)), Member(DATA, item.data),
             Member(PREV_HASH, Str(st.last)), Member(SELF_HASH, Str(Digest(h, Canonical(Obj(Bare(st, item))))))]
  {
  }

  /* ---------- what the hash covers ---------- */

  lemma FirstUnitDecides(a: Text, b: Text)
    requires a != [] && b != [] && a[0] < b[0] < 0x80
    ensures KeyLess(a, b) && !KeyLess(b, a)
  {
    assert Points(a)[0] == a[0] && Points(b)[0] == b[0];
  }

  lemma InsertFirst(m: Member, ms: seq<Member>)
    requires ms == [] || !KeyLess(ms[0].key, m.key)
    ensures Insert(m, ms) == [m] + ms
  {
  }

  lemma InsertSecond(m: Member, first: Member, ms: seq<Member>)
    requires KeyLess(first.key, m.key)
    ensures Insert(m, [first] + ms) == [first] + Insert(m, ms)
  {
    assert ([first] + ms)[1..] == ms;
  }

  /** Four members put in the order of their first letters. */
  lemma FourSorted(i: Member, t: Member, d: Member, p: Member)
    requires i.key != [] && t.key != [] && d.key != [] && p.key != []
    requires d.key[0] < i.key[0] < p.key[0] < t.key[0] < 0x80
    ensures Sort([i, t, d, p]) == [d, i, p, t]
  {
    FirstUnitDecides(d.key, i.key);
    FirstUnitDecides(d.key, p.key);
    FirstUnitDecides(d.key, t.key);
    FirstUnitDecides(i.key, p.key);
    FirstUnitDecides(p.key, t.key);
    FirstUnitDecides(i.key, t.key);
    assert [i, t, d, p][1..] == [t, d, p] && [t, d, p][1..] == [d, p] && [d, p][1..] == [p] && [p][1..] == [];
    assert Sort([p]) == [p] by {
      assert Sort([]) == [];
    }
    InsertFirst(d, [p]);
    assert Sort([d, p]) == [d, p];
    InsertSecond(t, d, [p]);
    InsertSecond(t, p, []);
    assert [d] + [p] == [d, p] && [p] + [] == [p] && Sort([t, d, p]) == [d, p, t];
    InsertSecond(i, d, [p, t]);
    InsertFirst(i, [p, t]);
    assert [d] + [p, t] == [d, p, t];
  }

  /** The members of a bare entry, with the data in its canonical form. */
  lemma BareSorted(st: State, item: Item)
    ensures SortMembers(Bare(st, item)) ==
            [Member(IDX, Num(Decimal(st.count))), Member(TS, Str(item.ts)), Member(DATA, SortValue(item.data)), Member(PREV_HASH, Str(st.last))]
  {
    var b := Bare(st, item);
    assert b[1..][1..] == b[2..] && b[2..][1..] == b[3..] && b[3..][1..] == [];
    assert SortMembers(b[3..]) == [b[3]];
    assert SortMembers(b[2..]) == [Member(DATA, SortValue(item.data)), b[3]];
    assert SortMembers(b[1..]) == [b[1], Member(DATA, SortValue(item.data)), b[3]];
  }

  /** What self_hash covers: the other four members in the order of their names, the data in its own canonical form, no blanks. */
  lemma CoveredText(st: State, item: Item)
    ensures Canonical(Obj(Bare(st, item))) ==
            ['{' as int]
            + (Named(Member(Ascii("data"), SortValue(item.data))) + [',' as int]
               + (Named(Member(Ascii("idx"), Num(Decimal(st.count)))) + [',' as int]
                  + (Named(Member(Ascii("prev_hash"), Str(st.last))) + [',' as int]
                     + Named(Member(Ascii("ts"), Str(item.ts))))))
            + ['}' as int]
  {
    var i, t := Member(IDX, Num(Decimal(st.count))), Member(TS, Str(item.ts));
    var d, p := Member(DATA, SortValue(item.data)), Member(PREV_HASH, Str(st.last));
    NamesAreSimple();
    FourMembersPrint(d, i, p, t);
    BareCanonical(st, item);
  }

  lemma BareCanonical(st: State, item: Item)
    ensures SortValue(Obj(Bare(st, item))) ==
            Obj([Member(DATA, SortValue(item.data)), Member(IDX, Num(Decimal(st.count))), Member(PREV_HASH, Str(st.last)), Member(TS, Str(item.ts))])
  {
    BareSorted(st, item);
    FourSorted(Member(IDX, Num(Decimal(st.count))), Member(TS, Str(item.ts)), Member(DATA, SortValue(item.data)), Member(PREV_HASH, Str(st.last)));
  }
}
