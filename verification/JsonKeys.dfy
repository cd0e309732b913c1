/**
 The one-pass scan for repeated keys: on every syntactically valid text it reports true
 exactly when some object repeats a decoded key.
 */
module JsonKeys {
  import opened Wrappers
  import opened JsonText
  import opened JsonGrammar

  /** One entry per open bracket: the keys seen so far for an object, nothing for an array. */
  type Frame = Option<set<Text>>

  datatype KeyState = KeyState(
    seen: seq<Frame>,
    inStr: bool,
    esc: bool,
    expectKey: bool,
    readingKey: bool,
    curKey: Option<Text>)

  /** The unit of a one-letter escape; any other escaped unit stands for itself. */
  function Unescaped(c: Unit): Unit {
    if IsShortEscape(c) then ShortEscape(c) else c
  }

  /** White space and line ends as parseInt passes over them. */
  predicate IsBlank(u: Unit) {
    || 0x09 <= u <= 0x0D || u == SPACE || u == 0xA0 || u == 0x1680 || 0x2000 <= u <= 0x200A
    || u == 0x2028 || u == 0x2029 || u == 0x202F || u == 0x205F || u == 0x3000 || u == 0xFEFF
  }

  function SkipBlanks(s: Text): Text {
    if s != [] && IsBlank(s[0]) then SkipBlanks(s[1..]) else s
  }

  /** The number the hexadecimal digits at the front make, on top of those already read. */
  function LeadingHex(v: int, s: Text): int
    decreases |s|
  {
    if s == [] || HexDigit(s[0]) < 0 then v else LeadingHex(v * 16 + HexDigit(s[0]), s[1..])
  }

  /** parseInt to base 16, with 0 where it is no number: blanks, a sign, 0x, and digits as far as they go. */
  function ParseHex(s: Text): int {
    var t := SkipBlanks(s);
    var u := if t != [] && (t[0] == MINUS || t[0] == PLUS) then t[1..] else t;
    var digits := if 2 <= |u| && u[0] == ZERO && (u[1] == 'x' as int || u[1] == 'X' as int) then u[2..] else u;
    if t != [] && t[0] == MINUS then 0 - LeadingHex(0, digits) else LeadingHex(0, digits)
  }

  /** The unit of the next four characters, well formed or not, as the scan reads it. */
  function HexUnit(s: Text): Unit {
    ParseHex(if |s| < 4 then s else s[..4]) % 0x1_0000
  }

  lemma HexUnitOfDigits(s: Text)
    requires 4 <= |s| && IsHex4(s[..4])
    ensures HexUnit(s) == Hex4(s[..4])
  {
    var h := s[..4];
    var d := HexDigit(h[0]);
    assert SkipBlanks(h) == h;
    assert h[1..][1..] == h[2..] && h[2..][1..] == h[3..] && h[3..][1..] == [];
    assert LeadingHex(0, h) == LeadingHex(d, h[1..]);
    assert LeadingHex(d, h[1..]) == LeadingHex(d * 16 + HexDigit(h[1]), h[2..]);
    assert LeadingHex(d * 16 + HexDigit(h[1]), h[2..]) == LeadingHex((d * 16 + HexDigit(h[1])) * 16 + HexDigit(h[2]), h[3..]);
    assert LeadingHex((d * 16 + HexDigit(h[1])) * 16 + HexDigit(h[2]), h[3..]) == LeadingHex(Hex4(h), []);
  }

  function Drop(s: Text, n: nat): Text {
    if n <= |s| then s[n..] else []
  }

  function Extended(key: Option<Text>, u: Unit): Option<Text> {
    Some((if key.Some? then key.value else []) + [u])
  }

  function Popped(seen: seq<Frame>): seq<Frame> {
    if seen == [] then [] else seen[..|seen| - 1]
  }

  /** Whether the key just read is already in the innermost object. */
  predicate Repeats(st: KeyState) {
    && st.curKey.Some? && st.seen != []
    && var top := st.seen[|st.seen| - 1];
       top.Some? && st.curKey.value in top.value
  }

  /** The stack once the key just read is noted in the innermost object. */
  function Noted(st: KeyState): seq<Frame> {
    if st.curKey.Some? && st.seen != [] && st.seen[|st.seen| - 1].Some?
    then Popped(st.seen) + [Some(st.seen[|st.seen| - 1].value + {st.curKey.value})]
    else st.seen
  }

  /** The state after one character outside strings, a colon with a repeated key apart. */
  function Outside(st: KeyState, c: Unit): KeyState {
    if c == QUOTE then
      if st.expectKey then st.(inStr := true, readingKey := true, curKey := Some([])) else st.(inStr := true)
    else if c == LBRACE then st.(seen := st.seen + [Some({})], expectKey := true)
    else if c == RBRACE then st.(seen := Popped(st.seen), expectKey := false)
    else if c == LBRACKET then st.(seen := st.seen + [None], expectKey := false)
    else if c == RBRACKET then st.(seen := Popped(st.seen), expectKey := false)
    else if c == COLON then st.(seen := Noted(st), curKey := None, expectKey := false)
    else if c == COMMA then st.(expectKey := st.seen != [] && st.seen[|st.seen| - 1].Some?)
    else st
  }

  /** The scan of what is left of the text. */
  function KeyScan(st: KeyState, s: Text): bool
    decreases |s|
  {
    if s == [] then false
    else
      var c := s[0];
      if st.inStr then
        if st.esc then
          if st.readingKey then
            if c == LOWER_U then
              KeyScan(st.(esc := false, curKey := Extended(st.curKey, HexUnit(s[1..]))), Drop(s, 5))
            else KeyScan(st.(esc := false, curKey := Extended(st.curKey, Unescaped(c))), s[1..])
          else KeyScan(st.(esc := false), s[1..])
        else if c == BACKSLASH then KeyScan(st.(esc := true), s[1..])
        else if c == QUOTE then KeyScan(st.(inStr := false, readingKey := false), s[1..])
        else if st.readingKey then KeyScan(st.(curKey := Extended(st.curKey, c)), s[1..])
        else KeyScan(st, s[1..])
      else if c == COLON && Repeats(st) then true
      else KeyScan(Outside(st, c), s[1..])
  }

  const KEY_START := KeyState([], false, false, false, false, None)

  method HasDuplicateKeys(text: Text) returns (found: bool)
    ensures found == KeyScan(KEY_START, text)
  {
    var st := KEY_START;
    var i := 0;
    while i < |text|
      invariant 0 <= i
      invariant KeyScan(KEY_START, text) == KeyScan(st, Drop(text, i))
    {
      var c := text[i];
      i := i + 1;
      assert Drop(text, i - 1)[1..] == Drop(text, i);
      if st.inStr {
        if st.esc {
          st := st.(esc := false);
          if st.readingKey {
            if c == LOWER_U {
              assert Drop(text[i - 1..], 5) == Drop(text, i + 4);
              st := st.(curKey := Extended(st.curKey, HexUnit(text[i..])));
              i := i + 4;
            } else {
              st := st.(curKey := Extended(st.curKey, Unescaped(c)));
            }
          }
        } else if c == BACKSLASH {
          st := st.(esc := true);
        } else if c == QUOTE {
          st := st.(inStr := false, readingKey := false);
        } else if st.readingKey {
          st := st.(curKey := Extended(st.curKey, c));
        }
        continue;
      }
      if c == COLON && Repeats(st) {
        return true;
      }
      st := Outside(st, c);
    }
    return false;
  }

  /* ---------- agreement with the grammar ---------- */

  /** Between tokens, with no key half read and none expected. */
  predicate Idle(st: KeyState) {
    !st.inStr && !st.esc && !st.expectKey && !st.readingKey && st.curKey == None
  }

  /** Units outside strings that change nothing. */
  predicate Inert(s: Text) {
    forall i :: 0 <= i < |s| ==>
      && s[i] != QUOTE && s[i] != COLON && s[i] != COMMA
      && s[i] != LBRACE && s[i] != RBRACE && s[i] != LBRACKET && s[i] != RBRACKET
  }

  lemma {:induction false} InertSkips(st: KeyState, s: Text, rest: Text)
    requires !st.inStr && Inert(s)
    ensures KeyScan(st, s + rest) == KeyScan(st, rest)
    decreases |s|
  {
    if s == [] {
      assert s + rest == rest;
    } else {
      assert (s + rest)[1..] == s[1..] + rest;
      InertSkips(st, s[1..], rest);
    }
  }

  /** The state inside a string once some of its text is read. */
  function Read(st: KeyState, s: Text): KeyState {
    if st.readingKey && st.curKey.Some? then st.(curKey := Some(st.curKey.value + s)) else st
  }

  /** Inside a string, between characters; a key being read has a text so far. */
  predicate Inside(st: KeyState) {
    st.inStr && !st.esc && (st.readingKey ==> st.curKey.Some?)
  }

  lemma {:induction false} HexDigitsSkip(st: KeyState, h: Text, rest: Text)
    requires Inside(st) && !st.readingKey
    requires forall i :: 0 <= i < |h| ==> HexDigit(h[i]) >= 0
    ensures KeyScan(st, h + rest) == KeyScan(st, rest)
    decreases |h|
  {
    if h == [] {
      assert h + rest == rest;
    } else {
      assert (h + rest)[1..] == h[1..] + rest;
      HexDigitsSkip(st, h[1..], rest);
    }
  }

  lemma KeyScanOfHex(st: KeyState, h: Text, rest: Text)
    requires Inside(st) && IsHex4(h)
    ensures KeyScan(st, [BACKSLASH, LOWER_U] + h + rest) == KeyScan(Read(st, [Hex4(h)]), rest)
  {
    var s := [BACKSLASH, LOWER_U] + h + rest;
    assert s[1..] == [LOWER_U] + (h + rest) && s[1..][1..] == h + rest;
    assert (h + rest)[..4] == h;
    HexUnitOfDigits(h + rest);
    assert Drop(s[1..], 5) == rest;
    if !st.readingKey {
      HexDigitsSkip(st, h, rest);
    }
  }

  lemma KeyScanOfPiece(st: KeyState, p: Piece, rest: Text)
    requires Inside(st)
    ensures KeyScan(st, PieceText(p) + rest) == KeyScan(Read(st, [PieceUnit(p)]), rest)
  {
    match p
    case Raw(u) => assert ([u] + rest)[1..] == rest;
    case Short(e) =>
      assert ([BACKSLASH, e] + rest)[1..] == [e] + rest && ([e] + rest)[1..] == rest;
    case Hex(h) => KeyScanOfHex(st, h, rest);
  }

  lemma ReadTwice(st: KeyState, a: Text, b: Text)
    ensures Read(Read(st, a), b) == Read(st, a + b)
  {
    if st.readingKey && st.curKey.Some? {
      assert st.curKey.value + a + b == st.curKey.value + (a + b);
    }
  }

  lemma {:induction false} KeyScanOfPieces(st: KeyState, ps: seq<Piece>, rest: Text)
    requires Inside(st)
    ensures KeyScan(st, PiecesText(ps) + rest) == KeyScan(Read(st, Decoded(ps)), rest)
    decreases |ps|
  {
    if ps == [] {
      assert PiecesText(ps) + rest == rest;
      assert Read(st, []) == st by {
        if st.readingKey {
          assert st.curKey.value + [] == st.curKey.value;
        }
      }
    } else {
      var tail := PiecesText(ps[1..]) + rest;
      var next := Read(st, [PieceUnit(ps[0])]);
      assert PiecesText(ps) + rest == PieceText(ps[0]) + tail;
      KeyScanOfPiece(st, ps[0], tail);
      KeyScanOfPieces(next, ps[1..], rest);
      ReadTwice(st, [PieceUnit(ps[0])], Decoded(ps[1..]));
    }
  }

  /** A whole string: its text becomes the current key when one is expected. */
  lemma KeyScanOfString(st: KeyState, ps: seq<Piece>, rest: Text)
    requires !st.inStr && !st.esc && !st.readingKey
    ensures KeyScan(st, StringText(ps) + rest)
         == KeyScan(if st.expectKey then st.(curKey := Some(Decoded(ps))) else st, rest)
  {
    var inner := [QUOTE] + rest;
    assert (StringText(ps) + rest)[1..] == PiecesText(ps) + inner;
    var inside := Outside(st, QUOTE);
    KeyScanOfPieces(inside, ps, inner);
    assert inner[1..] == rest;
    if st.expectKey {
      assert [] + Decoded(ps) == Decoded(ps);
    }
  }

  /** Some key of the fields is already seen, or repeated, or some value repeats one. */
  predicate Clash(fs: Fields, seen: set<Text>)
    decreases fs
  {
    fs.Field? &&
    (Decoded(fs.key) in seen || HasDuplicate(fs.value) || Clash(fs.rest, seen + {Decoded(fs.key)}))
  }

  lemma {:induction false} ClashIsDuplicate(fs: Fields, seen: set<Text>)
    ensures Clash(fs, seen) <==>
            || !UniqueKeys(MembersOf(fs))
            || FieldsHaveDuplicate(fs)
            || exists m <- MembersOf(fs) :: m.key in seen
    decreases fs
  {
    if fs.Field? {
      var k := Decoded(fs.key);
      var head, rest := Member(k, ValueOf(fs.value)), MembersOf(fs.rest);
      ClashIsDuplicate(fs.rest, seen + {k});
      assert MembersOf(fs) == [head] + rest;
      UniqueKeysOfCons(head, rest);
      assert (exists m <- [head] + rest :: m.key in seen) <==> k in seen || exists m <- rest :: m.key in seen by {
        if k in seen {
          assert head in [head] + rest;
        }
        if m :| m in rest && m.key in seen {
          assert m in [head] + rest;
        }
      }
    }
  }

  lemma UniqueKeysOfCons(head: Member, rest: seq<Member>)
    ensures UniqueKeys([head] + rest) <==> UniqueKeys(rest) && forall m <- rest :: m.key != head.key
  {
    var all := [head] + rest;
    assert forall i :: 0 <= i < |rest| ==> all[i + 1] == rest[i];
    if UniqueKeys(all) {
      forall m <- rest ensures m.key != head.key {
        var i :| 0 <= i < |rest| && rest[i] == m;
        assert all[0].key != all[i + 1].key;
      }
      forall i, j | 0 <= i < j < |rest| ensures rest[i].key != rest[j].key {
        assert all[i + 1].key != all[j + 1].key;
      }
    }
  }

  lemma KeyScanOfUnit(st: KeyState, u: Unit, rest: Text)
    requires !st.inStr && !(u == COLON && Repeats(st))
    ensures KeyScan(st, [u] + rest) == KeyScan(Outside(st, u), rest)
  {
    assert ([u] + rest)[1..] == rest;
  }

  lemma {:induction false} KeyScanOfTree(st: KeyState, t: Tree, rest: Text)
    requires Idle(st)
    ensures KeyScan(st, TreeText(t) + rest) == (HasDuplicate(t) || KeyScan(st, rest))
    decreases t, 0
  {
    match t
    case TNull => InertSkips(st, NULL, rest);
    case TTrue => InertSkips(st, TRUE, rest);
    case TFalse => InertSkips(st, FALSE, rest);
    case TNum(n) => NumeralUnits(n); InertSkips(st, NumText(n), rest);
    case TStr(ps) => KeyScanOfString(st, ps, rest);
    case TArr(pad, es) => KeyScanOfArray(st, pad, es, rest);
    case TObj(pad, fs) => KeyScanOfObject(st, pad, fs, rest);
  }

  lemma {:induction false} KeyScanOfArray(st: KeyState, pad: Ws, es: Elems, rest: Text)
    requires Idle(st)
    ensures KeyScan(st, TreeText(TArr(pad, es)) + rest) == (ElemsHaveDuplicate(es) || KeyScan(st, rest))
    decreases es, 1
  {
    var inside := st.(seen := st.seen + [None]);
    KeyScanOfBracketed(st, LBRACKET, if es.NoElems? then pad else ElemsText(es), RBRACKET, rest);
    KeyScanOfUnit(inside, RBRACKET, rest);
    if es.NoElems? {
      InertSkips(inside, pad, [RBRACKET] + rest);
    } else {
      KeyScanOfElems(inside, es, [RBRACKET] + rest);
    }
  }

  lemma {:induction false} KeyScanOfObject(st: KeyState, pad: Ws, fs: Fields, rest: Text)
    requires Idle(st)
    ensures KeyScan(st, TreeText(TObj(pad, fs)) + rest) == (HasDuplicate(TObj(pad, fs)) || KeyScan(st, rest))
    decreases fs, 1
  {
    KeyScanOfBracketed(st, LBRACE, if fs.NoFields? then pad else FieldsText(fs), RBRACE, rest);
    ClashIsDuplicate(fs, {});
    if fs.NoFields? {
      InertSkips(AtField(st, {}), pad, [RBRACE] + rest);
      KeyScanOfUnit(AtField(st, {}), RBRACE, rest);
    } else {
      KeyScanOfFields(st, {}, fs, rest);
    }
  }

  lemma KeyScanOfBracketed(st: KeyState, open: Unit, body: Text, close: Unit, rest: Text)
    requires Idle(st) && open != COLON
    ensures KeyScan(st, [open] + body + [close] + rest) == KeyScan(Outside(st, open), body + ([close] + rest))
  {
    assert [open] + body + [close] + rest == [open] + (body + ([close] + rest));
    KeyScanOfUnit(st, open, body + ([close] + rest));
  }

  lemma {:induction false} KeyScanOfSlot(st: KeyState, before: Ws, t: Tree, after: Ws, tail: Text)
    requires Idle(st)
    ensures KeyScan(st, SlotText(before, t, after) + tail) == (HasDuplicate(t) || KeyScan(st, tail))
    decreases t, 1
  {
    assert SlotText(before, t, after) + tail == before + (TreeText(t) + (after + tail));
    InertSkips(st, before, TreeText(t) + (after + tail));
    KeyScanOfTree(st, t, after + tail);
    InertSkips(st, after, tail);
  }

  lemma {:induction false} KeyScanOfElems(st: KeyState, es: Elems, rest: Text)
    requires Idle(st) && st.seen != [] && st.seen[|st.seen| - 1] == None
    requires es.Elem?
    ensures KeyScan(st, ElemsText(es) + rest) == (ElemsHaveDuplicate(es) || KeyScan(st, rest))
    decreases es, 0
  {
    var tail := AfterElem(es, rest);
    ElemsTextIs(es, rest);
    KeyScanOfSlot(st, es.before, es.value, es.after, tail);
    if es.rest.Elem? {
      KeyScanOfUnit(st, COMMA, ElemsText(es.rest) + rest);
      KeyScanOfElems(st, es.rest, rest);
    }
  }

  /** Inside an object whose keys so far are known, a key is expected. */
  function AtField(st: KeyState, keys: set<Text>): KeyState {
    st.(seen := st.seen + [Some(keys)], expectKey := true)
  }

  lemma {:induction false} KeyScanOfFields(st: KeyState, keys: set<Text>, fs: Fields, rest: Text)
    requires Idle(st)
    requires fs.Field?
    ensures KeyScan(AtField(st, keys), FieldsText(fs) + ([RBRACE] + rest)) == (Clash(fs, keys) || KeyScan(st, rest))
    decreases fs, 0
  {
    var end := [RBRACE] + rest;
    var tail := AfterField(fs, end);
    FieldsTextIs(fs, end);
    KeyScanOfKey(st, keys, fs.before, fs.key, fs.beforeColon, SlotText(fs.afterColon, fs.value, fs.after) + tail);
    var keys' := keys + {Decoded(fs.key)};
    var next := AtValue(st, keys');
    KeyScanOfSlot(next, fs.afterColon, fs.value, fs.after, tail);
    KeyScanBehindField(st, keys', fs.rest, rest);
  }

  /** Behind a member: the brace that closes the object, or a comma and the next member. */
  lemma {:induction false} KeyScanBehindField(st: KeyState, keys: set<Text>, fs: Fields, rest: Text)
    requires Idle(st)
    ensures var end := [RBRACE] + rest;
            KeyScan(AtValue(st, keys), if fs.NoFields? then end else [COMMA] + (FieldsText(fs) + end)) == (Clash(fs, keys) || KeyScan(st, rest))
    decreases fs, 1
  {
    if fs.NoFields? {
      ObjectCloses(st, keys, rest);
    } else {
      KeyScanOfUnit(AtValue(st, keys), COMMA, FieldsText(fs) + ([RBRACE] + rest));
      KeyScanOfFields(st, keys, fs, rest);
    }
  }

  /** Inside an object whose keys so far are known, a value or its end is next. */
  function AtValue(st: KeyState, keys: set<Text>): KeyState {
    st.(seen := st.seen + [Some(keys)])
  }

  lemma ObjectCloses(st: KeyState, keys: set<Text>, rest: Text)
    requires Idle(st)
    ensures KeyScan(AtValue(st, keys), [RBRACE] + rest) == KeyScan(st, rest)
  {
    KeyScanOfUnit(AtValue(st, keys), RBRACE, rest);
  }

  lemma KeyScanOfKey(st: KeyState, keys: set<Text>, before: Ws, key: seq<Piece>, beforeColon: Ws, tail: Text)
    requires Idle(st)
    ensures KeyScan(AtField(st, keys), KeyText(before, key, beforeColon) + tail)
         == (Decoded(key) in keys || KeyScan(AtValue(st, keys + {Decoded(key)}), tail))
  {
    var at := AtField(st, keys);
    var read := at.(curKey := Some(Decoded(key)));
    assert KeyText(before, key, beforeColon) + tail
        == before + (StringText(key) + (beforeColon + ([COLON] + tail)));
    InertSkips(at, before, StringText(key) + (beforeColon + ([COLON] + tail)));
    KeyScanOfString(at, key, beforeColon + ([COLON] + tail));
    InertSkips(read, beforeColon, [COLON] + tail);
    assert ([COLON] + tail)[1..] == tail;
    assert Popped(read.seen) == st.seen;
  }

  /** On a valid text the scan reports exactly the repeated keys. */
  lemma KeyScanIsHasDuplicate(d: Document)
    ensures KeyScan(KEY_START, DocumentText(d)) == HasDuplicate(d.tree)
  {
    assert DocumentText(d) == DocumentText(d) + [];
    KeyScanOfSlot(KEY_START, d.before, d.tree, d.after, []);
  }
}
