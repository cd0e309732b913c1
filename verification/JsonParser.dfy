/**
 The strict recursive-descent parser: what it reads, as functions on the text that is
 left, and its agreement with the grammar in both directions.

 The Read functions take a text and give a value and what is left of the text. From the
 grammar to the parser, ReadsTree follows a derivation tree. From the parser to the
 grammar, TreeOf builds the tree along the text: what one Read function has passed over is
 a piece of the tree, and the pieces join. The object that advances a position over an
 array is tied to these functions in JsonReader.
 */
module JsonParser {
  import opened Wrappers
  import opened JsonText
  import opened JsonGrammar
  import opened JsonNesting
  import opened JsonSurrogates

  const MAX_DEPTH := 512

  datatype Parse<+T> = Bad | Good(value: T, rest: Text)

  /* ---------- what the parser reads ---------- */

  function SkipWs(s: Text): (r: Text)
    ensures |r| <= |s|
    ensures r != [] ==> !IsWs(r[0])
  {
    if s == [] || !IsWs(s[0]) then s else SkipWs(s[1..])
  }

  function DigitSpan(s: Text): (n: nat)
    ensures n <= |s| && AllDigits(s[..n])
    ensures n < |s| ==> !IsDigit(s[n])
  {
    if s == [] || !IsDigit(s[0]) then 0 else 1 + DigitSpan(s[1..])
  }

  function ReadLiteral(s: Text, word: Text, v: Value): Parse<Value> {
    if word <= s then Good(v, s[|word|..]) else Bad
  }

  function ReadNumber(s: Text): (r: Parse<Value>)
    ensures r.Good? ==> |r.rest| < |s|
  {
    var sign := if s != [] && s[0] == MINUS then 1 else 0;
    var d := s[sign..];
    if d == [] || !IsDigit(d[0]) then Bad
    else
      var n := sign + if d[0] == ZERO then 1 else DigitSpan(d);
      var lex, rest := s[..n], s[n..];
      assert lex[sign..] == d[..n - sign];
      if rest != [] && (rest[0] == DOT || rest[0] == LOWER_E || rest[0] == UPPER_E) then Bad
      else if !InRange(Normal(lex)) then Bad
      else Good(Num(Normal(lex)), rest)
  }

  /** The characters of a string after its opening quote, added to those already read. */
  function ReadChars(acc: Text, s: Text): (r: Parse<Text>)
    ensures r.Good? ==> |r.rest| < |s|
    decreases |s|
  {
    if s == [] then Bad
    else
      var c := s[0];
      if c == QUOTE then Good(acc, s[1..])
      else if c < 0x20 then Bad
      else if c != BACKSLASH then ReadChars(acc + [c], s[1..])
      else if |s| == 1 then Bad
      else if s[1] == LOWER_U then
        if |s| < 6 || !IsHex4(s[2..6]) then Bad else ReadChars(acc + [Hex4(s[2..6])], s[6..])
      else if IsShortEscape(s[1]) then ReadChars(acc + [ShortEscape(s[1])], s[2..])
      else Bad
  }

  function ReadString(s: Text): (r: Parse<Value>)
    requires s != []
    ensures r.Good? ==> |r.rest| < |s|
  {
    match ReadChars([], s[1..])
    case Bad => Bad
    case Good(text, rest) => Good(Str(text), rest)
  }

  function ReadValue(s: Text): (r: Parse<Value>)
    ensures r.Good? ==> |r.rest| < |s|
    decreases |s|, 1
  {
    if s == [] then Bad
    else if s[0] == LBRACE then
      var inner := SkipWs(s[1..]);
      if inner == [] then Bad
      else if inner[0] == RBRACE then Good(Obj([]), inner[1..])
      else ReadMembers([], inner)
    else if s[0] == LBRACKET then
      var inner := SkipWs(s[1..]);
      if inner == [] then Bad
      else if inner[0] == RBRACKET then Good(Arr([]), inner[1..])
      else ReadItems([], inner)
    else if s[0] == QUOTE then ReadString(s)
    else if s[0] == 't' as int then ReadLiteral(s, TRUE, Bool(true))
    else if s[0] == 'f' as int then ReadLiteral(s, FALSE, Bool(false))
    else if s[0] == 'n' as int then ReadLiteral(s, NULL, Null)
    else ReadNumber(s)
  }

  /** A key and its colon, with the white space around them. */
  function ReadKey(s: Text): (r: Parse<Text>)
    ensures r.Good? ==> |r.rest| < |s|
  {
    var s := SkipWs(s);
    if s == [] || s[0] != QUOTE then Bad
    else
      match ReadChars([], s[1..])
      case Bad => Bad
      case Good(key, afterKey) =>
        var colon := SkipWs(afterKey);
        if colon == [] || colon[0] != COLON then Bad else Good(key, SkipWs(colon[1..]))
  }

  /** One member and the brace or comma after it, with whether it was the last. */
  function ReadMember(s: Text): (r: Parse<(Member, bool)>)
    ensures r.Good? ==> |r.rest| < |s|
    decreases |s|, 2
  {
    match ReadKey(s)
    case Bad => Bad
    case Good(key, slot) =>
      match ReadValue(slot)
      case Bad => Bad
      case Good(v, afterValue) =>
        var next := SkipWs(afterValue);
        if next == [] || (next[0] != RBRACE && next[0] != COMMA) then Bad
        else Good((Member(key, v), next[0] == RBRACE), next[1..])
  }

  /** The members of an object after those already read, up to and with the closing brace. */
  function ReadMembers(acc: seq<Member>, s: Text): (r: Parse<Value>)
    ensures r.Good? ==> |r.rest| < |s|
    decreases |s|, 3
  {
    match ReadMember(s)
    case Bad => Bad
    case Good((m, last), rest) =>
      if HasKey(acc, m.key) then Bad
      else if last then Good(Obj(acc + [m]), rest)
      else ReadMembers(acc + [m], rest)
  }

  /** One item and the bracket or comma after it, with whether it was the last. */
  function ReadItem(s: Text): (r: Parse<(Value, bool)>)
    ensures r.Good? ==> |r.rest| < |s|
    decreases |s|, 2
  {
    match ReadValue(SkipWs(s))
    case Bad => Bad
    case Good(v, afterValue) =>
      var next := SkipWs(afterValue);
      if next == [] || (next[0] != RBRACKET && next[0] != COMMA) then Bad
      else Good((v, next[0] == RBRACKET), next[1..])
  }

  /** The items of an array after those already read, up to and with the closing bracket. */
  function ReadItems(acc: seq<Value>, s: Text): (r: Parse<Value>)
    ensures r.Good? ==> |r.rest| < |s|
    decreases |s|, 3
  {
    match ReadItem(s)
    case Bad => Bad
    case Good((v, last), rest) =>
      if last then Good(Arr(acc + [v]), rest) else ReadItems(acc + [v], rest)
  }

  /** A whole text: bounded nesting, no unpaired surrogate escape, one value between white space. */
  function ParseText(s: Text): Option<Value> {
    if DepthScan(s) > MAX_DEPTH || LoneScan(s) then None
    else
      match ReadValue(SkipWs(s))
      case Bad => None
      case Good(v, rest) => if SkipWs(rest) == [] then Some(v) else None
  }

  /* ---------- every tree is read as the grammar says ---------- */

  lemma {:induction false} SkipWsSkips(ws: Ws, rest: Text)
    ensures SkipWs(ws + rest) == SkipWs(rest)
    decreases |ws|
  {
    if ws == [] {
      assert ws + rest == rest;
    } else {
      assert (ws + rest)[1..] == ws[1..] + rest;
      SkipWsSkips(ws[1..], rest);
    }
  }

  lemma SkipWsStops(s: Text)
    requires s == [] || !IsWs(s[0])
    ensures SkipWs(s) == s
  {
  }

  lemma {:induction false} ReadsPieces(acc: Text, ps: seq<Piece>, rest: Text)
    ensures ReadChars(acc, PiecesText(ps) + [QUOTE] + rest) == Good(acc + Decoded(ps), rest)
    decreases |ps|
  {
    if ps == [] {
      assert PiecesText(ps) + [QUOTE] + rest == [QUOTE] + rest;
      assert acc + [] == acc;
    } else {
      FirstPiece(ps, acc, [QUOTE] + rest);
      Assoc(PiecesText(ps), [QUOTE], rest);
      Assoc(PiecesText(ps[1..]), [QUOTE], rest);
      ReadsPiece(acc, ps[0], PiecesText(ps[1..]) + ([QUOTE] + rest));
      ReadsPieces(acc + [PieceUnit(ps[0])], ps[1..], rest);
    }
  }

  lemma FirstPiece(ps: seq<Piece>, acc: Text, tail: Text)
    requires ps != []
    ensures PiecesText(ps) + tail == PieceText(ps[0]) + (PiecesText(ps[1..]) + tail)
    ensures acc + [PieceUnit(ps[0])] + Decoded(ps[1..]) == acc + Decoded(ps)
  {
    Assoc(PieceText(ps[0]), PiecesText(ps[1..]), tail);
    Assoc(acc, [PieceUnit(ps[0])], Decoded(ps[1..]));
  }

  lemma ReadsPiece(acc: Text, p: Piece, tail: Text)
    ensures ReadChars(acc, PieceText(p) + tail) == ReadChars(acc + [PieceUnit(p)], tail)
  {
    var s := PieceText(p) + tail;
    match p
    case Raw(u) => assert s[1..] == tail;
    case Short(e) => assert s[2..] == tail;
    case Hex(h) => assert s[2..6] == h && s[6..] == tail;
  }

  lemma {:induction false} DigitSpanOf(d: Text, rest: Text)
    requires AllDigits(d) && (rest == [] || !IsDigit(rest[0]))
    ensures DigitSpan(d + rest) == |d|
    decreases |d|
  {
    if d == [] {
      assert d + rest == rest;
    } else {
      assert (d + rest)[1..] == d[1..] + rest;
      DigitSpanOf(d[1..], rest);
    }
  }

  lemma NormalKeepsValue(s: Text)
    requires IsIntLexeme(s)
    ensures IsIntLexeme(Normal(s)) && IntValue(Normal(s)) == IntValue(s)
  {
    if s == [MINUS, ZERO] {
      assert s[1..] == [ZERO];
      assert [ZERO][..0] == [];
      assert DigitsValue([ZERO]) == 0;
    }
  }

  lemma NumeralSplits(n: Numeral, rest: Text)
    requires NumberEnds(rest)
    ensures var sign, tail := if n.whole[0] == MINUS then 1 else 0, n.fraction + n.exponent + rest;
            && NumText(n) + rest == n.whole + tail
            && (NumText(n) + rest)[sign..] == n.whole[sign..] + tail
            && (tail == [] || !IsDigit(tail[0]))
            && (n.fraction == [] && n.exponent == [] ==> tail == rest && NumText(n) == n.whole)
            && (n.fraction != [] || n.exponent != [] ==>
                tail != [] && (tail[0] == DOT || tail[0] == LOWER_E || tail[0] == UPPER_E))
  {
    FourJoin(n.whole, n.fraction, n.exponent, rest);
    JoinFrom(n.whole, n.fraction + n.exponent + rest, if n.whole[0] == MINUS then 1 else 0);
    TailStarts(n, rest);
  }

  lemma FourJoin(a: Text, b: Text, c: Text, d: Text)
    ensures a + b + c + d == a + (b + c + d)
  {
  }

  lemma JoinFrom(a: Text, b: Text, k: nat)
    requires k <= |a|
    ensures (a + b)[k..] == a[k..] + b
  {
  }

  /** What stands behind the digits of a number. */
  lemma TailStarts(n: Numeral, rest: Text)
    ensures var tail := n.fraction + n.exponent + rest;
            if n.fraction != [] then tail != [] && tail[0] == DOT
            else if n.exponent != [] then tail != [] && (tail[0] == LOWER_E || tail[0] == UPPER_E)
            else tail == rest && NumText(n) == n.whole
  {
    var tail := n.fraction + n.exponent + rest;
    if n.fraction != [] {
      assert tail[0] == n.fraction[0];
    } else if n.exponent != [] {
      assert tail[0] == n.exponent[0];
    }
  }

  lemma ReadsNumeral(n: Numeral, rest: Text)
    requires NumberEnds(rest)
    ensures ReadNumber(NumText(n) + rest)
         == if n.fraction == [] && n.exponent == [] && InRange(n.whole) then Good(Num(Normal(NumText(n))), rest) else Bad
  {
    var tail, w := n.fraction + n.exponent + rest, n.whole;
    NumeralSplits(n, rest);
    ReadsLexeme(w, tail);
    NormalKeepsValue(w);
  }

  /** A whole number is read up to what is no digit; a point or an exponent behind it is refused. */
  lemma ReadsLexeme(w: Text, tail: Text)
    requires IsIntLexeme(w) && (tail == [] || !IsDigit(tail[0]))
    ensures ReadNumber(w + tail)
         == if tail != [] && (tail[0] == DOT || tail[0] == LOWER_E || tail[0] == UPPER_E) then Bad
            else if IsIntLexeme(Normal(w)) && InRange(Normal(w)) then Good(Num(Normal(w)), tail)
            else Bad
  {
    var sign := if w[0] == MINUS then 1 else 0;
    NormalKeepsValue(w);
    ReadsWhole(w, sign, tail);
    assert (w + tail)[0] == w[0];
  }

  lemma ReadsWhole(w: Text, sign: nat, tail: Text)
    requires IsIntLexeme(w) && sign == if w[0] == MINUS then 1 else 0
    requires tail == [] || !IsDigit(tail[0])
    ensures var s := w + tail;
            var d := s[sign..];
            && d != [] && IsDigit(d[0])
            && sign + (if d[0] == ZERO then 1 else DigitSpan(d)) == |w|
            && s[..|w|] == w && s[|w|..] == tail
  {
    assert (w + tail)[sign..] == w[sign..] + tail;
    DigitSpanOf(w[sign..], tail);
  }

  /** The first unit of a value's text is no white space and names its kind. */
  lemma TreeStarts(t: Tree)
    ensures TreeText(t) != [] && !IsWs(TreeText(t)[0])
    ensures TreeText(t)[0] != RBRACKET
    ensures t.TNum? ==> IsDigit(TreeText(t)[0]) || TreeText(t)[0] == MINUS
  {
  }

  lemma WsThenNumberEnds(after: Ws, tail: Text)
    requires NumberEnds(tail)
    ensures NumberEnds(after + tail)
  {
    if after == [] {
      assert after + tail == tail;
    } else {
      assert IsWs((after + tail)[0]);
    }
  }

  predicate ElemsPlain(es: Elems) {
    !ElemsHaveFloat(es) && !ElemsHaveWideInt(es) && !ElemsHaveDuplicate(es)
  }

  predicate FieldsPlain(fs: Fields) {
    !FieldsHaveFloat(fs) && !FieldsHaveWideInt(fs) && !FieldsHaveDuplicate(fs)
  }

  /** A value's text is read back as its value, or refused when it lies outside the profile. */
  lemma {:induction false} ReadsTree(t: Tree, rest: Text)
    requires NumberEnds(rest)
    ensures ReadValue(TreeText(t) + rest) == if Plain(t) then Good(ValueOf(t), rest) else Bad
    decreases t, 0
  {
    match t
    case TNull => ReadsWord(NULL, rest);
    case TTrue => ReadsWord(TRUE, rest);
    case TFalse => ReadsWord(FALSE, rest);
    case TNum(n) => ReadsNumber(n, rest);
    case TStr(ps) => ReadsString(ps, rest);
    case TArr(pad, es) => ReadsArray(pad, es, rest);
    case TObj(pad, fs) => ReadsObject(pad, fs, rest);
  }

  lemma ReadsWord(word: Text, rest: Text)
    ensures word <= word + rest && (word + rest)[|word|..] == rest
  {
  }

  lemma ReadsNumber(n: Numeral, rest: Text)
    requires NumberEnds(rest)
    ensures ReadValue(NumText(n) + rest) == if Plain(TNum(n)) then Good(ValueOf(TNum(n)), rest) else Bad
  {
    TreeStarts(TNum(n));
    ReadsNumeral(n, rest);
  }

  lemma ReadsString(ps: seq<Piece>, rest: Text)
    ensures ReadValue(StringText(ps) + rest) == Good(Str(Decoded(ps)), rest)
  {
    assert (StringText(ps) + rest)[1..] == PiecesText(ps) + [QUOTE] + rest;
    ReadsPieces([], ps, rest);
    assert [] + Decoded(ps) == Decoded(ps);
  }

  lemma {:induction false} ReadsArray(pad: Ws, es: Elems, rest: Text)
    ensures ReadValue(TreeText(TArr(pad, es)) + rest)
         == if ElemsPlain(es) then Good(Arr(ItemsOf(es)), rest) else Bad
    decreases es, 2
  {
    var s := TreeText(TArr(pad, es)) + rest;
    var tail := [RBRACKET] + rest;
    if es.NoElems? {
      assert s[1..] == pad + tail;
      SkipWsSkips(pad, tail);
      assert tail[1..] == rest;
    } else {
      var body := ElemsText(es) + tail;
      assert s[1..] == body;
      ElemsStart(es, tail);
      ReadsElems([], es, rest);
      ItemsIgnoreWs([], body);
      assert [] + ItemsOf(es) == ItemsOf(es);
    }
  }

  lemma ItemsIgnoreWs(acc: seq<Value>, s: Text)
    ensures ReadItems(acc, SkipWs(s)) == ReadItems(acc, s)
  {
    SkipWsStops(SkipWs(s));
    assert ReadItem(SkipWs(s)) == ReadItem(s);
  }

  lemma MembersIgnoreWs(acc: seq<Member>, s: Text)
    ensures ReadMembers(acc, SkipWs(s)) == ReadMembers(acc, s)
  {
    SkipWsStops(SkipWs(s));
    assert ReadKey(SkipWs(s)) == ReadKey(s);
    assert ReadMember(SkipWs(s)) == ReadMember(s);
  }

  lemma ElemsStart(es: Elems, tail: Text)
    requires es.Elem?
    ensures SkipWs(ElemsText(es) + tail) != [] && SkipWs(ElemsText(es) + tail)[0] != RBRACKET
  {
    var more := es.after + AfterElem(es, tail);
    ElemsTextIs(es, tail);
    SlotGoesOn(es.before, es.value, es.after, AfterElem(es, tail));
    SkipWsSkips(es.before, TreeText(es.value) + more);
    TreeStarts(es.value);
    SkipWsStops(TreeText(es.value) + more);
  }

  lemma SlotGoesOn(before: Ws, t: Tree, after: Ws, tail: Text)
    ensures SlotText(before, t, after) + tail == before + (TreeText(t) + (after + tail))
  {
    var text := TreeText(t);
    Assoc(before + text, after, tail);
    Assoc(before, text, after + tail);
  }

  /** A value between white space, and what follows it. */
  lemma {:induction false} ReadsSlot(before: Ws, t: Tree, after: Ws, tail: Text)
    requires tail != [] && !IsNumberUnit(tail[0]) && !IsWs(tail[0])
    ensures var r := ReadValue(SkipWs(SlotText(before, t, after) + tail));
            if Plain(t) then r.Good? && r.value == ValueOf(t) && SkipWs(r.rest) == tail else r == Bad
    decreases t, 1
  {
    var s := TreeText(t) + (after + tail);
    assert SlotText(before, t, after) + tail == before + s;
    SkipWsSkips(before, s);
    TreeStarts(t);
    SkipWsStops(s);
    WsThenNumberEnds(after, tail);
    ReadsTree(t, after + tail);
    SkipWsSkips(after, tail);
    SkipWsStops(tail);
  }

  lemma ReadsOneItem(acc: seq<Value>, s: Text, t: Tree, tail: Text)
    requires tail != []
    requires var r := ReadValue(SkipWs(s));
             if Plain(t) then r.Good? && r.value == ValueOf(t) && SkipWs(r.rest) == tail else r == Bad
    ensures ReadItems(acc, s)
         == if !Plain(t) then Bad
            else if tail[0] == RBRACKET then Good(Arr(acc + [ValueOf(t)]), tail[1..])
            else if tail[0] == COMMA then ReadItems(acc + [ValueOf(t)], tail[1..])
            else Bad
  {
  }

  lemma {:induction false} ReadsElems(acc: seq<Value>, es: Elems, rest: Text)
    requires es.Elem?
    ensures ReadItems(acc, ElemsText(es) + ([RBRACKET] + rest))
         == if ElemsPlain(es) then Good(Arr(acc + ItemsOf(es)), rest) else Bad
    decreases es, 0
  {
    var end, v := [RBRACKET] + rest, ValueOf(es.value);
    var tail := AfterElem(es, end);
    ElemsTextIs(es, end);
    ReadsSlot(es.before, es.value, es.after, tail);
    ReadsOneItem(acc, ElemsText(es) + end, es.value, tail);
    assert ElemsPlain(es) <==> Plain(es.value) && ElemsPlain(es.rest);
    if es.rest.NoElems? {
      assert end[1..] == rest;
      assert ItemsOf(es) == [v];
    } else {
      assert tail[1..] == ElemsText(es.rest) + end;
      ReadsElems(acc + [v], es.rest, rest);
      assert acc + [v] + ItemsOf(es.rest) == acc + ItemsOf(es);
    }
  }

  lemma {:induction false} ReadsObject(pad: Ws, fs: Fields, rest: Text)
    ensures ReadValue(TreeText(TObj(pad, fs)) + rest)
         == if FieldsPlain(fs) && UniqueKeys(MembersOf(fs)) then Good(Obj(MembersOf(fs)), rest) else Bad
    decreases fs, 2
  {
    var s := TreeText(TObj(pad, fs)) + rest;
    var tail := [RBRACE] + rest;
    if fs.NoFields? {
      assert s[1..] == pad + tail;
      SkipWsSkips(pad, tail);
      assert tail[1..] == rest;
    } else {
      var body := FieldsText(fs) + tail;
      assert s[1..] == body;
      FieldsStart(fs, tail);
      ReadsFields([], fs, rest);
      MembersIgnoreWs([], body);
      assert [] + MembersOf(fs) == MembersOf(fs);
    }
  }

  lemma FieldsStart(fs: Fields, tail: Text)
    requires fs.Field?
    ensures SkipWs(FieldsText(fs) + tail) != [] && SkipWs(FieldsText(fs) + tail)[0] == QUOTE
  {
    var slot := SlotText(fs.afterColon, fs.value, fs.after) + AfterField(fs, tail);
    FieldsTextIs(fs, tail);
    ReadsKey(fs.before, fs.key, fs.beforeColon, slot);
  }

  lemma ReadsKey(before: Ws, key: seq<Piece>, beforeColon: Ws, tail: Text)
    ensures SkipWs(KeyText(before, key, beforeColon) + tail) != []
    ensures SkipWs(KeyText(before, key, beforeColon) + tail)[0] == QUOTE
    ensures ReadKey(KeyText(before, key, beforeColon) + tail) == Good(Decoded(key), SkipWs(tail))
  {
    var colon := [COLON] + tail;
    var chars := PiecesText(key) + [QUOTE] + (beforeColon + colon);
    KeyTextIs(before, key, beforeColon, tail);
    SkipWsSkips(before, [QUOTE] + chars);
    SkipWsStops([QUOTE] + chars);
    ReadsPieces([], key, beforeColon + colon);
    assert [] + Decoded(key) == Decoded(key);
    SkipWsSkips(beforeColon, colon);
    SkipWsStops(colon);
    KeyIsRead(KeyText(before, key, beforeColon) + tail, chars, Decoded(key), beforeColon + colon, tail);
  }

  /** A key from its parts: the quoted characters, and the colon behind them. */
  lemma KeyIsRead(s: Text, chars: Text, key: Text, after: Text, tail: Text)
    requires SkipWs(s) == [QUOTE] + chars && ReadChars([], chars) == Good(key, after)
    requires SkipWs(after) == [COLON] + tail
    ensures ReadKey(s) == Good(key, SkipWs(tail))
  {
    assert ([QUOTE] + chars)[1..] == chars && ([COLON] + tail)[1..] == tail;
  }

  lemma KeyTextIs(before: Ws, key: seq<Piece>, beforeColon: Ws, tail: Text)
    ensures KeyText(before, key, beforeColon) + tail
         == before + ([QUOTE] + (PiecesText(key) + [QUOTE] + (beforeColon + ([COLON] + tail))))
  {
    var k := StringText(key);
    var colon := [COLON] + tail;
    Assoc(before + k + beforeColon, [COLON], tail);
    Assoc(before + k, beforeColon, colon);
    Assoc(before, k, beforeColon + colon);
    Assoc([QUOTE] + PiecesText(key), [QUOTE], beforeColon + colon);
    Assoc([QUOTE], PiecesText(key), [QUOTE] + (beforeColon + colon));
    Assoc(PiecesText(key), [QUOTE], beforeColon + colon);
  }

  lemma KeysOfAppend(acc: seq<Member>, m: Member, rest: seq<Member>)
    requires UniqueKeys(acc)
    ensures UniqueKeys(acc + [m]) <==> !HasKey(acc, m.key)
    ensures UniqueKeys(acc + ([m] + rest)) ==> UniqueKeys(acc + [m])
    ensures acc + ([m] + rest) == acc + [m] + rest
  {
    var all := acc + ([m] + rest);
    var some := acc + [m];
    assert forall i :: 0 <= i < |some| ==> some[i] == all[i];
    assert some[|acc|] == m;
    if HasKey(acc, m.key) {
      var i :| 0 <= i < |acc| && acc[i].key == m.key;
      assert some[i].key == some[|acc|].key;
    }
  }

  /** One member read by the loop, up to the comma or the brace that follows it. */
  lemma ReadsOneMember(acc: seq<Member>, fs: Fields, tail: Text)
    requires fs.Field?
    requires tail != [] && !IsNumberUnit(tail[0]) && !IsWs(tail[0])
    ensures var s := KeyText(fs.before, fs.key, fs.beforeColon) + (SlotText(fs.afterColon, fs.value, fs.after) + tail);
            var m := Member(Decoded(fs.key), ValueOf(fs.value));
            ReadMembers(acc, s) == (
              if !Plain(fs.value) || HasKey(acc, m.key) then Bad
              else if tail[0] == RBRACE then Good(Obj(acc + [m]), tail[1..])
              else if tail[0] == COMMA then ReadMembers(acc + [m], tail[1..])
              else Bad)
    decreases fs, 0
  {
    var slot := SlotText(fs.afterColon, fs.value, fs.after) + tail;
    ReadsKey(fs.before, fs.key, fs.beforeColon, slot);
    ReadsSlot(fs.afterColon, fs.value, fs.after, tail);
  }

  lemma {:induction false} ReadsFields(acc: seq<Member>, fs: Fields, rest: Text)
    requires fs.Field? && UniqueKeys(acc)
    ensures ReadMembers(acc, FieldsText(fs) + ([RBRACE] + rest))
         == if FieldsPlain(fs) && UniqueKeys(acc + MembersOf(fs)) then Good(Obj(acc + MembersOf(fs)), rest) else Bad
    decreases fs, 1
  {
    var end := [RBRACE] + rest;
    var tail := AfterField(fs, end);
    FieldsTextIs(fs, end);
    ReadsOneMember(acc, fs, tail);
    var m := Member(Decoded(fs.key), ValueOf(fs.value));
    KeysOfAppend(acc, m, MembersOf(fs.rest));
    assert FieldsPlain(fs) <==> Plain(fs.value) && FieldsPlain(fs.rest);
    if fs.rest.NoFields? {
      assert end[1..] == rest;
      assert MembersOf(fs) == [m];
    } else {
      assert tail[1..] == FieldsText(fs.rest) + end;
      assert MembersOf(fs) == [m] + MembersOf(fs.rest);
      if !HasKey(acc, m.key) {
        ReadsFields(acc + [m], fs.rest, rest);
      }
    }
  }

  /* ---------- whatever is read has a tree ---------- */

  lemma {:induction false} SkippedWs(s: Text) returns (ws: Ws)
    ensures s == ws + SkipWs(s)
  {
    if s == [] || !IsWs(s[0]) {
      ws := [];
    } else {
      var more := SkippedWs(s[1..]);
      ws := [s[0]] + more;
    }
  }

  /** The piece at the front of a string's text, once the string is known to be read. */
  lemma PieceAt(acc: Text, s: Text) returns (p: Piece)
    requires ReadChars(acc, s).Good? && s[0] != QUOTE
    ensures |PieceText(p)| <= |s| && s == PieceText(p) + s[|PieceText(p)|..]
    ensures ReadChars(acc, s) == ReadChars(acc + [PieceUnit(p)], s[|PieceText(p)|..])
  {
    if s[0] != BACKSLASH {
      p := Raw(s[0]);
    } else if s[1] == LOWER_U {
      p := Hex(s[2..6]);
    } else {
      p := Short(s[1]);
    }
  }

  lemma {:induction false} PiecesOf(acc: Text, s: Text) returns (ps: seq<Piece>)
    requires ReadChars(acc, s).Good?
    ensures s == PiecesText(ps) + [QUOTE] + ReadChars(acc, s).rest
    ensures ReadChars(acc, s).value == acc + Decoded(ps)
    decreases |s|
  {
    if s[0] == QUOTE {
      ps := [];
      assert s == [QUOTE] + s[1..];
    } else {
      var p := PieceAt(acc, s);
      var more := PiecesOf(acc + [PieceUnit(p)], s[|PieceText(p)|..]);
      ps := [p] + more;
      PiecesJoin(acc, p, more);
      var rest := ReadChars(acc, s).rest;
      Assoc(PieceText(p), PiecesText(more) + [QUOTE], rest);
      Assoc(PieceText(p), PiecesText(more), [QUOTE]);
    }
  }

  lemma PiecesJoin(acc: Text, p: Piece, more: seq<Piece>)
    ensures PiecesText([p] + more) == PieceText(p) + PiecesText(more)
    ensures acc + [PieceUnit(p)] + Decoded(more) == acc + Decoded([p] + more)
  {
    assert ([p] + more)[1..] == more;
  }

  /** What a successful read of a number passes through. */
  lemma NumberRead(s: Text) returns (lex: Text)
    requires ReadNumber(s).Good?
    ensures IsIntLexeme(lex) && InRange(Normal(lex)) && s == lex + ReadNumber(s).rest
    ensures ReadNumber(s).value == Num(Normal(lex))
  {
    var sign := if s[0] == MINUS then 1 else 0;
    var d := s[sign..];
    var n := sign + if d[0] == ZERO then 1 else DigitSpan(d);
    lex := s[..n];
    LexemeAt(s, sign, n);
  }

  lemma LexemeAt(s: Text, sign: nat, n: nat)
    requires s != [] && sign == (if s[0] == MINUS then 1 else 0) && sign < n <= |s|
    requires n - sign == (if s[sign] == ZERO then 1 else DigitSpan(s[sign..])) && IsDigit(s[sign])
    ensures IsIntLexeme(s[..n])
  {
    var d := s[sign..];
    assert s[..n][sign..] == d[..n - sign];
    assert d[0] == s[sign] && s[..n][0] == s[0];
  }

  lemma NumeralOf(s: Text) returns (n: Numeral)
    requires ReadNumber(s).Good?
    ensures Plain(TNum(n)) && ReadNumber(s).value == ValueOf(TNum(n))
    ensures s == NumText(n) + ReadNumber(s).rest
  {
    var lex := NumberRead(s);
    n := Number(lex, [], []);
    assert NumText(n) == lex;
    NormalKeepsValue(lex);
  }

  lemma WordOf(s: Text, word: Text, v: Value)
    requires ReadLiteral(s, word, v).Good?
    ensures s == word + ReadLiteral(s, word, v).rest
  {
  }

  lemma {:induction false} TreeOf(s: Text) returns (t: Tree)
    requires ReadValue(s).Good?
    ensures Plain(t) && ReadValue(s) == Good(ValueOf(t), ReadValue(s).rest) && s == TreeText(t) + ReadValue(s).rest
    decreases |s|, 1
  {
    if s[0] == LBRACE {
      t := ObjectOf(s);
    } else if s[0] == LBRACKET {
      t := ArrayOf(s);
    } else {
      t := ScalarOf(s);
    }
  }

  lemma StringOf(s: Text) returns (t: Tree)
    requires s != [] && s[0] == QUOTE && ReadString(s).Good?
    ensures Plain(t) && ReadString(s) == Good(ValueOf(t), ReadString(s).rest) && s == TreeText(t) + ReadString(s).rest
  {
    var ps := PiecesOf([], s[1..]);
    t := TStr(ps);
    assert [] + Decoded(ps) == Decoded(ps);
    assert s == [QUOTE] + s[1..];
    QuotedJoin(PiecesText(ps), ReadChars([], s[1..]).rest);
  }

  lemma QuotedJoin(t: Text, rest: Text)
    ensures [QUOTE] + (t + [QUOTE] + rest) == [QUOTE] + t + [QUOTE] + rest
  {
  }

  lemma LiteralOf(s: Text) returns (t: Tree)
    requires s != [] && (s[0] == 't' as int || s[0] == 'f' as int || s[0] == 'n' as int) && ReadValue(s).Good?
    ensures Plain(t) && ReadValue(s) == Good(ValueOf(t), ReadValue(s).rest) && s == TreeText(t) + ReadValue(s).rest
  {
    if s[0] == 't' as int {
      WordOf(s, TRUE, Bool(true));
      t := TTrue;
    } else if s[0] == 'f' as int {
      WordOf(s, FALSE, Bool(false));
      t := TFalse;
    } else {
      WordOf(s, NULL, Null);
      t := TNull;
    }
  }

  lemma ScalarOf(s: Text) returns (t: Tree)
    requires ReadValue(s).Good? && s[0] != LBRACE && s[0] != LBRACKET
    ensures Plain(t) && ReadValue(s) == Good(ValueOf(t), ReadValue(s).rest) && s == TreeText(t) + ReadValue(s).rest
  {
    if s[0] == QUOTE {
      t := StringOf(s);
    } else if s[0] == 't' as int || s[0] == 'f' as int || s[0] == 'n' as int {
      t := LiteralOf(s);
    } else {
      var n := NumeralOf(s);
      t := TNum(n);
    }
  }

  /** What a successful read of an array passes through. */
  lemma ArrayRead(s: Text)
    requires s != [] && s[0] == LBRACKET && ReadValue(s).Good?
    ensures var inner := SkipWs(s[1..]);
            && inner != []
            && ReadValue(s) == if inner[0] == RBRACKET then Good(Arr([]), inner[1..]) else ReadItems([], inner)
  {
  }

  lemma ObjectRead(s: Text)
    requires s != [] && s[0] == LBRACE && ReadValue(s).Good?
    ensures var inner := SkipWs(s[1..]);
            && inner != []
            && ReadValue(s) == if inner[0] == RBRACE then Good(Obj([]), inner[1..]) else ReadMembers([], inner)
  {
  }

  lemma Joined(s: Text, open: Unit, ws: Text, inner: Text, body: Text, close: Unit, rest: Text)
    requires s != [] && s[0] == open && s[1..] == ws + inner
    requires inner == body + ([close] + rest) || (body == [] && inner != [] && inner[0] == close && inner[1..] == rest)
    ensures s == [open] + (ws + body) + [close] + rest
    ensures body == [] ==> s == [open] + ws + [close] + rest
  {
    assert s == [open] + s[1..];
    assert inner == body + ([close] + rest);
    if body == [] {
      assert ws + body == ws;
    }
  }

  lemma {:induction false} ArrayOf(s: Text) returns (t: Tree)
    requires s != [] && s[0] == LBRACKET && ReadValue(s).Good?
    ensures Plain(t) && ReadValue(s) == Good(ValueOf(t), ReadValue(s).rest) && s == TreeText(t) + ReadValue(s).rest
    decreases |s|, 0
  {
    ArrayRead(s);
    var rest := ReadValue(s).rest;
    var ws := SkippedWs(s[1..]);
    var inner := SkipWs(s[1..]);
    if inner[0] == RBRACKET {
      t := TArr(ws, NoElems);
      Joined(s, LBRACKET, ws, inner, [], RBRACKET, rest);
    } else {
      var es := ElemsOf([], inner);
      t := WrappedArray(ws, es);
      Joined(s, LBRACKET, ws, inner, ElemsText(es), RBRACKET, rest);
      assert [] + ItemsOf(es) == ItemsOf(es);
    }
  }

  /** Items behind white space, as an array. */
  lemma WrappedArray(ws: Ws, es: Elems) returns (t: Tree)
    requires es.Elem? && ElemsPlain(es)
    ensures Plain(t) && ValueOf(t) == Arr(ItemsOf(es))
    ensures TreeText(t) == [LBRACKET] + (ws + ElemsText(es)) + [RBRACKET]
  {
    var es' := es.(before := ws + es.before);
    PaddedElems(ws, es);
    t := TArr([], es');
  }

  lemma PaddedElems(ws: Ws, es: Elems)
    requires es.Elem?
    ensures ElemsText(es.(before := ws + es.before)) == ws + ElemsText(es)
  {
    SlotGoesOn(es.before, es.value, es.after, []);
    ElemsTextIs(es, []);
    ElemsTextIs(es.(before := ws + es.before), []);
    Unpadded(ws, es.before, TreeText(es.value), es.after, AfterElem(es, []));
    assert ElemsText(es) + [] == ElemsText(es);
    assert ElemsText(es.(before := ws + es.before)) + [] == ElemsText(es.(before := ws + es.before));
  }

  lemma Unpadded(ws: Text, before: Text, t: Text, after: Text, tail: Text)
    ensures ((ws + before) + t + after) + tail == ws + ((before + t + after) + tail)
  {
  }

  /** What a successful read of an item passes through. */
  lemma ItemsRead(acc: seq<Value>, s: Text)
    requires ReadItems(acc, s).Good?
    ensures var r := ReadValue(SkipWs(s));
            && r.Good?
            && var next := SkipWs(r.rest);
            && next != []
            && (next[0] == RBRACKET || next[0] == COMMA)
            && ReadItems(acc, s) == if next[0] == RBRACKET then Good(Arr(acc + [r.value]), next[1..])
                                    else ReadItems(acc + [r.value], next[1..])
  {
  }

  /** A value's text between white space, put together from its parts. */
  lemma SlotJoins(s: Text, before: Ws, t: Tree, after: Ws, value: Text, next: Text)
    requires s == before + value && value == TreeText(t) + (after + next)
    ensures s == SlotText(before, t, after) + next
  {
    Assoc(before, TreeText(t), after + next);
    Assoc(before + TreeText(t), after, next);
  }

  /** The first item an array reads, and what is left after it. */
  lemma {:induction false} FirstItemOf(acc: seq<Value>, s: Text) returns (before: Ws, t: Tree, after: Ws, next: Text)
    requires ReadItems(acc, s).Good?
    ensures Plain(t) && s == SlotText(before, t, after) + next && 0 < |next| <= |s|
    ensures next[0] == RBRACKET || next[0] == COMMA
    ensures ReadItems(acc, s) == if next[0] == RBRACKET then Good(Arr(acc + [ValueOf(t)]), next[1..])
                                 else ReadItems(acc + [ValueOf(t)], next[1..])
    decreases |s|, 3
  {
    ItemsRead(acc, s);
    before := SkippedWs(s);
    var value := SkipWs(s);
    t := TreeOf(value);
    after := SkippedWs(ReadValue(value).rest);
    next := SkipWs(ReadValue(value).rest);
    SlotJoins(s, before, t, after, value, next);
  }

  lemma {:induction false} ElemsOf(acc: seq<Value>, s: Text) returns (es: Elems)
    requires ReadItems(acc, s).Good?
    ensures es.Elem? && ElemsPlain(es)
    ensures ReadItems(acc, s) == Good(Arr(acc + ItemsOf(es)), ReadItems(acc, s).rest)
    ensures s == ElemsText(es) + ([RBRACKET] + ReadItems(acc, s).rest)
    decreases |s|, 4
  {
    var end := [RBRACKET] + ReadItems(acc, s).rest;
    var before, t, after, next := FirstItemOf(acc, s);
    es := Elem(before, t, after, NoElems);
    if next[0] == COMMA {
      var more := ElemsOf(acc + [ValueOf(t)], next[1..]);
      es := es.(rest := more);
      assert next == [COMMA] + next[1..];
    } else {
      assert next == end;
    }
    ItemsJoin(acc, es);
    ElemsEnd(es, next, end);
  }

  lemma ElemsEnd(es: Elems, next: Text, end: Text)
    requires es.Elem? && next == if es.rest.Elem? then [COMMA] + (ElemsText(es.rest) + end) else end
    ensures ElemsText(es) + end == SlotText(es.before, es.value, es.after) + next
  {
    ElemsTextIs(es, end);
  }

  lemma ItemsJoin(acc: seq<Value>, es: Elems)
    requires es.Elem?
    ensures acc + ItemsOf(es) == acc + [ValueOf(es.value)] + ItemsOf(es.rest)
    ensures es.rest.NoElems? ==> acc + ItemsOf(es) == acc + [ValueOf(es.value)]
    ensures ElemsPlain(es) <==> Plain(es.value) && ElemsPlain(es.rest)
  {
  }

  lemma {:induction false} ObjectOf(s: Text) returns (t: Tree)
    requires s != [] && s[0] == LBRACE && ReadValue(s).Good?
    ensures Plain(t) && ReadValue(s) == Good(ValueOf(t), ReadValue(s).rest) && s == TreeText(t) + ReadValue(s).rest
    decreases |s|, 0
  {
    ObjectRead(s);
    var rest := ReadValue(s).rest;
    var ws := SkippedWs(s[1..]);
    var inner := SkipWs(s[1..]);
    if inner[0] == RBRACE {
      t := TObj(ws, NoFields);
      Joined(s, LBRACE, ws, inner, [], RBRACE, rest);
    } else {
      var fs := FieldsOf([], inner);
      assert [] + MembersOf(fs) == MembersOf(fs);
      t := WrappedObject(ws, fs);
      Joined(s, LBRACE, ws, inner, FieldsText(fs), RBRACE, rest);
    }
  }

  /** Members behind white space, as an object. */
  lemma WrappedObject(ws: Ws, fs: Fields) returns (t: Tree)
    requires fs.Field? && FieldsPlain(fs) && UniqueKeys(MembersOf(fs))
    ensures Plain(t) && ValueOf(t) == Obj(MembersOf(fs))
    ensures TreeText(t) == [LBRACE] + (ws + FieldsText(fs)) + [RBRACE]
  {
    var fs' := fs.(before := ws + fs.before);
    PaddedFields(ws, fs);
    assert MembersOf(fs') == MembersOf(fs);
    t := TObj([], fs');
  }

  lemma PaddedFields(ws: Ws, fs: Fields)
    requires fs.Field?
    ensures FieldsText(fs.(before := ws + fs.before)) == ws + FieldsText(fs)
  {
    var k := StringText(fs.key);
    var slot := SlotText(fs.afterColon, fs.value, fs.after);
    var more := if fs.rest.Field? then [COMMA] + FieldsText(fs.rest) else [];
    FiveJoin(ws, fs.before, k, fs.beforeColon, [COLON], slot + more);
  }

  lemma FiveJoin(a: Text, b: Text, c: Text, d: Text, e: Text, more: Text)
    ensures (a + b + c + d + e) + more == a + ((b + c + d + e) + more)
  {
  }

  /** What a successful read of a member passes through. */
  lemma MembersRead(acc: seq<Member>, s: Text)
    requires ReadMembers(acc, s).Good?
    ensures var k := ReadKey(s);
            && k.Good? && !HasKey(acc, k.value)
            && var v := ReadValue(k.rest);
            && v.Good?
            && var acc', next := acc + [Member(k.value, v.value)], SkipWs(v.rest);
            && next != []
            && (next[0] == RBRACE || next[0] == COMMA)
            && ReadMembers(acc, s) == if next[0] == RBRACE then Good(Obj(acc'), next[1..])
                                      else ReadMembers(acc', next[1..])
  {
  }

  /** The first member an object reads, as the only one, and what is left after it. */
  lemma {:induction false} FirstMemberOf(acc: seq<Member>, s: Text) returns (f: Fields, next: Text)
    requires ReadMembers(acc, s).Good?
    ensures f.Field? && f.rest.NoFields? && Plain(f.value) && !HasKey(acc, Decoded(f.key))
    ensures s == KeyText(f.before, f.key, f.beforeColon) + (SlotText(f.afterColon, f.value, f.after) + next)
    ensures 0 < |next| <= |s| && (next[0] == RBRACE || next[0] == COMMA)
    ensures var acc' := acc + [Member(Decoded(f.key), ValueOf(f.value))];
            ReadMembers(acc, s) == if next[0] == RBRACE then Good(Obj(acc'), next[1..]) else ReadMembers(acc', next[1..])
    decreases |s|, 3
  {
    MembersRead(acc, s);
    var before, key, beforeColon, slot := KeyOf(s);
    var afterColon := SkippedWs(slot);
    var value := SkipWs(slot);
    var t := TreeOf(value);
    var after := SkippedWs(ReadValue(value).rest);
    next := SkipWs(ReadValue(value).rest);
    SlotJoins(slot, afterColon, t, after, value, next);
    f := Field(before, key, beforeColon, afterColon, t, after, NoFields);
  }

  lemma {:induction false} FieldsOf(acc: seq<Member>, s: Text) returns (fs: Fields)
    requires UniqueKeys(acc) && ReadMembers(acc, s).Good?
    ensures fs.Field? && FieldsPlain(fs) && UniqueKeys(acc + MembersOf(fs))
    ensures ReadMembers(acc, s) == Good(Obj(acc + MembersOf(fs)), ReadMembers(acc, s).rest)
    ensures s == FieldsText(fs) + ([RBRACE] + ReadMembers(acc, s).rest)
    decreases |s|, 4
  {
    var end := [RBRACE] + ReadMembers(acc, s).rest;
    var f, next := FirstMemberOf(acc, s);
    var m := Member(Decoded(f.key), ValueOf(f.value));
    KeysOfAppend(acc, m, []);
    fs := f;
    if next[0] == COMMA {
      var more := FieldsOf(acc + [m], next[1..]);
      fs := f.(rest := more);
      assert next == [COMMA] + next[1..];
    } else {
      assert next == end;
    }
    MembersJoin(acc, fs);
    FieldsTextIs(fs, end);
  }

  lemma MembersJoin(acc: seq<Member>, fs: Fields)
    requires fs.Field?
    ensures var m := Member(Decoded(fs.key), ValueOf(fs.value));
            && acc + MembersOf(fs) == acc + [m] + MembersOf(fs.rest)
            && (fs.rest.NoFields? ==> acc + MembersOf(fs) == acc + [m])
    ensures FieldsPlain(fs) <==> Plain(fs.value) && FieldsPlain(fs.rest)
  {
  }

  /** The key at the front of a member's text, and the text behind its colon. */
  lemma KeyOf(s: Text) returns (before: Ws, key: seq<Piece>, beforeColon: Ws, slot: Text)
    requires ReadKey(s).Good?
    ensures ReadKey(s) == Good(Decoded(key), SkipWs(slot))
    ensures s == KeyText(before, key, beforeColon) + slot
  {
    before := SkippedWs(s);
    var chars := SkipWs(s)[1..];
    key := PiecesOf([], chars);
    assert [] + Decoded(key) == Decoded(key);
    var rest := ReadChars([], chars).rest;
    beforeColon := SkippedWs(rest);
    slot := SkipWs(rest)[1..];
    KeyJoins(s, before, SkipWs(s), key, chars, rest, beforeColon, SkipWs(rest), slot);
  }

  lemma KeyJoins(s: Text, before: Ws, quoted: Text, key: seq<Piece>, chars: Text, rest: Text, beforeColon: Ws, colon: Text, slot: Text)
    requires s == before + quoted && quoted != [] && quoted[0] == QUOTE && quoted[1..] == chars
    requires chars == PiecesText(key) + [QUOTE] + rest && rest == beforeColon + colon
    requires colon != [] && colon[0] == COLON && colon[1..] == slot
    ensures s == KeyText(before, key, beforeColon) + slot
  {
    assert colon == [COLON] + slot;
    assert quoted == [QUOTE] + chars;
    KeyTextIs(before, key, beforeColon, slot);
  }

  /* ---------- whole texts ---------- */

  /** Within the acceptance profile: integers only and in range, distinct keys, bounded nesting, paired surrogates. */
  predicate InProfile(t: Tree) {
    Plain(t) && Depth(t) <= MAX_DEPTH && !HasLone(t)
  }

  /** A valid text is parsed to its value exactly when it lies within the profile. */
  lemma ParsesDocument(d: Document)
    requires !Lone(DocumentText(d))
    ensures ParseText(DocumentText(d)) == if InProfile(d.tree) then Some(ValueOf(d.tree)) else None
  {
    DepthScanIsDepth(d);
    LoneScanIsHasLone(d);
    var s := TreeText(d.tree) + d.after;
    assert DocumentText(d) == d.before + s;
    SkipWsSkips(d.before, s);
    TreeStarts(d.tree);
    SkipWsStops(s);
    WsThenNumberEnds(d.after, []);
    assert d.after + [] == d.after;
    ReadsTree(d.tree, d.after);
    SkipWsSkips(d.after, []);
  }

  /** Whatever is parsed is a valid text of the profile, and the value is the one it denotes. */
  lemma ParsedIsDocument(s: Text)
    requires !Lone(s)
    ensures ParseText(s) != None <==> exists d: Document :: DocumentText(d) == s && InProfile(d.tree)
    ensures forall d: Document :: DocumentText(d) == s && InProfile(d.tree) ==> ParseText(s) == Some(ValueOf(d.tree))
  {
    forall d: Document | DocumentText(d) == s {
      ParsesDocument(d);
    }
    if ParseText(s) != None {
      var before := SkippedWs(s);
      var t := TreeOf(SkipWs(s));
      var rest := ReadValue(SkipWs(s)).rest;
      var after := SkippedWs(rest);
      var d := Document(before, t, after);
      assert rest == after + [];
      assert DocumentText(d) == s;
    }
  }
}
