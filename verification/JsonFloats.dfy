/**
 The scan for number tokens that are not integers: on every syntactically valid text it
 reports true exactly when some number has a fraction or an exponent.
 */
module JsonFloats {
  import opened JsonText
  import opened JsonGrammar

  /** How many number units stand at the front. */
  function Span(s: Text): (n: nat)
    ensures n <= |s|
    ensures forall i :: 0 <= i < n ==> IsNumberUnit(s[i])
    ensures n < |s| ==> !IsNumberUnit(s[n])
  {
    if s == [] || !IsNumberUnit(s[0]) then 0 else 1 + Span(s[1..])
  }

  predicate MarksFloat(u: Unit) {
    u == DOT || u == LOWER_E || u == UPPER_E
  }

  predicate AnyMark(s: Text) {
    exists i :: 0 <= i < |s| && MarksFloat(s[i])
  }

  predicate StartsNumber(u: Unit) {
    u == MINUS || IsDigit(u)
  }

  /** The scan of what is left of the text. */
  function FloatScan(inStr: bool, esc: bool, s: Text): bool
    decreases |s|
  {
    if s == [] then false
    else
      var c := s[0];
      if inStr then
        if esc then FloatScan(true, false, s[1..])
        else if c == BACKSLASH then FloatScan(true, true, s[1..])
        else if c == QUOTE then FloatScan(false, false, s[1..])
        else FloatScan(true, false, s[1..])
      else if c == QUOTE then FloatScan(true, esc, s[1..])
      else if StartsNumber(c) then
        var j := 1 + Span(s[1..]);
        AnyMark(s[..j]) || FloatScan(false, esc, s[j..])
      else FloatScan(false, esc, s[1..])
  }

  /** Where the run of number characters that starts at i ends. */
  method NumberEnd(text: Text, i: nat) returns (j: nat)
    requires i < |text|
    ensures i < j <= |text| && j == i + 1 + Span(text[i + 1..])
    ensures text[i..][1..] == text[i + 1..] && text[i..][..j - i] == text[i..j] && text[i..][j - i..] == text[j..]
  {
    j := i + 1;
    while j < |text| && IsNumberUnit(text[j])
      invariant i + 1 <= j <= |text|
      invariant j + Span(text[j..]) == i + 1 + Span(text[i + 1..])
    {
      j := j + 1;
    }
  }

  method HasFloatLexeme(text: Text) returns (found: bool)
    ensures found == FloatScan(false, false, text)
  {
    var inStr, esc := false, false;
    var i := 0;
    while i < |text|
      invariant 0 <= i <= |text|
      invariant FloatScan(inStr, esc, text[i..]) == FloatScan(false, false, text)
    {
      var ch := text[i];
      if inStr {
        if esc {
          esc := false;
        } else if ch == BACKSLASH {
          esc := true;
        } else if ch == QUOTE {
          inStr := false;
        }
        i := i + 1;
        continue;
      }
      if ch == QUOTE {
        inStr := true;
        i := i + 1;
        continue;
      }
      if StartsNumber(ch) {
        var j := NumberEnd(text, i);
        if AnyMark(text[i..j]) {
          return true;
        }
        i := j;
        continue;
      }
      i := i + 1;
    }
    return false;
  }

  /** Units outside strings that are neither quotes nor starts of numbers. */
  predicate Quiet(s: Text) {
    forall i :: 0 <= i < |s| ==> s[i] != QUOTE && !StartsNumber(s[i])
  }

  lemma {:induction false} QuietSkips(s: Text, rest: Text)
    requires Quiet(s)
    ensures FloatScan(false, false, s + rest) == FloatScan(false, false, rest)
    decreases |s|
  {
    if s == [] {
      assert s + rest == rest;
    } else {
      assert (s + rest)[1..] == s[1..] + rest;
      QuietSkips(s[1..], rest);
    }
  }

  lemma {:induction false} SpanOfNumber(s: Text, rest: Text)
    requires forall i :: 0 <= i < |s| ==> IsNumberUnit(s[i])
    requires NumberEnds(rest)
    ensures Span(s + rest) == |s|
    decreases |s|
  {
    if s == [] {
      assert s + rest == rest;
    } else {
      assert (s + rest)[1..] == s[1..] + rest;
      SpanOfNumber(s[1..], rest);
    }
  }

  /** A number token is marked exactly when it has a fraction or an exponent. */
  lemma MarkedNumeral(n: Numeral)
    ensures NumText(n) != [] && StartsNumber(NumText(n)[0])
    ensures AnyMark(NumText(n)) <==> n.fraction != [] || n.exponent != []
  {
    var s := NumText(n);
    if n.fraction != [] {
      assert s[|n.whole|] == DOT;
    } else if n.exponent != [] {
      assert s[|n.whole|] == n.exponent[0];
    } else {
      assert s == n.whole;
    }
  }

  lemma FloatScanOfNumeral(n: Numeral, rest: Text)
    requires NumberEnds(rest)
    ensures FloatScan(false, false, NumText(n) + rest)
         == (n.fraction != [] || n.exponent != [] || FloatScan(false, false, rest))
  {
    var t := NumText(n);
    MarkedNumeral(n);
    NumeralUnits(n);
    assert (t + rest)[1..] == t[1..] + rest;
    SpanOfNumber(t[1..], rest);
    assert (t + rest)[..|t|] == t && (t + rest)[|t|..] == rest;
  }

  lemma {:induction false} InsideSkips(s: Text, rest: Text)
    requires forall i :: 0 <= i < |s| ==> s[i] != QUOTE && s[i] != BACKSLASH
    ensures FloatScan(true, false, s + rest) == FloatScan(true, false, rest)
    decreases |s|
  {
    if s == [] {
      assert s + rest == rest;
    } else {
      assert (s + rest)[1..] == s[1..] + rest;
      InsideSkips(s[1..], rest);
    }
  }

  lemma FloatScanOfPiece(p: Piece, rest: Text)
    ensures FloatScan(true, false, PieceText(p) + rest) == FloatScan(true, false, rest)
  {
    match p
    case Raw(u) => InsideSkips([u], rest);
    case Short(e) =>
      assert ([BACKSLASH, e] + rest)[1..] == [e] + rest && ([e] + rest)[1..] == rest;
    case Hex(h) =>
      var s := [BACKSLASH, LOWER_U] + h + rest;
      assert s[1..] == [LOWER_U] + h + rest && s[1..][1..] == h + rest;
      InsideSkips(h, rest);
  }

  lemma {:induction false} FloatScanOfPieces(ps: seq<Piece>, rest: Text)
    ensures FloatScan(true, false, PiecesText(ps) + rest) == FloatScan(true, false, rest)
    decreases |ps|
  {
    if ps == [] {
      assert PiecesText(ps) + rest == rest;
    } else {
      var tail := PiecesText(ps[1..]) + rest;
      assert PiecesText(ps) + rest == PieceText(ps[0]) + tail;
      FloatScanOfPiece(ps[0], tail);
      FloatScanOfPieces(ps[1..], rest);
    }
  }

  lemma FloatScanOfString(ps: seq<Piece>, rest: Text)
    ensures FloatScan(false, false, StringText(ps) + rest) == FloatScan(false, false, rest)
  {
    var inner := [QUOTE] + rest;
    var s := StringText(ps) + rest;
    assert s[1..] == PiecesText(ps) + inner;
    FloatScanOfPieces(ps, inner);
    assert inner[1..] == rest;
  }

  lemma {:induction false} FloatScanOfTree(t: Tree, rest: Text)
    requires NumberEnds(rest)
    ensures FloatScan(false, false, TreeText(t) + rest) == (HasFloat(t) || FloatScan(false, false, rest))
    decreases t, 0
  {
    match t
    case TNull => QuietSkips(NULL, rest);
    case TTrue => QuietSkips(TRUE, rest);
    case TFalse => QuietSkips(FALSE, rest);
    case TNum(n) => FloatScanOfNumeral(n, rest);
    case TStr(ps) => FloatScanOfString(ps, rest);
    case TArr(pad, es) =>
      var tail := [RBRACKET] + rest;
      FloatScanOfBracketed(LBRACKET, if es.NoElems? then pad else ElemsText(es), RBRACKET, rest);
      if es.NoElems? {
        QuietSkips(pad, tail);
      } else {
        FloatScanOfElems(es, tail);
      }
    case TObj(pad, fs) =>
      var tail := [RBRACE] + rest;
      FloatScanOfBracketed(LBRACE, if fs.NoFields? then pad else FieldsText(fs), RBRACE, rest);
      if fs.NoFields? {
        QuietSkips(pad, tail);
      } else {
        FloatScanOfFields(fs, tail);
      }
  }

  lemma FloatScanOfBracketed(open: Unit, body: Text, close: Unit, rest: Text)
    requires Quiet([open]) && Quiet([close])
    ensures FloatScan(false, false, [open] + body + [close] + rest) == FloatScan(false, false, body + ([close] + rest))
    ensures FloatScan(false, false, [close] + rest) == FloatScan(false, false, rest)
  {
    assert [open] + body + [close] + rest == [open] + (body + ([close] + rest));
    QuietSkips([open], body + ([close] + rest));
    QuietSkips([close], rest);
  }

  lemma {:induction false} FloatScanOfSlot(before: Ws, t: Tree, after: Ws, tail: Text)
    requires NumberEnds(tail)
    ensures FloatScan(false, false, SlotText(before, t, after) + tail)
         == (HasFloat(t) || FloatScan(false, false, tail))
    decreases t, 1
  {
    assert SlotText(before, t, after) + tail == before + (TreeText(t) + (after + tail));
    QuietSkips(before, TreeText(t) + (after + tail));
    assert NumberEnds(after + tail) by {
      if after != [] {
        assert IsWs((after + tail)[0]);
      } else {
        assert after + tail == tail;
      }
    }
    FloatScanOfTree(t, after + tail);
    QuietSkips(after, tail);
  }

  lemma {:induction false} FloatScanOfElems(es: Elems, rest: Text)
    requires es.Elem?
    requires NumberEnds(rest)
    ensures FloatScan(false, false, ElemsText(es) + rest) == (ElemsHaveFloat(es) || FloatScan(false, false, rest))
    decreases es, 0
  {
    var tail := AfterElem(es, rest);
    ElemsTextIs(es, rest);
    FloatScanOfSlot(es.before, es.value, es.after, tail);
    if es.rest.Elem? {
      QuietSkips([COMMA], ElemsText(es.rest) + rest);
      FloatScanOfElems(es.rest, rest);
    }
  }

  lemma {:induction false} FloatScanOfFields(fs: Fields, rest: Text)
    requires fs.Field?
    requires NumberEnds(rest)
    ensures FloatScan(false, false, FieldsText(fs) + rest) == (FieldsHaveFloat(fs) || FloatScan(false, false, rest))
    decreases fs, 0
  {
    var tail := AfterField(fs, rest);
    FieldsTextIs(fs, rest);
    FloatScanOfKey(fs.before, fs.key, fs.beforeColon, SlotText(fs.afterColon, fs.value, fs.after) + tail);
    FloatScanOfSlot(fs.afterColon, fs.value, fs.after, tail);
    if fs.rest.Field? {
      QuietSkips([COMMA], FieldsText(fs.rest) + rest);
      FloatScanOfFields(fs.rest, rest);
    }
  }

  lemma FloatScanOfKey(before: Ws, key: seq<Piece>, beforeColon: Ws, tail: Text)
    ensures FloatScan(false, false, KeyText(before, key, beforeColon) + tail) == FloatScan(false, false, tail)
  {
    var colon := beforeColon + [COLON];
    assert KeyText(before, key, beforeColon) + tail == before + (StringText(key) + (colon + tail));
    QuietSkips(before, StringText(key) + (colon + tail));
    FloatScanOfString(key, colon + tail);
    QuietSkips(colon, tail);
  }

  /** On a valid text the scan finds exactly the numbers with a fraction or an exponent. */
  lemma FloatScanIsHasFloat(d: Document)
    ensures FloatScan(false, false, DocumentText(d)) == HasFloat(d.tree)
  {
    assert DocumentText(d) == DocumentText(d) + [];
    FloatScanOfSlot(d.before, d.tree, d.after, []);
  }
}
