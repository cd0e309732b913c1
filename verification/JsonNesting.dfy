/**
 The linear nesting scan that runs before a parser: on every syntactically valid text
 it returns the nesting depth of the value.
 */
module JsonNesting {
  import opened JsonText
  import opened JsonGrammar

  datatype DepthState = DepthState(depth: int, max: int, inStr: bool, esc: bool)

  function DepthStep(st: DepthState, c: Unit): DepthState {
    if st.inStr then
      if st.esc then st.(esc := false)
      else if c == BACKSLASH then st.(esc := true)
      else if c == QUOTE then st.(inStr := false)
      else st
    else if c == QUOTE then st.(inStr := true)
    else if c == LBRACKET || c == LBRACE then st.(depth := st.depth + 1, max := Max(st.max, st.depth + 1))
    else if c == RBRACKET || c == RBRACE then st.(depth := st.depth - 1)
    else st
  }

  function DepthRun(st: DepthState, s: Text): DepthState
    decreases |s|
  {
    if s == [] then st else DepthRun(DepthStep(st, s[0]), s[1..])
  }

  const DEPTH_START := DepthState(0, 0, false, false)

  /** The deepest bracket nesting outside strings. */
  function DepthScan(s: Text): int {
    DepthRun(DEPTH_START, s).max
  }

  method NestingDepth(text: Text) returns (max: int)
    ensures max == DepthScan(text)
  {
    var depth := 0;
    var inStr, esc := false, false;
    max := 0;
    for i := 0 to |text|
      invariant DepthRun(DepthState(depth, max, inStr, esc), text[i..]) == DepthRun(DEPTH_START, text)
    {
      var c := text[i];
      if inStr {
        if esc {
          esc := false;
        } else if c == BACKSLASH {
          esc := true;
        } else if c == QUOTE {
          inStr := false;
        }
      } else if c == QUOTE {
        inStr := true;
      } else if c == LBRACKET || c == LBRACE {
        depth := depth + 1;
        if depth > max {
          max := depth;
        }
      } else if c == RBRACKET || c == RBRACE {
        depth := depth - 1;
      }
    }
  }

  lemma {:induction false} DepthRunAppend(st: DepthState, a: Text, b: Text)
    ensures DepthRun(st, a + b) == DepthRun(DepthRun(st, a), b)
    decreases |a|
  {
    if a == [] {
      assert a + b == b;
    } else {
      assert (a + b)[1..] == a[1..] + b;
      DepthRunAppend(DepthStep(st, a[0]), a[1..], b);
    }
  }

  /** Outside a string, at a depth the maximum already counts. */
  predicate Settled(st: DepthState) {
    !st.inStr && !st.esc && st.depth <= st.max
  }

  lemma {:induction false} DepthOfPieces(st: DepthState, ps: seq<Piece>)
    requires st.inStr && !st.esc
    ensures DepthRun(st, PiecesText(ps)) == st
    decreases |ps|
  {
    if ps != [] {
      DepthRunAppend(st, PieceText(ps[0]), PiecesText(ps[1..]));
      DepthOfPiece(st, ps[0]);
      DepthOfPieces(st, ps[1..]);
    }
  }

  lemma DepthOfPiece(st: DepthState, p: Piece)
    requires st.inStr && !st.esc
    ensures DepthRun(st, PieceText(p)) == st
  {
    match p
    case Raw(u) => DepthOfUnit(st, u);
    case Short(e) =>
      assert [BACKSLASH, e] == [BACKSLASH] + [e];
      DepthRunAppend(st, [BACKSLASH], [e]);
      DepthOfUnit(st, BACKSLASH);
      DepthOfUnit(st.(esc := true), e);
    case Hex(h) =>
      var t := [BACKSLASH, LOWER_U] + h;
      assert t[1..] == [LOWER_U] + h && ([LOWER_U] + h)[1..] == h;
      DepthOfHex(st, h);
  }

  lemma {:induction false} DepthOfHex(st: DepthState, h: Text)
    requires st.inStr && !st.esc
    requires forall i :: 0 <= i < |h| ==> HexDigit(h[i]) >= 0
    ensures DepthRun(st, h) == st
    decreases |h|
  {
    if h != [] {
      DepthOfHex(st, h[1..]);
    }
  }

  lemma DepthOfString(st: DepthState, ps: seq<Piece>)
    requires !st.inStr && !st.esc
    ensures DepthRun(st, StringText(ps)) == st
  {
    var inside := st.(inStr := true);
    DepthRunAppend(st, [QUOTE] + PiecesText(ps), [QUOTE]);
    DepthRunAppend(st, [QUOTE], PiecesText(ps));
    DepthOfPieces(inside, ps);
    DepthOfUnit(st, QUOTE);
    DepthOfUnit(inside, QUOTE);
  }

  lemma DepthOfUnit(st: DepthState, u: Unit)
    ensures DepthRun(st, [u]) == DepthStep(st, u)
  {
    assert [u][1..] == [];
    assert DepthRun(DepthStep(st, u), []) == DepthStep(st, u);
  }

  /** Units that neither open a string nor a bracket leave the state alone. */
  lemma {:induction false} DepthOfFlat(st: DepthState, s: Text)
    requires !st.inStr
    requires forall i :: 0 <= i < |s| ==>
      s[i] != QUOTE && s[i] != LBRACE && s[i] != RBRACE && s[i] != LBRACKET && s[i] != RBRACKET
    ensures DepthRun(st, s) == st
    decreases |s|
  {
    if s != [] {
      DepthOfFlat(st, s[1..]);
    }
  }

  function Deepened(st: DepthState, d: int): DepthState {
    st.(max := Max(st.max, st.depth + d))
  }

  lemma {:induction false} DepthOfTree(st: DepthState, t: Tree)
    requires Settled(st)
    ensures DepthRun(st, TreeText(t)) == Deepened(st, Depth(t))
    decreases t, 0
  {
    match t
    case TNull => DepthOfFlat(st, NULL);
    case TTrue => DepthOfFlat(st, TRUE);
    case TFalse => DepthOfFlat(st, FALSE);
    case TNum(n) => NumeralUnits(n); DepthOfFlat(st, NumText(n));
    case TStr(ps) => DepthOfString(st, ps);
    case TArr(pad, es) => DepthOfArray(st, pad, es);
    case TObj(pad, fs) => DepthOfObject(st, pad, fs);
  }

  lemma {:induction false} DepthOfArray(st: DepthState, pad: Ws, es: Elems)
    requires Settled(st)
    ensures DepthRun(st, TreeText(TArr(pad, es))) == Deepened(st, Depth(TArr(pad, es)))
    decreases es, 1
  {
    var inside := DepthStep(st, LBRACKET);
    if es.NoElems? {
      DepthOfFlat(inside, pad);
    } else {
      DepthOfElems(inside, es);
    }
    DepthOfBracketed(st, LBRACKET, if es.NoElems? then pad else ElemsText(es), RBRACKET);
  }

  lemma {:induction false} DepthOfObject(st: DepthState, pad: Ws, fs: Fields)
    requires Settled(st)
    ensures DepthRun(st, TreeText(TObj(pad, fs))) == Deepened(st, Depth(TObj(pad, fs)))
    decreases fs, 1
  {
    var inside := DepthStep(st, LBRACE);
    if fs.NoFields? {
      DepthOfFlat(inside, pad);
    } else {
      DepthOfFields(inside, fs);
    }
    DepthOfBracketed(st, LBRACE, if fs.NoFields? then pad else FieldsText(fs), RBRACE);
  }

  lemma DepthOfBracketed(st: DepthState, open: Unit, body: Text, close: Unit)
    ensures DepthRun(st, [open] + body + [close]) == DepthStep(DepthRun(DepthStep(st, open), body), close)
  {
    DepthRunAppend(st, [open] + body, [close]);
    DepthRunAppend(st, [open], body);
    DepthOfUnit(st, open);
    DepthOfUnit(DepthRun(DepthStep(st, open), body), close);
  }

  /** A value between white space, and what follows it. */
  lemma {:induction false} DepthOfSlot(st: DepthState, before: Ws, t: Tree, after: Ws, tail: Text)
    requires Settled(st)
    ensures DepthRun(st, SlotText(before, t, after) + tail) == DepthRun(Deepened(st, Depth(t)), tail)
    decreases t, 1
  {
    DepthRunAppend(st, before + TreeText(t) + after, tail);
    DepthRunAppend(st, before + TreeText(t), after);
    DepthRunAppend(st, before, TreeText(t));
    DepthOfFlat(st, before);
    DepthOfTree(st, t);
    DepthOfFlat(Deepened(st, Depth(t)), after);
  }

  lemma {:induction false} DepthOfElems(st: DepthState, es: Elems)
    requires Settled(st) && es.Elem?
    ensures DepthRun(st, ElemsText(es)) == Deepened(st, ElemsDepth(es))
    decreases es, 0
  {
    var tail := if es.rest.NoElems? then [] else [COMMA] + ElemsText(es.rest);
    DepthOfSlot(st, es.before, es.value, es.after, tail);
    var next := Deepened(st, Depth(es.value));
    if es.rest.Elem? {
      DepthRunAppend(next, [COMMA], ElemsText(es.rest));
      DepthOfUnit(next, COMMA);
      DepthOfElems(next, es.rest);
    }
  }

  lemma {:induction false} DepthOfFields(st: DepthState, fs: Fields)
    requires Settled(st) && fs.Field?
    ensures DepthRun(st, FieldsText(fs)) == Deepened(st, FieldsDepth(fs))
    decreases fs, 0
  {
    var tail := if fs.rest.NoFields? then [] else [COMMA] + FieldsText(fs.rest);
    DepthOfKey(st, fs.before, fs.key, fs.beforeColon, SlotText(fs.afterColon, fs.value, fs.after) + tail);
    DepthOfSlot(st, fs.afterColon, fs.value, fs.after, tail);
    var next := Deepened(st, Depth(fs.value));
    if fs.rest.Field? {
      DepthRunAppend(next, [COMMA], FieldsText(fs.rest));
      DepthOfUnit(next, COMMA);
      DepthOfFields(next, fs.rest);
    }
  }

  lemma DepthOfKey(st: DepthState, before: Ws, key: seq<Piece>, beforeColon: Ws, tail: Text)
    requires Settled(st)
    ensures DepthRun(st, KeyText(before, key, beforeColon) + tail) == DepthRun(st, tail)
  {
    DepthRunAppend(st, KeyText(before, key, beforeColon), tail);
    DepthRunAppend(st, before + StringText(key) + beforeColon, [COLON]);
    DepthRunAppend(st, before + StringText(key), beforeColon);
    DepthRunAppend(st, before, StringText(key));
    DepthOfFlat(st, before);
    DepthOfString(st, key);
    DepthOfFlat(st, beforeColon);
    DepthOfFlat(st, [COLON]);
  }

  /** The linear scan of a valid text is the nesting depth of its value. */
  lemma DepthScanIsDepth(d: Document)
    ensures DepthScan(DocumentText(d)) == Depth(d.tree)
  {
    DepthOfSlot(DEPTH_START, d.before, d.tree, d.after, []);
    assert DocumentText(d) == DocumentText(d) + [];
  }
}
