/**
 The linear scan for unpaired surrogate escapes: on every syntactically valid text that
 is well-formed UTF-16 it reports true exactly when some decoded key or string holds an
 unpaired surrogate.
 */
module JsonSurrogates {
  import opened Wrappers
  import opened JsonText
  import opened JsonGrammar

  /** Four hexadecimal digits at the front of a text. */
  function HexAt(s: Text): Option<Unit> {
    if |s| < 4 || !IsHex4(s[..4]) then None else Some(Hex4(s[..4]))
  }

  /** The scan of what is left of the text. */
  function LoneScan(s: Text): bool
    decreases |s|
  {
    if s == [] then false
    else if s[0] != BACKSLASH then LoneScan(s[1..])
    else if 5 < |s| && s[1] == LOWER_U then
      var cp := HexAt(s[2..]);
      if cp == None then LoneScan(s[2..])
      else if IsHigh(cp.value) then
        if |s| <= 7 || s[6] != BACKSLASH || s[7] != LOWER_U then true
        else
          var lo := HexAt(s[8..]);
          if lo == None || !IsLow(lo.value) then true else LoneScan(s[12..])
      else if IsLow(cp.value) then true
      else LoneScan(s[6..])
    else if |s| == 1 then false
    else LoneScan(s[2..])
  }

  method HasLoneSurrogate(t: Text) returns (found: bool)
    ensures found == LoneScan(t)
  {
    var i, n := 0, |t|;
    while i < n
      invariant 0 <= i
      invariant LoneScan(t) == (i < n && LoneScan(t[i..]))
    {
      if t[i] != BACKSLASH {
        i := i + 1;
        continue;
      }
      if i + 1 < n && t[i + 1] == LOWER_U && i + 5 < n {
        var cp := HexAt(t[i + 2..]);
        if cp == None {
          i := i + 2;
          continue;
        }
        if IsHigh(cp.value) {
          if i + 7 >= n || t[i + 6] != BACKSLASH || t[i + 7] != LOWER_U {
            return true;
          }
          var lo := HexAt(t[i + 8..]);
          if lo == None || !IsLow(lo.value) {
            return true;
          }
          i := i + 12;
          continue;
        }
        if IsLow(cp.value) {
          return true;
        }
        i := i + 6;
        continue;
      }
      i := i + 2;
    }
    return false;
  }

  /** Units the scan and the pairing rule both pass over. */
  predicate Neutral(s: Text) {
    forall i :: 0 <= i < |s| ==> s[i] < 0x80 && s[i] != BACKSLASH
  }

  lemma {:induction false} NeutralSkips(s: Text, rest: Text)
    requires Neutral(s)
    ensures LoneScan(s + rest) == LoneScan(rest)
    ensures Lone(s + rest) == Lone(rest)
    decreases |s|
  {
    if s == [] {
      assert s + rest == rest;
    } else {
      assert (s + rest)[1..] == s[1..] + rest;
      NeutralSkips(s[1..], rest);
    }
  }

  /** A short escape is two units for the scan and none for the pairing rule. */
  lemma ShortSkips(e: Unit, rest: Text)
    requires IsShortEscape(e)
    ensures LoneScan([BACKSLASH, e] + rest) == LoneScan(rest)
    ensures Lone([BACKSLASH, e] + rest) == Lone(rest)
  {
    var s := [BACKSLASH, e] + rest;
    assert s[1..] == [e] + rest && s[2..] == rest && ([e] + rest)[1..] == rest;
  }

  lemma HexSkips(h: Text, rest: Text)
    requires IsHex4(h)
    ensures Lone([BACKSLASH, LOWER_U] + h + rest) == Lone(rest)
  {
    var s := [BACKSLASH, LOWER_U] + h + rest;
    assert s[1..] == [LOWER_U] + h + rest;
    assert s[1..][1..] == h + rest;
    NeutralSkips(h, rest);
  }

  /** What the scan sees of a four-digit escape. */
  lemma HexIsSeen(h: Text, rest: Text)
    requires IsHex4(h)
    ensures var s := [BACKSLASH, LOWER_U] + h + rest;
            s[0] == BACKSLASH && s[1] == LOWER_U && 5 < |s| && HexAt(s[2..]) == Some(Hex4(h)) && s[6..] == rest
  {
    var s := [BACKSLASH, LOWER_U] + h + rest;
    assert s[2..] == h + rest && (h + rest)[..4] == h;
  }

  /** The pieces of one string, up to its closing quote. */
  lemma {:induction false} LoneScanOfPieces(ps: seq<Piece>, rest: Text)
    requires rest != [] && rest[0] == QUOTE
    requires !Lone(PiecesText(ps) + rest)
    ensures LoneScan(PiecesText(ps) + rest) == (Lone(Decoded(ps)) || LoneScan(rest))
    decreases |ps|
  {
    if ps == [] {
      assert PiecesText(ps) + rest == rest;
    } else {
      var tail := PiecesText(ps[1..]) + rest;
      assert PiecesText(ps) + rest == PieceText(ps[0]) + tail;
      assert Decoded(ps)[1..] == Decoded(ps[1..]);
      match ps[0]
      case Short(e) =>
        ShortSkips(e, tail);
        LoneScanOfPieces(ps[1..], rest);
      case Raw(u) =>
        assert ([u] + tail)[1..] == tail;
        if IsHigh(u) {
          RawHighIsPaired(ps, rest);
        } else {
          LoneScanOfPieces(ps[1..], rest);
        }
      case Hex(h) =>
        HexSkips(h, tail);
        HexIsSeen(h, tail);
        if IsHigh(Hex4(h)) {
          HexHighIsPaired(ps, rest);
        } else if !IsLow(Hex4(h)) {
          LoneScanOfPieces(ps[1..], rest);
        }
    }
  }

  lemma PairSkips(hi: Unit, lo: Unit, tail: Text)
    requires IsHigh(hi) && IsLow(lo)
    ensures LoneScan([hi, lo] + tail) == LoneScan(tail)
    ensures Lone([hi, lo] + tail) == Lone(tail)
  {
    var s := [hi, lo] + tail;
    assert s[1..] == [lo] + tail && s[2..] == tail && ([lo] + tail)[1..] == tail;
  }

  /** A raw high surrogate is followed by its raw low half, since the text itself is paired. */
  lemma {:induction false} RawHighIsPaired(ps: seq<Piece>, rest: Text)
    requires rest != [] && rest[0] == QUOTE
    requires !Lone(PiecesText(ps) + rest)
    requires ps != [] && ps[0].Raw? && IsHigh(ps[0].u)
    ensures LoneScan(PiecesText(ps) + rest) == (Lone(Decoded(ps)) || LoneScan(rest))
    decreases |ps|, 0
  {
    var hi := ps[0].u;
    var next := PiecesText(ps[1..]) + rest;
    assert PiecesText(ps) + rest == [hi] + next;
    assert IsLow(next[0]);
    assert ps[1..] != [];
    assert ps[1..][1..] == ps[2..];
    var q, tail := ps[1], PiecesText(ps[2..]) + rest;
    assert next == PieceText(q) + tail;
    assert q.Raw? && next[0] == q.u;
    assert [hi] + next == [hi, q.u] + tail;
    PairSkips(hi, q.u, tail);
    LoneScanOfPieces(ps[2..], rest);
    PairSkips(hi, q.u, Decoded(ps[2..]));
    assert Decoded(ps) == [hi, q.u] + Decoded(ps[2..]);
  }

  /** Behind an escaped high surrogate the scan looks for an escaped low one. */
  lemma HighSeen(h: Text, next: Text)
    requires IsHex4(h) && IsHigh(Hex4(h))
    ensures LoneScan([BACKSLASH, LOWER_U] + h + next) ==
            if |next| < 2 || next[0] != BACKSLASH || next[1] != LOWER_U then true
            else var lo := HexAt(next[2..]); lo == None || !IsLow(lo.value) || LoneScan(next[6..])
  {
    var s := [BACKSLASH, LOWER_U] + h + next;
    HexIsSeen(h, next);
    if 2 <= |next| {
      assert s[6] == next[0] && s[7] == next[1] && s[8..] == next[2..];
      if HexAt(next[2..]).Some? {
        assert s[12..] == next[6..];
      }
    }
  }

  /** The piece behind an escaped high surrogate: only an escaped low one pairs it. */
  lemma HighThenPiece(h: Text, q: Piece, tail: Text)
    requires IsHex4(h) && IsHigh(Hex4(h)) && !Lone(PieceText(q) + tail)
    ensures var pairs := q.Hex? && IsLow(PieceUnit(q));
            && LoneScan([BACKSLASH, LOWER_U] + h + (PieceText(q) + tail)) == (!pairs || LoneScan(tail))
            && (!pairs ==> !IsLow(PieceUnit(q)))
  {
    var next := PieceText(q) + tail;
    HighSeen(h, next);
    match q
    case Raw(u) => assert next[0] == u && Lone(next) == Lone([u] + tail);
    case Short(e) => assert next[0] == BACKSLASH && next[1] == e;
    case Hex(g) => HexIsSeen(g, tail);
  }

  /** An escaped high surrogate is in order exactly when an escaped low one follows. */
  lemma {:induction false} HexHighIsPaired(ps: seq<Piece>, rest: Text)
    requires rest != [] && rest[0] == QUOTE
    requires !Lone(PiecesText(ps) + rest)
    requires ps != [] && ps[0].Hex? && IsHigh(Hex4(ps[0].h))
    ensures LoneScan(PiecesText(ps) + rest) == (Lone(Decoded(ps)) || LoneScan(rest))
    decreases |ps|, 0
  {
    var h := ps[0].h;
    if |ps| == 1 {
      assert PiecesText(ps) + rest == [BACKSLASH, LOWER_U] + h + rest;
      HighSeen(h, rest);
    } else {
      var q := ps[1];
      var tail := PiecesText(ps[2..]) + rest;
      TwoPieces(ps, rest);
      HexSkips(h, PieceText(q) + tail);
      HighThenPiece(h, q, tail);
      LonePair(Hex4(h), PieceUnit(q), Decoded(ps[2..]));
      if q.Hex? && IsLow(PieceUnit(q)) {
        HexSkips(q.h, tail);
        LoneScanOfPieces(ps[2..], rest);
      }
    }
  }

  lemma TwoPieces(ps: seq<Piece>, rest: Text)
    requires 2 <= |ps|
    ensures PiecesText(ps) + rest == PieceText(ps[0]) + (PieceText(ps[1]) + (PiecesText(ps[2..]) + rest))
    ensures Decoded(ps) == [PieceUnit(ps[0]), PieceUnit(ps[1])] + Decoded(ps[2..])
  {
    var more := ps[1..];
    OnePiece(ps, rest);
    OnePiece(more, rest);
    SecondPiece(ps);
    InFront(PieceUnit(ps[0]), PieceUnit(ps[1]), Decoded(ps[2..]));
  }

  lemma SecondPiece(ps: seq<Piece>)
    requires 2 <= |ps|
    ensures ps[1..] != [] && ps[1..][0] == ps[1] && ps[1..][1..] == ps[2..]
  {
  }

  lemma InFront(u: Unit, v: Unit, s: Text)
    ensures [u] + ([v] + s) == [u, v] + s
  {
  }

  lemma OnePiece(ps: seq<Piece>, rest: Text)
    requires ps != []
    ensures PiecesText(ps) + rest == PieceText(ps[0]) + (PiecesText(ps[1..]) + rest)
    ensures Decoded(ps) == [PieceUnit(ps[0])] + Decoded(ps[1..])
  {
    Assoc(PieceText(ps[0]), PiecesText(ps[1..]), rest);
  }

  lemma LonePair(hi: Unit, u: Unit, ds: Text)
    requires IsHigh(hi)
    ensures Lone([hi, u] + ds) == (!IsLow(u) || Lone(ds))
  {
    assert ([hi, u] + ds)[2..] == ds;
  }

  lemma LoneScanOfString(ps: seq<Piece>, rest: Text)
    requires !Lone(StringText(ps) + rest)
    ensures LoneScan(StringText(ps) + rest) == (Lone(Decoded(ps)) || LoneScan(rest))
    ensures !Lone(rest)
  {
    var inner := [QUOTE] + rest;
    assert StringText(ps) + rest == [QUOTE] + (PiecesText(ps) + inner);
    NeutralSkips([QUOTE], PiecesText(ps) + inner);
    LoneScanOfPieces(ps, inner);
    NeutralSkips([QUOTE], rest);
    PairedSuffix(PiecesText(ps), inner);
  }

  /** What follows a boundary in a paired text is paired. */
  lemma {:induction false} PairedSuffix(a: Text, rest: Text)
    requires rest != [] && !IsHigh(rest[0]) && !IsLow(rest[0])
    requires !Lone(a + rest)
    ensures !Lone(rest)
    decreases |a|
  {
    var s := a + rest;
    if a == [] {
      assert s == rest;
    } else if IsHigh(a[0]) {
      assert |a| != 1;
      assert s[2..] == a[2..] + rest;
      PairedSuffix(a[2..], rest);
    } else {
      assert s[1..] == a[1..] + rest;
      PairedSuffix(a[1..], rest);
    }
  }

  /* ---------- whole trees ---------- */

  lemma WordsAreNeutral()
    ensures Neutral(NULL) && Neutral(TRUE) && Neutral(FALSE)
  {
  }

  lemma NumeralsAreNeutral(n: Numeral)
    ensures Neutral(NumText(n))
  {
    NumeralUnits(n);
  }

  lemma {:induction false} LoneScanOfTree(t: Tree, rest: Text)
    requires !Lone(TreeText(t) + rest)
    ensures LoneScan(TreeText(t) + rest) == (HasLone(t) || LoneScan(rest))
    ensures !Lone(rest)
    decreases t, 0
  {
    match t
    case TNull => WordsAreNeutral(); NeutralSkips(NULL, rest);
    case TTrue => WordsAreNeutral(); NeutralSkips(TRUE, rest);
    case TFalse => WordsAreNeutral(); NeutralSkips(FALSE, rest);
    case TNum(n) => NumeralsAreNeutral(n); NeutralSkips(NumText(n), rest);
    case TStr(ps) => LoneScanOfString(ps, rest);
    case TArr(pad, es) =>
      LoneScanOfBracketed(LBRACKET, if es.NoElems? then pad else ElemsText(es), RBRACKET, rest);
      if es.NoElems? {
        NeutralSkips(pad, [RBRACKET] + rest);
      } else {
        LoneScanOfElems(es, [RBRACKET] + rest);
      }
    case TObj(pad, fs) =>
      LoneScanOfBracketed(LBRACE, if fs.NoFields? then pad else FieldsText(fs), RBRACE, rest);
      if fs.NoFields? {
        NeutralSkips(pad, [RBRACE] + rest);
      } else {
        LoneScanOfFields(fs, [RBRACE] + rest);
      }
  }

  lemma LoneScanOfBracketed(open: Unit, body: Text, close: Unit, rest: Text)
    requires Neutral([open]) && Neutral([close])
    ensures LoneScan([open] + body + [close] + rest) == LoneScan(body + ([close] + rest))
    ensures Lone([open] + body + [close] + rest) == Lone(body + ([close] + rest))
    ensures LoneScan([close] + rest) == LoneScan(rest) && Lone([close] + rest) == Lone(rest)
  {
    assert [open] + body + [close] + rest == [open] + (body + ([close] + rest));
    NeutralSkips([open], body + ([close] + rest));
    NeutralSkips([close], rest);
  }

  lemma {:induction false} LoneScanOfSlot(before: Ws, t: Tree, after: Ws, tail: Text)
    requires !Lone(SlotText(before, t, after) + tail)
    ensures LoneScan(SlotText(before, t, after) + tail) == (HasLone(t) || LoneScan(tail))
    ensures !Lone(tail)
    decreases t, 1
  {
    assert SlotText(before, t, after) + tail == before + (TreeText(t) + (after + tail));
    NeutralSkips(before, TreeText(t) + (after + tail));
    LoneScanOfTree(t, after + tail);
    NeutralSkips(after, tail);
  }

  lemma {:induction false} LoneScanOfElems(es: Elems, rest: Text)
    requires es.Elem?
    requires !Lone(ElemsText(es) + rest)
    ensures LoneScan(ElemsText(es) + rest) == (ElemsHaveLone(es) || LoneScan(rest))
    ensures !Lone(rest)
    decreases es, 0
  {
    var tail := AfterElem(es, rest);
    ElemsTextIs(es, rest);
    LoneScanOfSlot(es.before, es.value, es.after, tail);
    if es.rest.Elem? {
      NeutralSkips([COMMA], ElemsText(es.rest) + rest);
      LoneScanOfElems(es.rest, rest);
    }
  }

  lemma {:induction false} LoneScanOfFields(fs: Fields, rest: Text)
    requires fs.Field?
    requires !Lone(FieldsText(fs) + rest)
    ensures LoneScan(FieldsText(fs) + rest) == (FieldsHaveLone(fs) || LoneScan(rest))
    ensures !Lone(rest)
    decreases fs, 0
  {
    var tail := AfterField(fs, rest);
    FieldsTextIs(fs, rest);
    LoneScanOfKey(fs.before, fs.key, fs.beforeColon, SlotText(fs.afterColon, fs.value, fs.after) + tail);
    LoneScanOfSlot(fs.afterColon, fs.value, fs.after, tail);
    if fs.rest.Field? {
      NeutralSkips([COMMA], FieldsText(fs.rest) + rest);
      LoneScanOfFields(fs.rest, rest);
    }
  }

  lemma LoneScanOfKey(before: Ws, key: seq<Piece>, beforeColon: Ws, tail: Text)
    requires !Lone(KeyText(before, key, beforeColon) + tail)
    ensures LoneScan(KeyText(before, key, beforeColon) + tail) == (Lone(Decoded(key)) || LoneScan(tail))
    ensures !Lone(tail)
  {
    var colon := beforeColon + [COLON];
    assert KeyText(before, key, beforeColon) + tail == before + (StringText(key) + (colon + tail));
    NeutralSkips(before, StringText(key) + (colon + tail));
    LoneScanOfString(key, colon + tail);
    NeutralSkips(colon, tail);
  }

  /** On a valid text that is well-formed UTF-16, the scan finds exactly the unpaired surrogates of the decoded strings. */
  lemma LoneScanIsHasLone(d: Document)
    requires !Lone(DocumentText(d))
    ensures LoneScan(DocumentText(d)) == HasLone(d.tree)
  {
    assert DocumentText(d) == DocumentText(d) + [];
    LoneScanOfSlot(d.before, d.tree, d.after, []);
  }
}
