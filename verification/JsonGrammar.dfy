/**
 The JSON grammar of RFC 8259 as derivation trees. A text is syntactically valid when it
 is the text of a tree between white space; the tree says which value it denotes, how
 deep it nests, whether an object repeats a key, whether a number has a fraction or an
 exponent, and whether a string holds an unpaired surrogate.
 */
module JsonGrammar {
  import opened JsonText

  type Ws = w: Text | AllWs(w) witness []

  /** One character of a string: itself, a one-letter escape, or four hexadecimal digits. */
  datatype AnyPiece = Raw(u: Unit) | Short(e: Unit) | Hex(h: Text)

  predicate IsPiece(p: AnyPiece) {
    match p
    case Raw(u) => 0x20 <= u && u != QUOTE && u != BACKSLASH
    case Short(e) => IsShortEscape(e)
    case Hex(h) => IsHex4(h)
  }

  type Piece = p: AnyPiece | IsPiece(p) witness Raw(SPACE)

  predicate IsFraction(f: Text) {
    f == [] || (f[0] == DOT && 1 < |f| && AllDigits(f[1..]))
  }

  predicate IsExponent(x: Text) {
    x == [] ||
    (&& (x[0] == LOWER_E || x[0] == UPPER_E)
     && 1 < |x|
     && var d := if x[1] == PLUS || x[1] == MINUS then x[2..] else x[1..];
        d != [] && AllDigits(d))
  }

  datatype AnyNumber = Number(whole: Text, fraction: Text, exponent: Text)

  type Numeral = n: AnyNumber | IsIntLexeme(n.whole) && IsFraction(n.fraction) && IsExponent(n.exponent)
    witness Number([ZERO], [], [])

  datatype Tree =
    | TNull
    | TTrue
    | TFalse
    | TNum(n: Numeral)
    | TStr(pieces: seq<Piece>)
    | TArr(pad: Ws, elems: Elems)    // pad is the white space of an empty array
    | TObj(pad: Ws, fields: Fields)

  datatype Elems = NoElems | Elem(before: Ws, value: Tree, after: Ws, rest: Elems)

  datatype Fields =
    | NoFields
    | Field(before: Ws, key: seq<Piece>, beforeColon: Ws, afterColon: Ws, value: Tree, after: Ws, rest: Fields)

  /* ---------- the text of a tree ---------- */

  function PieceText(p: Piece): Text {
    match p
    case Raw(u) => [u]
    case Short(e) => [BACKSLASH, e]
    case Hex(h) => [BACKSLASH, LOWER_U] + h
  }

  function PiecesText(ps: seq<Piece>): Text {
    if ps == [] then [] else PieceText(ps[0]) + PiecesText(ps[1..])
  }

  function StringText(ps: seq<Piece>): Text {
    [QUOTE] + PiecesText(ps) + [QUOTE]
  }

  function NumText(n: Numeral): Text {
    n.whole + n.fraction + n.exponent
  }

  lemma NumeralUnits(n: Numeral)
    ensures forall i :: 0 <= i < |NumText(n)| ==> IsNumberUnit(NumText(n)[i])
  {
    assert forall i :: 0 <= i < |n.whole| ==> IsNumberUnit(n.whole[i]);
    assert forall i :: 0 <= i < |n.fraction| ==> i == 0 || n.fraction[i] == n.fraction[1..][i - 1];
    if n.exponent != [] {
      var x := n.exponent;
      var d := if x[1] == PLUS || x[1] == MINUS then x[2..] else x[1..];
      assert forall i :: |x| - |d| <= i < |x| ==> x[i] == d[i - (|x| - |d|)];
    }
  }

  /** A unit the number tokens are made of. */
  predicate IsNumberUnit(u: Unit) {
    IsDigit(u) || u == DOT || u == LOWER_E || u == UPPER_E || u == PLUS || u == MINUS
  }

  /** A text at whose front no number token goes on. */
  predicate NumberEnds(rest: Text) {
    rest == [] || !IsNumberUnit(rest[0])
  }

  function TreeText(t: Tree): Text
    decreases t, 0
  {
    match t
    case TNull => NULL
    case TTrue => TRUE
    case TFalse => FALSE
    case TNum(n) => NumText(n)
    case TStr(ps) => StringText(ps)
    case TArr(pad, es) => [LBRACKET] + (if es.NoElems? then pad else ElemsText(es)) + [RBRACKET]
    case TObj(pad, fs) => [LBRACE] + (if fs.NoFields? then pad else FieldsText(fs)) + [RBRACE]
  }

  /** A value between white space. */
  function SlotText(before: Ws, t: Tree, after: Ws): Text
    decreases t, 1
  {
    before + TreeText(t) + after
  }

  function ElemsText(es: Elems): Text
    decreases es, 0
  {
    match es
    case NoElems => []
    case Elem(before, v, after, rest) =>
      SlotText(before, v, after) + if rest.NoElems? then [] else [COMMA] + ElemsText(rest)
  }

  /** A key between white space, and its colon. */
  function KeyText(before: Ws, key: seq<Piece>, beforeColon: Ws): Text {
    before + StringText(key) + beforeColon + [COLON]
  }

  function FieldsText(fs: Fields): Text
    decreases fs, 0
  {
    match fs
    case NoFields => []
    case Field(before, key, beforeColon, afterColon, v, after, rest) =>
      KeyText(before, key, beforeColon)
      + (SlotText(afterColon, v, after) + if rest.NoFields? then [] else [COMMA] + FieldsText(rest))
  }

  /** What follows the first item of an array, up to a given end. */
  function AfterElem(es: Elems, end: Text): Text
    requires es.Elem?
  {
    if es.rest.NoElems? then end else [COMMA] + (ElemsText(es.rest) + end)
  }

  function AfterField(fs: Fields, end: Text): Text
    requires fs.Field?
  {
    if fs.rest.NoFields? then end else [COMMA] + (FieldsText(fs.rest) + end)
  }

  lemma ElemsTextIs(es: Elems, end: Text)
    requires es.Elem?
    ensures ElemsText(es) + end == SlotText(es.before, es.value, es.after) + AfterElem(es, end)
  {
    var slot := SlotText(es.before, es.value, es.after);
    if es.rest.Elem? {
      assert slot + ([COMMA] + ElemsText(es.rest)) + end == slot + ([COMMA] + (ElemsText(es.rest) + end));
    } else {
      assert slot + [] + end == slot + end;
    }
  }

  lemma FieldsTextIs(fs: Fields, end: Text)
    requires fs.Field?
    ensures FieldsText(fs) + end
         == KeyText(fs.before, fs.key, fs.beforeColon) + (SlotText(fs.afterColon, fs.value, fs.after) + AfterField(fs, end))
  {
    var key, slot := KeyText(fs.before, fs.key, fs.beforeColon), SlotText(fs.afterColon, fs.value, fs.after);
    if fs.rest.Field? {
      var more := FieldsText(fs.rest);
      assert key + (slot + ([COMMA] + more)) + end == key + (slot + ([COMMA] + (more + end)));
    } else {
      assert key + (slot + []) + end == key + (slot + end);
    }
  }

  /** A document: a value between white space. */
  datatype Document = Document(before: Ws, tree: Tree, after: Ws)

  function DocumentText(d: Document): Text {
    SlotText(d.before, d.tree, d.after)
  }

  /* ---------- the value of a tree ---------- */

  function PieceUnit(p: Piece): Unit {
    match p
    case Raw(u) => u
    case Short(e) => ShortEscape(e)
    case Hex(h) => Hex4(h)
  }

  /** The string a sequence of pieces stands for. */
  function Decoded(ps: seq<Piece>): (s: Text)
    ensures |s| == |ps|
  {
    if ps == [] then [] else [PieceUnit(ps[0])] + Decoded(ps[1..])
  }

  function ValueOf(t: Tree): Value
    decreases t
  {
    match t
    case TNull => Null
    case TTrue => Bool(true)
    case TFalse => Bool(false)
    case TNum(n) => Num(Normal(NumText(n)))
    case TStr(ps) => Str(Decoded(ps))
    case TArr(_, es) => Arr(ItemsOf(es))
    case TObj(_, fs) => Obj(MembersOf(fs))
  }

  function ItemsOf(es: Elems): seq<Value>
    decreases es
  {
    match es
    case NoElems => []
    case Elem(_, v, _, rest) => [ValueOf(v)] + ItemsOf(rest)
  }

  function MembersOf(fs: Fields): seq<Member>
    decreases fs
  {
    match fs
    case NoFields => []
    case Field(_, key, _, _, v, _, rest) => [Member(Decoded(key), ValueOf(v))] + MembersOf(rest)
  }

  /* ---------- properties of a tree ---------- */

  function Max(a: int, b: int): int {
    if a < b then b else a
  }

  function Depth(t: Tree): nat
    decreases t
  {
    match t
    case TArr(_, es) => 1 + ElemsDepth(es)
    case TObj(_, fs) => 1 + FieldsDepth(fs)
    case _ => 0
  }

  function ElemsDepth(es: Elems): nat
    decreases es
  {
    match es
    case NoElems => 0
    case Elem(_, v, _, rest) => Max(Depth(v), ElemsDepth(rest))
  }

  function FieldsDepth(fs: Fields): nat
    decreases fs
  {
    match fs
    case NoFields => 0
    case Field(_, _, _, _, v, _, rest) => Max(Depth(v), FieldsDepth(rest))
  }

  /** Some number has a fraction or an exponent. */
  predicate HasFloat(t: Tree)
    decreases t
  {
    match t
    case TNum(n) => n.fraction != [] || n.exponent != []
    case TArr(_, es) => ElemsHaveFloat(es)
    case TObj(_, fs) => FieldsHaveFloat(fs)
    case _ => false
  }

  predicate ElemsHaveFloat(es: Elems)
    decreases es
  {
    es.Elem? && (HasFloat(es.value) || ElemsHaveFloat(es.rest))
  }

  predicate FieldsHaveFloat(fs: Fields)
    decreases fs
  {
    fs.Field? && (HasFloat(fs.value) || FieldsHaveFloat(fs.rest))
  }

  /** Some object repeats a decoded key. */
  predicate HasDuplicate(t: Tree)
    decreases t
  {
    match t
    case TArr(_, es) => ElemsHaveDuplicate(es)
    case TObj(_, fs) => !UniqueKeys(MembersOf(fs)) || FieldsHaveDuplicate(fs)
    case _ => false
  }

  predicate ElemsHaveDuplicate(es: Elems)
    decreases es
  {
    es.Elem? && (HasDuplicate(es.value) || ElemsHaveDuplicate(es.rest))
  }

  predicate FieldsHaveDuplicate(fs: Fields)
    decreases fs
  {
    fs.Field? && (HasDuplicate(fs.value) || FieldsHaveDuplicate(fs.rest))
  }

  /** Some integer lies outside +/-(2^53-1). */
  predicate HasWideInt(t: Tree)
    decreases t
  {
    match t
    case TNum(n) => !InRange(n.whole)
    case TArr(_, es) => ElemsHaveWideInt(es)
    case TObj(_, fs) => FieldsHaveWideInt(fs)
    case _ => false
  }

  predicate ElemsHaveWideInt(es: Elems)
    decreases es
  {
    es.Elem? && (HasWideInt(es.value) || ElemsHaveWideInt(es.rest))
  }

  predicate FieldsHaveWideInt(fs: Fields)
    decreases fs
  {
    fs.Field? && (HasWideInt(fs.value) || FieldsHaveWideInt(fs.rest))
  }

  /** Some decoded key or string holds an unpaired surrogate. */
  predicate HasLone(t: Tree)
    decreases t
  {
    match t
    case TStr(ps) => Lone(Decoded(ps))
    case TArr(_, es) => ElemsHaveLone(es)
    case TObj(_, fs) => FieldsHaveLone(fs)
    case _ => false
  }

  predicate ElemsHaveLone(es: Elems)
    decreases es
  {
    es.Elem? && (HasLone(es.value) || ElemsHaveLone(es.rest))
  }

  predicate FieldsHaveLone(fs: Fields)
    decreases fs
  {
    fs.Field? && (Lone(Decoded(fs.key)) || HasLone(fs.value) || FieldsHaveLone(fs.rest))
  }

  /** What the recursive-descent parser lets through. */
  predicate Plain(t: Tree) {
    !HasFloat(t) && !HasWideInt(t) && !HasDuplicate(t)
  }
}
