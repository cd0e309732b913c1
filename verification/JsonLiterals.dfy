/**
 What the parser and the printer do with the characters themselves, spelled out.
 */
module JsonLiterals {
  import opened Wrappers
  import opened JsonText
  import opened JsonGrammar
  import opened JsonNesting
  import opened JsonSurrogates
  import opened JsonParser
  import opened JsonPrinter

  const LOWER := "0123456789abcdef"
  const UPPER := "0123456789ABCDEF"

  /* ---------- hexadecimal digits ---------- */

  /** The value of a digit is its place among the sixteen, in either case; any other unit has none. */
  lemma HexDigitIsPlace(u: int)
    ensures forall k :: 0 <= k < 16 ==> (LOWER[k] as int == u || UPPER[k] as int == u ==> HexDigit(u) == k)
    ensures (forall k :: 0 <= k < 16 ==> LOWER[k] as int != u && UPPER[k] as int != u) ==> HexDigit(u) == -1
  {
    if '0' as int <= u <= '9' as int {
      assert LOWER[u - '0' as int] as int == u;
    } else if 'a' as int <= u <= 'f' as int {
      assert LOWER[u - 'a' as int + 10] as int == u;
    } else if 'A' as int <= u <= 'F' as int {
      assert UPPER[u - 'A' as int + 10] as int == u;
    }
  }

  /** One of the two spellings of a hexadecimal digit. */
  function DigitFor(k: int, upper: bool): (u: Unit)
    requires 0 <= k < 16
    ensures HexDigit(u) == k
  {
    HexDigitIsPlace(LOWER[k] as int);
    HexDigitIsPlace(UPPER[k] as int);
    if upper then UPPER[k] as int else LOWER[k] as int
  }

  /** A unit as four hexadecimal digits, each in the case asked for. */
  function FourDigits(u: Unit, cases: seq<bool>): (h: Text)
    requires |cases| == 4
    ensures IsHex4(h)
  {
    [DigitFor(u / 0x1000, cases[0]), DigitFor(u / 0x100 % 16, cases[1]), DigitFor(u / 0x10 % 16, cases[2]), DigitFor(u % 16, cases[3])]
  }

  lemma FourDigitsValue(u: Unit, cases: seq<bool>)
    requires |cases| == 4
    ensures Hex4(FourDigits(u, cases)) == u
  {
    DigitsOf(u);
  }

  lemma DigitsOf(u: nat)
    ensures ((u / 0x1000 * 16 + u / 0x100 % 16) * 16 + u / 0x10 % 16) * 16 + u % 16 == u
  {
    assert u / 0x1000 * 16 + u / 0x100 % 16 == u / 0x100;
    assert u / 0x100 * 16 + u / 0x10 % 16 == u / 0x10;
    assert u / 0x10 * 16 + u % 16 == u;
  }

  /** A text that holds one value and nothing around it. */
  lemma BareReads(t: Tree)
    requires !Lone(TreeText(t))
    ensures ParseText(TreeText(t)) == if InProfile(t) then Some(ValueOf(t)) else None
  {
    var d := Document([], t, []);
    assert DocumentText(d) == TreeText(t) by {
      assert [] + TreeText(t) + [] == TreeText(t);
    }
    ParsesDocument(d);
  }

  lemma OnePiece(p: Piece)
    ensures PiecesText([p]) == PieceText(p) && Decoded([p]) == [PieceUnit(p)]
  {
    var ps: seq<Piece> := [p];
    assert ps[1..] == [] && PiecesText([]) == [] && PieceText(p) + [] == PieceText(p);
  }

  lemma PieceReads(p: Piece)
    requires forall i :: 0 <= i < |PieceText(p)| ==> !IsHigh(PieceText(p)[i]) && !IsLow(PieceText(p)[i])
    ensures ParseText([QUOTE] + PieceText(p) + [QUOTE]) ==
            if IsHigh(PieceUnit(p)) || IsLow(PieceUnit(p)) then None else Some(Str([PieceUnit(p)]))
  {
    OnePiece(p);
    NoSurrogates([QUOTE] + PieceText(p) + [QUOTE]);
    OneUnit(PieceUnit(p));
    BareReads(TStr([p]));
  }

  lemma OneUnit(u: Unit)
    ensures Lone([u]) <==> IsHigh(u) || IsLow(u)
  {
    assert [u][1..] == [];
  }

  lemma {:induction false} NoSurrogates(s: Text)
    requires forall i :: 0 <= i < |s| ==> !IsHigh(s[i]) && !IsLow(s[i])
    ensures !Lone(s)
    decreases |s|
  {
    if s != [] {
      NoSurrogates(s[1..]);
    }
  }

  /** Every unit but a surrogate is read from its escape, whichever of the sixteen mixes of upper and lower case it is spelled in; half a pair is refused. */
  lemma HexEscapeReads(u: Unit, cases: seq<bool>)
    requires |cases| == 4
    ensures ParseText(['"' as int, '\\' as int, 'u' as int] + FourDigits(u, cases) + ['"' as int]) ==
            if 0xD800 <= u <= 0xDFFF then None else Some(Str([u]))
  {
    var h := FourDigits(u, cases);
    FourDigitsValue(u, cases);
    PieceReads(Hex(h));
    assert ['"' as int, '\\' as int, 'u' as int] + h + ['"' as int] == [QUOTE] + PieceText(Hex(h)) + [QUOTE];
  }

  /** Two halves of a pair, each spelled in any mix of cases, are read as the two units. */
  lemma PairEscapeReads(hi: Unit, lo: Unit, cases: seq<bool>, others: seq<bool>)
    requires |cases| == |others| == 4 && 0xD800 <= hi <= 0xDBFF && 0xDC00 <= lo <= 0xDFFF
    ensures ParseText(['"' as int, '\\' as int, 'u' as int] + FourDigits(hi, cases) + ['\\' as int, 'u' as int] + FourDigits(lo, others) + ['"' as int]) ==
            Some(Str([hi, lo]))
  {
    var g, h := FourDigits(hi, cases), FourDigits(lo, others);
    FourDigitsValue(hi, cases);
    FourDigitsValue(lo, others);
    PairText(g, h);
    EscapesAreAscii(g, h);
    PairReads(Hex(g), Hex(h), hi, lo);
  }

  lemma PairReads(p: Piece, q: Piece, hi: Unit, lo: Unit)
    requires IsHigh(hi) && IsLow(lo) && PieceUnit(p) == hi && PieceUnit(q) == lo
    requires var s := [QUOTE] + (PieceText(p) + PieceText(q)) + [QUOTE];
             forall i :: 0 <= i < |s| ==> s[i] < 0x80
    ensures ParseText([QUOTE] + (PieceText(p) + PieceText(q)) + [QUOTE]) == Some(Str([hi, lo]))
  {
    TwoPieces(p, q);
    NoSurrogates([QUOTE] + (PieceText(p) + PieceText(q)) + [QUOTE]);
    PairIsWhole(hi, lo);
    BareReads(TStr([p, q]));
  }

  lemma PairIsWhole(hi: Unit, lo: Unit)
    requires IsHigh(hi) && IsLow(lo)
    ensures !Lone([hi, lo])
  {
    var s: Text := [hi, lo];
    assert s[2..] == [] && !Lone(s[2..]);
  }

  lemma EscapesAreAscii(g: Text, h: Text)
    requires IsHex4(g) && IsHex4(h)
    ensures var s := [QUOTE] + (PieceText(Hex(g)) + PieceText(Hex(h))) + [QUOTE];
            forall i :: 0 <= i < |s| ==> s[i] < 0x80
  {
    assert forall i :: 0 <= i < 4 ==> HexDigit(g[i]) >= 0 && HexDigit(h[i]) >= 0;
  }

  lemma PairText(g: Text, h: Text)
    ensures [QUOTE] + (([BACKSLASH, LOWER_U] + g) + ([BACKSLASH, LOWER_U] + h)) + [QUOTE] ==
            ['"' as int, '\\' as int, 'u' as int] + g + ['\\' as int, 'u' as int] + h + ['"' as int]
  {
  }

  lemma TwoPieces(p: Piece, q: Piece)
    ensures PiecesText([p, q]) == PieceText(p) + PieceText(q) && Decoded([p, q]) == [PieceUnit(p), PieceUnit(q)]
  {
    var ps: seq<Piece> := [p, q];
    OnePiece(q);
    assert ps[1..] == [q];
    assert Decoded(ps) == [PieceUnit(p)] + Decoded(ps[1..]) && PiecesText(ps) == PieceText(p) + PiecesText(ps[1..]);
  }

  /* ---------- one-letter escapes, plain characters, words ---------- */

  /** What stands behind a backslash in the eight one-letter escapes, and what it is read as. */
  const ESCAPES: map<int, Unit> :=
    map['"' as int := 0x22, '\\' as int := 0x5C, '/' as int := 0x2F, 'b' as int := 0x08,
        'f' as int := 0x0C, 'n' as int := 0x0A, 'r' as int := 0x0D, 't' as int := 0x09]

  /** A backslash and one more character make a string exactly in eight cases. */
  lemma ShortEscapeReads(c: Unit)
    ensures ParseText(['"' as int, '\\' as int, c, '"' as int]) == if c in ESCAPES then Some(Str([ESCAPES[c]])) else None
  {
    var s := ['"' as int, '\\' as int, c, '"' as int];
    if c in ESCAPES {
      PieceReads(Short(c));
      assert s == [QUOTE] + PieceText(Short(c)) + [QUOTE];
    } else {
      assert SkipWs(s) == s && s[1..][1..] == [c, '"' as int];
      assert ReadChars([], s[1..]) == Bad;
    }
  }

  /** A character stands for itself in a string exactly when it is no control character, no quote and no backslash. */
  lemma PlainCharacterReads(c: Unit)
    requires !(0xD800 <= c <= 0xDFFF)
    ensures ParseText(['"' as int, c, '"' as int]) == if c < 0x20 || c == 0x22 || c == 0x5C then None else Some(Str([c]))
  {
    var s := ['"' as int, c, '"' as int];
    if c < 0x20 || c == 0x22 || c == 0x5C {
      assert SkipWs(s) == s && s[1..] == [c, '"' as int] && s[1..][1..] == ['"' as int];
      if c == 0x22 {
        assert ReadChars([], s[1..]) == Good([], ['"' as int]);
        assert SkipWs(['"' as int]) == ['"' as int];
      } else if c == 0x5C {
        ReadsQuoteOnly();
      } else {
        assert ReadChars([], s[1..]) == Bad;
      }
    } else {
      PieceReads(Raw(c));
      assert s == [QUOTE] + PieceText(Raw(c)) + [QUOTE];
    }
  }

  lemma ReadsQuoteOnly()
    ensures ReadChars([], ['\\' as int, '"' as int]) == Bad
  {
    var s: Text := ['\\' as int, '"' as int];
    assert s[2..] == [];
    assert ReadChars([QUOTE], []) == Bad;
  }

  lemma WordsRead()
    ensures ParseText(Ascii("null")) == Some(Null)
    ensures ParseText(Ascii("true")) == Some(Bool(true))
    ensures ParseText(Ascii("false")) == Some(Bool(false))
  {
    WordReads(TNull, Ascii("null"));
    WordReads(TTrue, Ascii("true"));
    WordReads(TFalse, Ascii("false"));
  }

  lemma WordReads(t: Tree, s: Text)
    requires (t == TNull || t == TTrue || t == TFalse) && TreeText(t) == s
    requires forall i :: 0 <= i < |s| ==> s[i] < 0x80
    ensures ParseText(s) == Some(ValueOf(t))
  {
    NoSurrogates(s);
    BareReads(t);
  }

  /** Exactly space, tab, line feed and carriage return may stand in front of a value. */
  lemma BlankReads(u: Unit)
    ensures ParseText([u] + Ascii("null")) == Some(Null) <==> u == 0x20 || u == 0x09 || u == 0x0A || u == 0x0D
  {
    var s := [u] + Ascii("null");
    if u == 0x20 || u == 0x09 || u == 0x0A || u == 0x0D {
      var d := Document([u], TNull, []);
      assert DocumentText(d) == s;
      NoSurrogates(s);
      ParsesDocument(d);
    } else {
      assert SkipWs(s) == s;
      NoNullBehind(s);
    }
  }

  /** A text whose second character is an n is not the word null. */
  lemma NoNullBehind(s: Text)
    requires |s| == 5 && s[1..] == Ascii("null")
    ensures ReadValue(s) != Good(Null, []) && !(ReadValue(s).Good? && ReadValue(s).value == Null)
  {
    if s[0] == 'n' as int {
      assert s[1] == 'n' as int && NULL[1] == 'u' as int;
    }
  }

  /* ---------- whole numbers ---------- */

  /** A number in decimal digits. */
  function Digits(n: nat): (d: Text)
    ensures d != [] && AllDigits(d)
  {
    if n < 10 then ["0123456789"[n] as int] else Digits(n / 10) + ["0123456789"[n % 10] as int]
  }

  lemma DigitChar(k: nat)
    requires k < 10
    ensures "0123456789"[k] as int == ZERO + k
  {
  }

  lemma {:induction false} DigitsAreNumber(n: nat)
    ensures DigitsValue(Digits(n)) == n && (Digits(n)[0] == '0' as int <==> n == 0) && (n == 0 ==> |Digits(n)| == 1)
    decreases n
  {
    DigitChar(n % 10);
    if n < 10 {
      assert Digits(n)[..0] == [];
    } else {
      DigitsAreNumber(n / 10);
      var d := Digits(n);
      assert d[..|d| - 1] == Digits(n / 10);
    }
  }

  /** A whole number is read exactly up to 2^53 - 1, with or without a minus, and minus zero is zero. */
  lemma NumberReads(n: nat)
    ensures ParseText(Digits(n)) == if n <= 9007199254740991 then Some(Num(Digits(n))) else None
    ensures ParseText(['-' as int] + Digits(n)) ==
            if n == 0 then Some(Num(['0' as int])) else if n <= 9007199254740991 then Some(Num(['-' as int] + Digits(n))) else None
  {
    DigitsAreNumber(n);
    LexemeReads(Digits(n));
    var s: Text := ['-' as int] + Digits(n);
    assert s[1..] == Digits(n);
    LexemeReads(s);
    ZeroReads(n);
  }

  lemma ZeroReads(n: nat)
    ensures n == 0 ==> Digits(n) == ['0' as int] && Normal(['-' as int] + Digits(n)) == ['0' as int]
    ensures n != 0 ==> Normal(['-' as int] + Digits(n)) == ['-' as int] + Digits(n)
    ensures Normal(Digits(n)) == Digits(n)
  {
    DigitsAreNumber(n);
    assert Digits(n)[0] != MINUS;
    var s: Text := ['-' as int] + Digits(n);
    assert s[1] == Digits(n)[0];
  }

  lemma LexemeReads(s: Text)
    requires IsIntLexeme(s)
    ensures ParseText(s) == if -9007199254740991 <= IntValue(s) <= 9007199254740991 then Some(Num(Normal(s))) else None
  {
    var n: Numeral := Number(s, [], []);
    assert s + [] + [] == s;
    NoSurrogates(s);
    BareReads(TNum(n));
  }

  /* ---------- nesting ---------- */

  /** Brackets in brackets, arrays and one-member objects in any order, around an empty array. */
  function Nested(arrays: seq<bool>): Text {
    if arrays == [] then ['[' as int, ']' as int]
    else if arrays[0] then ['[' as int] + Nested(arrays[1..]) + [']' as int]
    else ['{' as int, '"' as int, '"' as int, ':' as int] + Nested(arrays[1..]) + ['}' as int]
  }

  function NestedTree(arrays: seq<bool>): Tree {
    if arrays == [] then TArr([], NoElems)
    else if arrays[0] then TArr([], Elem([], NestedTree(arrays[1..]), [], NoElems))
    else TObj([], Field([], [], [], [], NestedTree(arrays[1..]), [], NoFields))
  }

  /** A tree without floats, wide integers, repeated keys and unpaired surrogates. */
  predicate Harmless(t: Tree) {
    Plain(t) && !HasLone(t)
  }

  lemma OneElem(t: Tree)
    ensures var es := Elem([], t, [], NoElems);
            && ElemsText(es) == TreeText(t) && ElemsDepth(es) == Depth(t)
            && ElemsHaveFloat(es) == HasFloat(t) && ElemsHaveWideInt(es) == HasWideInt(t)
            && ElemsHaveDuplicate(es) == HasDuplicate(t) && ElemsHaveLone(es) == HasLone(t)
  {
    assert SlotText([], t, []) == TreeText(t);
    assert ElemsDepth(NoElems) == 0 && !ElemsHaveFloat(NoElems) && !ElemsHaveWideInt(NoElems);
    assert !ElemsHaveDuplicate(NoElems) && !ElemsHaveLone(NoElems);
  }

  lemma OneField(t: Tree)
    ensures var fs := Field([], [], [], [], t, [], NoFields);
            && FieldsText(fs) == ['"' as int, '"' as int, ':' as int] + TreeText(t) && FieldsDepth(fs) == Depth(t)
            && FieldsHaveFloat(fs) == HasFloat(t) && FieldsHaveWideInt(fs) == HasWideInt(t)
            && FieldsHaveDuplicate(fs) == HasDuplicate(t) && FieldsHaveLone(fs) == HasLone(t)
            && UniqueKeys(MembersOf(fs))
  {
    EmptyKey();
    assert SlotText([], t, []) == TreeText(t);
    assert FieldsDepth(NoFields) == 0 && !FieldsHaveFloat(NoFields) && !FieldsHaveWideInt(NoFields);
    assert !FieldsHaveDuplicate(NoFields) && !FieldsHaveLone(NoFields) && MembersOf(NoFields) == [];
    assert !Lone(Decoded([]));
  }

  lemma InArray(t: Tree)
    ensures var a := TArr([], Elem([], t, [], NoElems));
            && TreeText(a) == ['[' as int] + TreeText(t) + [']' as int]
            && Depth(a) == Depth(t) + 1 && (Harmless(t) ==> Harmless(a))
  {
    OneElem(t);
  }

  lemma InObject(t: Tree)
    ensures var a := TObj([], Field([], [], [], [], t, [], NoFields));
            && TreeText(a) == ['{' as int, '"' as int, '"' as int, ':' as int] + TreeText(t) + ['}' as int]
            && Depth(a) == Depth(t) + 1 && (Harmless(t) ==> Harmless(a))
  {
    OneField(t);
    BraceText(TreeText(t));
  }

  lemma BraceText(t: Text)
    ensures [LBRACE] + (['"' as int, '"' as int, ':' as int] + t) + [RBRACE] == ['{' as int, '"' as int, '"' as int, ':' as int] + t + ['}' as int]
  {
  }

  lemma EmptyKey()
    ensures KeyText([], [], []) == ['"' as int, '"' as int, ':' as int]
  {
    assert PiecesText([]) == [];
  }

  lemma {:induction false} NestedIsText(arrays: seq<bool>)
    ensures TreeText(NestedTree(arrays)) == Nested(arrays)
    ensures Depth(NestedTree(arrays)) == |arrays| + 1 && Harmless(NestedTree(arrays))
    decreases |arrays|
  {
    if arrays == [] {
      assert ElemsDepth(NoElems) == 0;
    } else {
      NestedIsText(arrays[1..]);
      InArray(NestedTree(arrays[1..]));
      InObject(NestedTree(arrays[1..]));
    }
  }

  lemma {:induction false} NestedIsAscii(arrays: seq<bool>)
    ensures forall i :: 0 <= i < |Nested(arrays)| ==> Nested(arrays)[i] < 0x80
    decreases |arrays|
  {
    if arrays != [] {
      NestedIsAscii(arrays[1..]);
    }
  }

  /** A text of nested brackets is read exactly up to 512 levels. */
  lemma NestedReads(arrays: seq<bool>)
    ensures ParseText(Nested(arrays)).Some? <==> |arrays| + 1 <= 512
  {
    NestedIsText(arrays);
    NestedIsAscii(arrays);
    NoSurrogates(Nested(arrays));
    HarmlessReads(NestedTree(arrays));
  }

  lemma HarmlessReads(t: Tree)
    requires Harmless(t) && !Lone(TreeText(t))
    ensures ParseText(TreeText(t)) == if Depth(t) <= 512 then Some(ValueOf(t)) else None
  {
    BareReads(t);
  }

  /* ---------- printing ---------- */

  /** How each unit of a string is printed: seven as one-letter escapes, printable ASCII as it is, all else as four lower-case digits. */
  lemma UnitPrints(u: Unit)
    ensures Print(Str([u])) == ['"' as int] + UnitText(u) + ['"' as int]
  {
    assert [u][1..] == [];
    assert PiecesFor([u]) == [PieceFor(u)];
    OnePiece(PieceFor(u));
    UnitPiece(u);
  }

  lemma UnitPiece(u: Unit)
    ensures PieceText(PieceFor(u)) == UnitText(u)
  {
    match PieceFor(u)
    case Hex(h) => HexPieceText(u);
    case Short(e) => ShortPieceText(u, e);
    case Raw(c) =>
  }

  lemma HexPieceText(u: Unit)
    requires PieceFor(u).Hex?
    ensures PieceText(PieceFor(u)) == UnitText(u)
  {
    LowerDigits(u);
    HexPieceIs(u);
    EscapeIs(FourDigits(u, [false, false, false, false]));
  }

  lemma HexPieceIs(u: Unit)
    requires PieceFor(u).Hex?
    ensures PieceFor(u) == Hex(Hex4Text(u))
    ensures UnitText(u) == Ascii("\\u") + FourDigits(u, [false, false, false, false])
  {
  }

  lemma EscapeIs(h: Text)
    requires IsHex4(h)
    ensures PieceText(Hex(h)) == Ascii("\\u") + h
  {
    assert [BACKSLASH, LOWER_U] == Ascii("\\u");
  }

  lemma ShortPieceText(u: Unit, e: Unit)
    requires PieceFor(u) == Short(e)
    ensures PieceText(PieceFor(u)) == UnitText(u)
  {
    assert |UnitText(u)| == 2 && UnitText(u)[0] == BACKSLASH && UnitText(u)[1] == e;
  }

  function UnitText(u: Unit): Text {
    if u == 0x22 then Ascii("\\\"")
    else if u == 0x5C then Ascii("\\\\")
    else if u == 0x08 then Ascii("\\b")
    else if u == 0x09 then Ascii("\\t")
    else if u == 0x0A then Ascii("\\n")
    else if u == 0x0C then Ascii("\\f")
    else if u == 0x0D then Ascii("\\r")
    else if 0x20 <= u < 0x7F then [u]
    else Ascii("\\u") + FourDigits(u, [false, false, false, false])
  }

  lemma LowerDigit(k: int)
    requires 0 <= k < 16
    ensures HexLower(k) == DigitFor(k, false)
  {
  }

  lemma LowerDigits(u: Unit)
    ensures Hex4Text(u) == FourDigits(u, [false, false, false, false])
  {
    LowerDigit(u / 16 / 16 / 16);
    LowerDigit(u / 16 / 16 % 16);
    LowerDigit(u / 16 % 16);
    LowerDigit(u % 16);
    assert u / 16 / 16 == u / 0x100 && u / 16 / 16 / 16 == u / 0x1000;
  }
}
