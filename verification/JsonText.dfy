/**
 JSON text as UTF-16 code units, and the lexical classes of RFC 8259.
 */
module JsonText {
  /** A UTF-16 code unit. */
  type Unit = u: int | 0 <= u < 0x10000

  type Text = seq<Unit>

  const QUOTE: Unit := '"' as int
  const BACKSLASH: Unit := '\\' as int
  const SLASH: Unit := '/' as int
  const LBRACE: Unit := '{' as int
  const RBRACE: Unit := '}' as int
  const LBRACKET: Unit := '[' as int
  const RBRACKET: Unit := ']' as int
  const COLON: Unit := ':' as int
  const COMMA: Unit := ',' as int
  const MINUS: Unit := '-' as int
  const PLUS: Unit := '+' as int
  const DOT: Unit := '.' as int
  const ZERO: Unit := '0' as int
  const UPPER_E: Unit := 'E' as int
  const LOWER_E: Unit := 'e' as int
  const LOWER_U: Unit := 'u' as int
  const SPACE: Unit := 0x20
  const TAB: Unit := 0x09
  const LF: Unit := 0x0A
  const CR: Unit := 0x0D

  /** ASCII text as code units. */
  function Ascii(s: string): (t: Text)
    requires forall i :: 0 <= i < |s| ==> s[i] < '\U{80}'
    ensures |t| == |s| && forall i :: 0 <= i < |s| ==> t[i] == s[i] as int
  {
    seq(|s|, i requires 0 <= i < |s| => s[i] as int)
  }

  lemma Assoc(a: Text, b: Text, c: Text)
    ensures (a + b) + c == a + (b + c)
  {
  }

  const NULL: Text := Ascii("null")
  const TRUE: Text := Ascii("true")
  const FALSE: Text := Ascii("false")

  predicate IsWs(u: Unit) {
    u == SPACE || u == TAB || u == LF || u == CR
  }

  predicate AllWs(s: Text) {
    forall i :: 0 <= i < |s| ==> IsWs(s[i])
  }

  predicate IsDigit(u: Unit) {
    '0' as int <= u <= '9' as int
  }

  predicate AllDigits(s: Text) {
    forall i :: 0 <= i < |s| ==> IsDigit(s[i])
  }

  /** The value of a hexadecimal digit of either case, or -1. */
  function HexDigit(u: int): (d: int)
    ensures -1 <= d < 16
  {
    if '0' as int <= u <= '9' as int then u - '0' as int
    else if 'a' as int <= u <= 'f' as int then u - 'a' as int + 10
    else if 'A' as int <= u <= 'F' as int then u - 'A' as int + 10
    else -1
  }

  predicate IsHex4(h: Text) {
    |h| == 4 && forall i :: 0 <= i < 4 ==> HexDigit(h[i]) >= 0
  }

  /** The code unit four hexadecimal digits name. */
  function Hex4(h: Text): Unit
    requires IsHex4(h)
  {
    ((HexDigit(h[0]) * 16 + HexDigit(h[1])) * 16 + HexDigit(h[2])) * 16 + HexDigit(h[3])
  }

  /** The unit a one-letter escape stands for. */
  predicate IsShortEscape(e: Unit) {
    e == QUOTE || e == BACKSLASH || e == SLASH || e == 'b' as int || e == 'f' as int
    || e == 'n' as int || e == 'r' as int || e == 't' as int
  }

  function ShortEscape(e: Unit): Unit
    requires IsShortEscape(e)
  {
    if e == 'b' as int then 0x08
    else if e == 'f' as int then 0x0C
    else if e == 'n' as int then LF
    else if e == 'r' as int then CR
    else if e == 't' as int then TAB
    else e
  }

  predicate IsHigh(u: int) {
    0xD800 <= u <= 0xDBFF
  }

  predicate IsLow(u: int) {
    0xDC00 <= u <= 0xDFFF
  }

  /** Whether some surrogate stands without its other half. */
  predicate Lone(s: Text) {
    if s == [] then false
    else if IsHigh(s[0]) then |s| == 1 || !IsLow(s[1]) || Lone(s[2..])
    else IsLow(s[0]) || Lone(s[1..])
  }

  /* ---------- numbers ---------- */

  const SAFE_INT: int := 0x1F_FFFF_FFFF_FFFF // 2^53 - 1

  function DigitsValue(s: Text): (n: int)
    requires AllDigits(s)
    ensures 0 <= n
  {
    if s == [] then 0 else DigitsValue(s[..|s| - 1]) * 10 + (s[|s| - 1] - ZERO)
  }

  /** An optional minus and digits without a leading zero. */
  predicate IsIntLexeme(s: Text) {
    var d := if s != [] && s[0] == MINUS then s[1..] else s;
    d != [] && AllDigits(d) && (d[0] == ZERO ==> |d| == 1)
  }

  function IntValue(s: Text): int
    requires IsIntLexeme(s)
  {
    if s[0] == MINUS then -DigitsValue(s[1..]) else DigitsValue(s)
  }

  predicate InRange(s: Text)
    requires IsIntLexeme(s)
  {
    -SAFE_INT <= IntValue(s) <= SAFE_INT
  }

  /** Minus zero is read as zero. */
  function Normal(s: Text): Text {
    if s == [MINUS, ZERO] then [ZERO] else s
  }

  /* ---------- values ---------- */

  /** A parsed value; a number is kept as its text and an object as its members in order. */
  datatype Value =
    | Null
    | Bool(b: bool)
    | Num(lexeme: Text)
    | Str(s: Text)
    | Arr(items: seq<Value>)
    | Obj(members: seq<Member>)

  datatype Member = Member(key: Text, value: Value)

  predicate HasKey(members: seq<Member>, key: Text) {
    exists i :: 0 <= i < |members| && members[i].key == key
  }

  predicate UniqueKeys(members: seq<Member>) {
    forall i, j :: 0 <= i < j < |members| ==> members[i].key != members[j].key
  }
}
