/**
 The parser as it runs: one object that holds the text and advances a position.
 Every method reads exactly what the functions of JsonParser say it reads.
 */
module JsonReader {
  import opened Wrappers
  import opened JsonText
  import opened JsonNesting
  import opened JsonSurrogates
  import opened JsonParser

  /** A result and the text left agree with what is to be read. */
  ghost predicate Follows<T>(r: Option<T>, expected: Parse<T>, left: Text) {
    match expected
    case Bad => r == None
    case Good(v, rest) => r == Some(v) && left == rest
  }

  /** What an escape stands for, and how many units it takes. */
  function EscapeAt(t: Text): Option<(Unit, nat)>
    requires t != []
  {
    if |t| == 1 then None
    else if t[1] == LOWER_U then (if |t| < 6 || !IsHex4(t[2..6]) then None else Some((Hex4(t[2..6]), 6)))
    else if IsShortEscape(t[1]) then Some((ShortEscape(t[1]), 2))
    else None
  }

  lemma EscapeReads(acc: Text, t: Text)
    requires t != [] && t[0] == BACKSLASH
    ensures var e := EscapeAt(t);
            if e.None? then ReadChars(acc, t) == Bad
            else e.value.1 <= |t| && ReadChars(acc, t) == ReadChars(acc + [e.value.0], t[e.value.1..])
  {
  }

  /** What the first unit of the characters left decides, an escape apart. */
  lemma CharReads(acc: Text, t: Text)
    requires t != [] && t[0] != BACKSLASH
    ensures ReadChars(acc, t) == if t[0] == QUOTE then Good(acc, t[1..])
                                 else if t[0] < 0x20 then Bad
                                 else ReadChars(acc + [t[0]], t[1..])
  {
  }

  /** A text that begins with no digit behind an optional sign holds no number. */
  lemma NoLexeme(t: Text, sign: nat)
    requires sign == (if t != [] && t[0] == MINUS then 1 else 0) && (|t| == sign || !IsDigit(t[sign]))
    ensures ReadNumber(t) == Bad
  {
  }

  /** A lexeme of n units in front of a text, and what the parser makes of it. */
  lemma LexemeReads(t: Text, sign: nat, n: nat)
    requires t != [] && sign == (if t[0] == MINUS then 1 else 0) && sign < n <= |t| && IsDigit(t[sign])
    requires n - sign == if t[sign] == ZERO then 1 else DigitSpan(t[sign..])
    ensures IsIntLexeme(t[..n]) && ReadNumber(t) == AfterLexeme(t[..n], t[n..])
  {
    LexemeAt(t, sign, n);
  }

  lemma CutText(s: Text, st: nat, i: nat)
    requires st <= i <= |s|
    ensures s[st..][..i - st] == s[st..i] && s[st..][i - st..] == s[i..]
  {
  }

  /** What a lexeme is read as, by what stands behind it. */
  function AfterLexeme(lex: Text, rest: Text): Parse<JsonText.Value>
    requires IsIntLexeme(lex)
  {
    NormalKeepsValue(lex);
    if rest != [] && (rest[0] == DOT || rest[0] == LOWER_E || rest[0] == UPPER_E) then Bad
    else if !InRange(Normal(lex)) then Bad
    else Good(Num(Normal(lex)), rest)
  }

  class Parser {
    const s: Text
    var i: nat

    constructor (s: Text)
      ensures this.s == s && i == 0
    {
      this.s, i := s, 0;
    }

    ghost predicate Valid()
      reads this
    {
      i <= |s|
    }

    /** The text not yet read. */
    ghost function Left(): Text
      requires Valid()
      reads this
    {
      s[i..]
    }

    method Ws()
      requires Valid()
      modifies this
      ensures Valid() && old(i) <= i && Left() == SkipWs(old(Left()))
    {
      while i < |s| && IsWs(s[i])
        invariant Valid() && old(i) <= i
        invariant SkipWs(Left()) == SkipWs(old(Left()))
        decreases |s| - i
      {
        i := i + 1;
      }
    }

    method Value() returns (v: Option<Value>)
      requires Valid()
      modifies this
      ensures Valid() && Follows(v, ReadValue(old(Left())), Left())
      decreases |s| - i, 1
    {
      if i == |s| {
        return None;
      }
      var c := s[i];
      if c == LBRACE {
        v := Object();
      } else if c == LBRACKET {
        v := Array();
      } else if c == QUOTE {
        var text := String();
        v := if text.Some? then Some(Str(text.value)) else None;
      } else if c == 't' as int {
        v := Literal(TRUE, Bool(true));
      } else if c == 'f' as int {
        v := Literal(FALSE, Bool(false));
      } else if c == 'n' as int {
        v := Literal(NULL, Null);
      } else {
        v := Number();
      }
    }

    method Literal(word: Text, value: Value) returns (v: Option<Value>)
      requires Valid()
      modifies this
      ensures Valid() && Follows(v, ReadLiteral(old(Left()), word, value), Left())
    {
      if !(word <= s[i..]) {
        return None;
      }
      i := i + |word|;
      v := Some(value);
    }

    method Object() returns (v: Option<Value>)
      requires Valid() && i < |s| && s[i] == LBRACE
      modifies this
      ensures Valid() && Follows(v, ReadValue(old(Left())), Left())
      decreases |s| - i, 0
    {
      i := i + 1;
      Ws();
      if i == |s| {
        return None;
      }
      if s[i] == RBRACE {
        i := i + 1;
        return Some(Obj([]));
      }
      var members: seq<Member> := [];
      ghost var expected := ReadMembers([], Left());
      while true
        invariant Valid() && old(i) < i
        invariant ReadMembers(members, Left()) == expected
        decreases |s| - i
      {
        var member := MemberAndComma();
        if member == None || HasKey(members, member.value.0.key) {
          return None;
        }
        members := members + [member.value.0];
        if member.value.1 {
          return Some(Obj(members));
        }
      }
    }

    /** One turn of the loop over members: the member read, and whether it was the last. */
    method MemberAndComma() returns (member: Option<(Member, bool)>)
      requires Valid()
      modifies this
      ensures Valid() && Follows(member, ReadMember(old(Left())), Left())
      decreases |s| - i, 2
    {
      var key := Key();
      if key == None {
        return None;
      }
      var value := Value();
      if value == None {
        return None;
      }
      Ws();
      if i == |s| || (s[i] != RBRACE && s[i] != COMMA) {
        return None;
      }
      i := i + 1;
      return Some((Member(key.value, value.value), s[i - 1] == RBRACE));
    }

    /** A key, its colon, and the white space around them. */
    method Key() returns (key: Option<Text>)
      requires Valid()
      modifies this
      ensures Valid() && Follows(key, ReadKey(old(Left())), Left())
    {
      Ws();
      if i == |s| || s[i] != QUOTE {
        return None;
      }
      key := String();
      if key == None {
        return None;
      }
      var colon := Colon();
      if !colon {
        return None;
      }
    }

    /** A colon between white space. */
    method Colon() returns (found: bool)
      requires Valid()
      modifies this
      ensures Valid()
      ensures found <==> SkipWs(old(Left())) != [] && SkipWs(old(Left()))[0] == COLON
      ensures found ==> Left() == SkipWs(SkipWs(old(Left()))[1..])
    {
      Ws();
      if i == |s| || s[i] != COLON {
        return false;
      }
      i := i + 1;
      Ws();
      return true;
    }

    method Array() returns (v: Option<Value>)
      requires Valid() && i < |s| && s[i] == LBRACKET
      modifies this
      ensures Valid() && Follows(v, ReadValue(old(Left())), Left())
      decreases |s| - i, 0
    {
      i := i + 1;
      Ws();
      if i == |s| {
        return None;
      }
      if s[i] == RBRACKET {
        i := i + 1;
        return Some(Arr([]));
      }
      var items: seq<JsonText.Value> := [];
      ghost var expected := ReadItems([], Left());
      while true
        invariant Valid() && old(i) < i
        invariant ReadItems(items, Left()) == expected
        decreases |s| - i
      {
        var item := ItemAndComma();
        if item == None {
          return None;
        }
        items := items + [item.value.0];
        if item.value.1 {
          return Some(Arr(items));
        }
      }
    }

    /** One turn of the loop over items: the item read, and whether it was the last. */
    method ItemAndComma() returns (item: Option<(JsonText.Value, bool)>)
      requires Valid()
      modifies this
      ensures Valid() && Follows(item, ReadItem(old(Left())), Left())
      decreases |s| - i, 2
    {
      Ws();
      var value := Value();
      if value == None {
        return None;
      }
      Ws();
      if i == |s| || (s[i] != RBRACKET && s[i] != COMMA) {
        return None;
      }
      i := i + 1;
      return Some((value.value, s[i - 1] == RBRACKET));
    }

    method String() returns (text: Option<Text>)
      requires Valid() && i < |s|
      modifies this
      ensures Valid() && Follows(text, ReadChars([], old(Left())[1..]), Left())
    {
      i := i + 1;
      var st := i;
      PlainRun();
      // a string without escapes or control characters is one piece of the text
      if i < |s| && s[i] == QUOTE {
        CharReads(s[st..i], Left());
        text := Some(s[st..i]);
        i := i + 1;
        return;
      }
      text := RestOfString(s[st..i]);
    }

    /** The characters up to a quote, an escape or a control character. */
    method PlainRun()
      requires Valid()
      modifies this
      ensures Valid() && old(i) <= i
      ensures ReadChars(s[old(i)..i], Left()) == ReadChars([], old(Left()))
    {
      ghost var st, expected := i, ReadChars([], Left());
      assert s[st..st] == [];
      while i < |s| && s[i] != QUOTE && s[i] != BACKSLASH && s[i] >= 0x20
        invariant Valid() && st <= i
        invariant ReadChars(s[st..i], Left()) == expected
        decreases |s| - i
      {
        CharReads(s[st..i], Left());
        assert s[st..i] + [s[i]] == s[st..i + 1];
        i := i + 1;
      }
    }

    /** The characters of a string from the first escape on. */
    method RestOfString(first: Text) returns (text: Option<Text>)
      requires Valid()
      modifies this
      ensures Valid() && Follows(text, ReadChars(first, old(Left())), Left())
    {
      var b := first;
      while true
        invariant Valid()
        invariant ReadChars(b, Left()) == ReadChars(first, old(Left()))
        decreases |s| - i
      {
        if i == |s| {
          return None;
        }
        var c := s[i];
        if c == QUOTE {
          i := i + 1;
          return Some(b);
        }
        if c < 0x20 {
          return None;
        }
        if c != BACKSLASH {
          i := i + 1;
          b := b + [c];
          continue;
        }
        EscapeReads(b, Left());
        var u := Escape();
        if u == None {
          return None;
        }
        b := b + [u.value];
      }
    }

    /** One escape: what it stands for, the position moved past it. */
    method Escape() returns (u: Option<Unit>)
      requires Valid() && i < |s| && s[i] == BACKSLASH
      modifies this
      ensures Valid()
      ensures u.Some? <==> EscapeAt(old(Left())).Some?
      ensures u.Some? ==> u.value == EscapeAt(old(Left())).value.0 && i == old(i) + EscapeAt(old(Left())).value.1
    {
      i := i + 1;
      if i == |s| {
        return None;
      }
      var e := s[i];
      i := i + 1;
      if e == LOWER_U {
        if i + 4 > |s| || !IsHex4(s[i..i + 4]) {
          return None;
        }
        u := Some(Hex4(s[i..i + 4]));
        i := i + 4;
      } else if IsShortEscape(e) {
        u := Some(ShortEscape(e));
      } else {
        return None;
      }
    }

    /** A sign and digits. */
    method Lexeme() returns (lex: Option<Text>)
      requires Valid()
      modifies this
      ensures Valid() && old(i) <= i
      ensures lex == None ==> ReadNumber(old(Left())) == Bad
      ensures lex.Some? ==> IsIntLexeme(lex.value) && ReadNumber(old(Left())) == AfterLexeme(lex.value, Left())
    {
      var st := i;
      if i < |s| && s[i] == MINUS {
        i := i + 1;
      }
      ghost var sign := i - st;
      if i == |s| || !IsDigit(s[i]) {
        NoLexeme(s[st..], sign);
        return None;
      }
      assert s[st..][sign..] == s[i..];
      Digits();
      LexemeReads(s[st..], sign, i - st);
      CutText(s, st, i);
      return Some(s[st..i]);
    }

    method Number() returns (v: Option<Value>)
      requires Valid()
      modifies this
      ensures Valid() && Follows(v, ReadNumber(old(Left())), Left())
    {
      var read := Lexeme();
      if read == None {
        return None;
      }
      if i < |s| && (s[i] == DOT || s[i] == LOWER_E || s[i] == UPPER_E) {
        return None;
      }
      var lex := Normal(read.value);
      if !InRange(lex) {
        return None;
      }
      return Some(Num(lex));
    }

    /** The digits of a whole number: a zero alone, or all that follow. */
    method Digits()
      requires Valid() && i < |s| && IsDigit(s[i])
      modifies this
      ensures Valid() && old(i) < i
      ensures i - old(i) == if s[old(i)] == ZERO then 1 else DigitSpan(old(Left()))
    {
      if s[i] == ZERO {
        i := i + 1;
        return;
      }
      while i < |s| && IsDigit(s[i])
        invariant Valid() && old(i) <= i
        invariant i - old(i) + DigitSpan(Left()) == DigitSpan(old(Left()))
        decreases |s| - i
      {
        i := i + 1;
      }
    }
  }

  /** One text, parsed whole. */
  method Parse(text: Text) returns (v: Option<Value>)
    ensures v == ParseText(text)
  {
    var depth := NestingDepth(text);
    if depth > MAX_DEPTH {
      return None;
    }
    var lone := HasLoneSurrogate(text);
    if lone {
      return None;
    }
    var p := new Parser(text);
    p.Ws();
    v := p.Value();
    if v == None {
      return None;
    }
    p.Ws();
    if p.i != |text| {
      return None;
    }
  }
}
