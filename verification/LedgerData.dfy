/**
 The data an append takes, said of all the values in it.
 */
module LedgerData {
  import opened Wrappers
  import opened JsonText
  import opened JsonPrinter
  import opened LedgerAppend

  /** A unit of a pair without its other half. */
  predicate AloneAt(s: Text, i: int) {
    && 0 <= i < |s|
    && ((0xD800 <= s[i] <= 0xDBFF && !(i + 1 < |s| && 0xDC00 <= s[i + 1] <= 0xDFFF))
        || (0xDC00 <= s[i] <= 0xDFFF && !(0 < i && 0xD800 <= s[i - 1] <= 0xDBFF)))
  }

  /** A text holds an unpaired surrogate exactly where one stands without its neighbour. */
  lemma {:induction false} LoneIs(s: Text)
    ensures Lone(s) <==> exists i :: AloneAt(s, i)
    decreases |s|
  {
    if s != [] {
      if IsHigh(s[0]) && (|s| == 1 || !IsLow(s[1])) {
        assert AloneAt(s, 0);
      } else if IsLow(s[0]) {
        assert AloneAt(s, 0);
      } else {
        var n := if IsHigh(s[0]) then 2 else 1;
        LoneIs(s[n..]);
        AloneBehind(s, n);
      }
    }
  }

  lemma AloneBehind(s: Text, n: nat)
    requires s != [] && n == (if IsHigh(s[0]) then 2 else 1) && !IsLow(s[0]) && (n == 2 ==> 1 < |s| && IsLow(s[1]))
    ensures (exists i :: AloneAt(s, i)) <==> exists i :: AloneAt(s[n..], i)
  {
    if i :| AloneAt(s, i) {
      assert n <= i;
      assert AloneAt(s[n..], i - n);
    }
    if i :| AloneAt(s[n..], i) {
      assert AloneAt(s, i + n);
    }
  }

  /** A value and all values in it; the keys of objects are not among them. */
  function Within(v: Value): set<Value>
    decreases v, 1
  {
    {v} + match v
          case Arr(items) => WithinItems(items)
          case Obj(members) => WithinMembers(members)
          case _ => {}
  }

  function WithinItems(vs: seq<Value>): set<Value>
    decreases vs, 0
  {
    if vs == [] then {} else Within(vs[0]) + WithinItems(vs[1..])
  }

  function WithinMembers(ms: seq<Member>): set<Value>
    decreases ms, 0
  {
    if ms == [] then {} else Within(ms[0].value) + WithinMembers(ms[1..])
  }

  /** A number within 2^53 - 1, or a string whose surrogates are paired, or a value of another kind. */
  predicate Takes(v: Value) {
    match v
    case Num(lexeme) => IsIntLexeme(lexeme) && -9007199254740991 <= IntValue(lexeme) <= 9007199254740991
    case Str(s) => forall i :: 0 <= i < |s| ==> !AloneAt(s, i)
    case _ => true
  }

  ghost predicate TakesAll(vs: set<Value>) {
    forall v <- vs :: Takes(v)
  }

  lemma TakesBoth(a: set<Value>, b: set<Value>)
    ensures TakesAll(a + b) <==> TakesAll(a) && TakesAll(b)
  {
  }

  /** An append takes data exactly when every number and every string value in it, at any depth, is one it takes; keys are not looked at. */
  lemma {:induction false} TakenData(v: Value)
    requires InMemory(v)
    ensures CheckPortable(v) <==> TakesAll(Within(v))
    decreases v, 1
  {
    match v
    case Arr(items) =>
      TakenItems(items);
      TakesBoth({v}, WithinItems(items));
    case Obj(members) =>
      TakenMembers(members);
      TakesBoth({v}, WithinMembers(members));
    case Str(s) => LoneIs(s);
    case _ =>
  }

  lemma {:induction false} TakenItems(vs: seq<Value>)
    requires ItemsInMemory(vs)
    ensures CheckItems(vs) <==> TakesAll(WithinItems(vs))
    decreases vs, 0
  {
    if vs != [] {
      TakenData(vs[0]);
      TakenItems(vs[1..]);
      TakesBoth(Within(vs[0]), WithinItems(vs[1..]));
    }
  }

  lemma {:induction false} TakenMembers(ms: seq<Member>)
    requires MembersInMemory(ms)
    ensures CheckMembers(ms) <==> TakesAll(WithinMembers(ms))
    decreases ms, 0
  {
    if ms != [] {
      TakenData(ms[0].value);
      TakenMembers(ms[1..]);
      TakesBoth(Within(ms[0].value), WithinMembers(ms[1..]));
    }
  }
}
