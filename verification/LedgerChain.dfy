/**
 A hash-chained ledger: one entry a line, each linked to the one before. Verifying a text,
 replaying it from a known state, and the loop of the second verifier, which stops at the
 first break.
 */
module LedgerChain {
  import opened Wrappers
  import opened JsonText
  import opened JsonParser
  import opened JsonPrinter
  import opened JsonCanonical
  import opened LedgerLines

  /** 64 lower-case hexadecimal digits. */
  predicate IsHex64(t: Text) {
    |t| == 64 && forall i :: 0 <= i < 64 ==> IsDigit(t[i]) || 'a' as int <= t[i] <= 'f' as int
  }

  function Zeros(n: nat): (z: Text)
    ensures |z| == n && forall i :: 0 <= i < n ==> z[i] == ZERO
  {
    if n == 0 then [] else [ZERO] + Zeros(n - 1)
  }

  const GENESIS: Text := Zeros(64)

  /** The digest of a text under a hash of which only the form of its results is known. */
  function Digest(h: Text -> Text, t: Text): (d: Text)
    ensures IsHex64(d)
  {
    if IsHex64(h(t)) then h(t) else GENESIS
  }

  const IDX: Text := Ascii("idx")
  const TS: Text := Ascii("ts")
  const DATA: Text := Ascii("data")
  const PREV_HASH: Text := Ascii("prev_hash")
  const SELF_HASH: Text := Ascii("self_hash")

  const BAD_KEPT := 1000

  /* ---------- entries ---------- */

  type Entry = seq<Member>

  /** The member of a key, when the object has one. */
  function Get(members: Entry, key: Text): Option<Value> {
    if members == [] then None
    else if members[0].key == key then Some(members[0].value)
    else Get(members[1..], key)
  }

  function Without(members: Entry, key: Text): Entry {
    if members == [] then []
    else if members[0].key == key then Without(members[1..], key)
    else [members[0]] + Without(members[1..], key)
  }

  /** What an entry's self_hash covers: the canonical form of everything else. */
  function Payload(e: Entry): Text {
    Canonical(Obj(Without(e, SELF_HASH)))
  }

  function HashEntry(h: Text -> Text, e: Entry): Text {
    Digest(h, Payload(e))
  }

  /** The entry on a line, when the line is an object of the profile. */
  function EntryOn(line: Text): Option<Entry> {
    match ParseText(Strip(line))
    case Some(Obj(members)) => Some(members)
    case _ => None
  }

  /** The digits of a number. */
  function Decimal(n: nat): (d: Text)
    ensures d != [] && AllDigits(d) && DigitsValue(d) == n
    ensures d[0] == ZERO <==> n == 0
    ensures n == 0 ==> |d| == 1
  {
    if n < 10 then
      assert [ZERO + n][..0] == [];
      [ZERO + n]
    else
      var front := Decimal(n / 10);
      var d := front + [ZERO + n % 10];
      assert d[..|d| - 1] == front;
      d
  }

  /** The number of entries so far and the hash the next one must link to. */
  datatype State = State(count: nat, last: Text)

  const START: State := State(0, GENESIS)

  /** The entry links to the last hash and carries its own; when indexed, it is also numbered in turn. */
  predicate Follows(h: Text -> Text, indexed: bool, e: Entry, st: State) {
    && (indexed ==> Get(e, IDX) == Some(Num(Decimal(st.count))))
    && Get(e, PREV_HASH) == Some(Str(st.last))
    && Get(e, SELF_HASH) == Some(Str(HashEntry(h, e)))
  }

  function After(h: Text -> Text, e: Entry, st: State): State {
    State(st.count + 1, HashEntry(h, e))
  }

  /** The state behind a line that is blank or holds an entry that follows. */
  function Pass(h: Text -> Text, indexed: bool, line: Text, st: State): Option<State> {
    if Strip(line) == [] then Some(st)
    else
      match EntryOn(line)
      case None => None
      case Some(e) => if Follows(h, indexed, e, st) then Some(After(h, e, st)) else None
  }

  /** The state behind a run of lines, each of which passes. */
  function Walk(h: Text -> Text, indexed: bool, lines: seq<Text>, st: State): Option<State>
    decreases |lines|
  {
    if lines == [] then Some(st)
    else
      match Pass(h, indexed, lines[0], st)
      case None => None
      case Some(next) => Walk(h, indexed, lines[1..], next)
  }

  /** The text is a ledger: every entry in its place. */
  predicate Verifies(h: Text -> Text, text: Text) {
    Walk(h, true, Lines(text), START).Some?
  }

  /* ---------- the declared chain ---------- */

  /** The entries on the lines that are not blank, when each holds one. */
  function Entries(lines: seq<Text>): Option<seq<Entry>>
    decreases |lines|
  {
    if lines == [] then Some([])
    else if Strip(lines[0]) == [] then Entries(lines[1..])
    else
      match (EntryOn(lines[0]), Entries(lines[1..]))
      case (Some(e), Some(es)) => Some([e] + es)
      case _ => None
  }

  /** The hash the k-th entry must link to. */
  function PrevOf(h: Text -> Text, es: seq<Entry>, k: nat): Text
    requires k <= |es|
  {
    if k == 0 then GENESIS else HashEntry(h, es[k - 1])
  }

  /** Sequential idx from zero, the hash of each entry's content in it and in the next entry's prev_hash. */
  ghost predicate IsChain(h: Text -> Text, es: seq<Entry>) {
    forall k :: 0 <= k < |es| ==> InPlace(h, es, k)
  }

  predicate InPlace(h: Text -> Text, es: seq<Entry>, k: nat)
    requires k < |es|
  {
    && Get(es[k], IDX) == Some(Num(Decimal(k)))
    && Get(es[k], PREV_HASH) == Some(Str(PrevOf(h, es, k)))
    && Get(es[k], SELF_HASH) == Some(Str(HashEntry(h, es[k])))
  }

  /** The state before the k-th entry of a run from a given state. */
  function StateAt(h: Text -> Text, es: seq<Entry>, st: State, k: nat): State
    requires k <= |es|
  {
    State(st.count + k, if k == 0 then st.last else HashEntry(h, es[k - 1]))
  }

  ghost predicate Linked(h: Text -> Text, indexed: bool, es: seq<Entry>, st: State) {
    forall k :: 0 <= k < |es| ==> FollowsAt(h, indexed, es, st, k)
  }

  predicate FollowsAt(h: Text -> Text, indexed: bool, es: seq<Entry>, st: State, k: nat)
    requires k < |es|
  {
    Follows(h, indexed, es[k], StateAt(h, es, st, k))
  }

  /** A walk goes through exactly when there are entries and each is linked to the one before. */
  lemma {:induction false} WalkIsLinked(h: Text -> Text, indexed: bool, lines: seq<Text>, st: State)
    ensures var es := Entries(lines);
            Walk(h, indexed, lines, st) ==
            if es.Some? && Linked(h, indexed, es.value, st) then Some(StateAt(h, es.value, st, |es.value|)) else None
    decreases |lines|
  {
    if lines == [] {
    } else if Strip(lines[0]) == [] {
      WalkIsLinked(h, indexed, lines[1..], st);
    } else if EntryOn(lines[0]).Some? && Entries(lines[1..]).Some? {
      var e, es := EntryOn(lines[0]).value, Entries(lines[1..]).value;
      WalkIsLinked(h, indexed, lines[1..], After(h, e, st));
      LinkedFirst(h, indexed, e, es, st);
    } else if EntryOn(lines[0]).Some? {
      WalkIsLinked(h, indexed, lines[1..], After(h, EntryOn(lines[0]).value, st));
    }
  }

  lemma LinkedFirst(h: Text -> Text, indexed: bool, e: Entry, es: seq<Entry>, st: State)
    ensures Linked(h, indexed, [e] + es, st) <==> Follows(h, indexed, e, st) && Linked(h, indexed, es, After(h, e, st))
    ensures StateAt(h, [e] + es, st, |[e] + es|) == StateAt(h, es, After(h, e, st), |es|)
  {
    var all, next := [e] + es, After(h, e, st);
    assert StateAt(h, all, st, 0) == st && all[0] == e;
    forall k | 0 <= k < |es|
      ensures FollowsAt(h, indexed, all, st, k + 1) <==> FollowsAt(h, indexed, es, next, k)
    {
      assert all[k + 1] == es[k] && (0 < k ==> all[k] == es[k - 1]);
    }
    if Linked(h, indexed, all, st) {
      assert FollowsAt(h, indexed, all, st, 0);
      forall k | 0 <= k < |es| ensures FollowsAt(h, indexed, es, next, k) {
        assert FollowsAt(h, indexed, all, st, k + 1);
      }
    }
    if Follows(h, indexed, e, st) && Linked(h, indexed, es, next) {
      forall k | 0 <= k < |all| ensures FollowsAt(h, indexed, all, st, k) {
        assert 0 < k ==> FollowsAt(h, indexed, es, next, k - 1);
      }
    }
  }

  /** A text verifies exactly when its lines hold the declared chain. */
  lemma VerifiesIsChain(h: Text -> Text, text: Text)
    ensures Verifies(h, text) <==> Entries(Lines(text)).Some? && IsChain(h, Entries(Lines(text)).value)
  {
    WalkIsLinked(h, true, Lines(text), START);
    if Entries(Lines(text)).Some? {
      LinkedFromStart(h, Entries(Lines(text)).value);
    }
  }

  lemma LinkedFromStart(h: Text -> Text, es: seq<Entry>)
    ensures Linked(h, true, es, START) <==> IsChain(h, es)
  {
    forall k | 0 <= k < |es|
      ensures FollowsAt(h, true, es, START, k) <==> InPlace(h, es, k)
    {
      assert StateAt(h, es, START, k) == State(k, PrevOf(h, es, k));
    }
  }

  /* ---------- walking on ---------- */

  lemma {:induction false} WalkAppend(h: Text -> Text, indexed: bool, a: seq<Text>, b: seq<Text>, st: State)
    ensures Walk(h, indexed, a + b, st) ==
            match Walk(h, indexed, a, st) case None => None case Some(mid) => Walk(h, indexed, b, mid)
    decreases |a|
  {
    if a == [] {
      assert a + b == b;
    } else {
      assert (a + b)[1..] == a[1..] + b;
      if Pass(h, indexed, a[0], st).Some? {
        WalkAppend(h, indexed, a[1..], b, Pass(h, indexed, a[0], st).value);
      }
    }
  }

  /** The last line holds nothing, as in an empty text and in one that ends with LF. */
  predicate EndsBlank(text: Text) {
    AllWs(LastLine(text))
  }

  lemma WalkOneMore(h: Text -> Text, indexed: bool, line: Text, rest: seq<Text>, st: State)
    ensures Walk(h, indexed, [line] + rest, st) ==
            match Pass(h, indexed, line, st) case None => None case Some(next) => Walk(h, indexed, rest, next)
  {
    assert ([line] + rest)[1..] == rest;
  }

  /** Behind a blank last line a text is walked on from where the walk of the first part ended. */
  lemma WalkText(h: Text -> Text, indexed: bool, a: Text, b: Text, st: State)
    requires EndsBlank(a)
    ensures Walk(h, indexed, Lines(a + b), st) ==
            match Walk(h, indexed, Lines(a), st) case None => None case Some(mid) => Walk(h, indexed, Lines(b), mid)
  {
    LinesJoin(a, b);
    WalkJoined(h, indexed, Lines(a), Lines(b), st);
  }

  lemma WalkJoined(h: Text -> Text, indexed: bool, a: seq<Text>, b: seq<Text>, st: State)
    requires a != [] && b != [] && AllWs(a[|a| - 1])
    ensures Walk(h, indexed, RunTogether(a, b), st) ==
            match Walk(h, indexed, a, st) case None => None case Some(mid) => Walk(h, indexed, b, mid)
  {
    var front, blank := a[..|a| - 1], a[|a| - 1];
    var joined := blank + b[0];
    assert a == front + [blank] && b == [b[0]] + b[1..];
    assert RunTogether(a, b) == front + ([joined] + b[1..]);
    WalkAppend(h, indexed, front, [blank], st);
    WalkAppend(h, indexed, front, [joined] + b[1..], st);
    if Walk(h, indexed, front, st).Some? {
      WalkPastBlank(h, indexed, blank, b[0], b[1..], Walk(h, indexed, front, st).value);
    }
  }

  lemma WalkPastBlank(h: Text -> Text, indexed: bool, blank: Text, line: Text, rest: seq<Text>, st: State)
    requires AllWs(blank)
    ensures Walk(h, indexed, [blank], st) == Some(st)
    ensures Walk(h, indexed, [blank + line] + rest, st) == Walk(h, indexed, [line] + rest, st)
  {
    StripBlank(blank);
    StripLeftOf(blank, line);
    WalkOneMore(h, indexed, blank, [], st);
    WalkOneMore(h, indexed, blank + line, rest, st);
    WalkOneMore(h, indexed, line, rest, st);
    assert [blank] + [] == [blank];
  }

  /** A walk that checks numbers arrives where one that does not arrives. */
  lemma {:induction false} IndexedIsReplayed(h: Text -> Text, lines: seq<Text>, st: State)
    requires Walk(h, true, lines, st).Some?
    ensures Walk(h, false, lines, st) == Walk(h, true, lines, st)
    decreases |lines|
  {
    if lines != [] {
      IndexedIsReplayed(h, lines[1..], Pass(h, true, lines[0], st).value);
    }
  }

  /* ---------- verifying a text ---------- */

  /** The hash the next entry must link to: a self_hash that is no string leaves the last one. */
  function NextPrev(e: Entry, prev: Text): Text {
    match Get(e, SELF_HASH)
    case Some(Str(s)) => s
    case _ => prev
  }

  /** The state behind a line that is not blank, good or bad. */
  function Onward(line: Text, st: State): State {
    match EntryOn(line)
    case None => State(st.count + 1, st.last)
    case Some(e) => State(st.count + 1, NextPrev(e, st.last))
  }

  predicate IsDue(h: Text -> Text, line: Text, st: State) {
    EntryOn(line).Some? && Follows(h, true, EntryOn(line).value, st)
  }

  /** Neither blank nor the entry due. */
  predicate IsBad(h: Text -> Text, line: Text, st: State) {
    Strip(line) != [] && !IsDue(h, line, st)
  }

  function Behind(line: Text, st: State): State {
    if Strip(line) == [] then st else Onward(line, st)
  }

  /** The numbers of the bad lines, the first line being number i. */
  function BadFrom(h: Text -> Text, lines: seq<Text>, i: nat, st: State): seq<nat>
    decreases |lines|
  {
    if lines == [] then []
    else (if IsBad(h, lines[0], st) then [i] else []) + BadFrom(h, lines[1..], i + 1, Behind(lines[0], st))
  }

  function BadLines(h: Text -> Text, text: Text): seq<nat> {
    BadFrom(h, Lines(text), 0, START)
  }

  ghost predicate IncreasesWithin(s: seq<nat>, lo: nat, hi: nat) {
    && (forall k :: 0 <= k < |s| ==> lo <= s[k] < hi)
    && (forall j, k :: 0 <= j < k < |s| ==> s[j] < s[k])
  }

  /** Bad lines are reported in strictly increasing order, and each is a line of the text. */
  lemma {:induction false} BadLinesIncrease(h: Text -> Text, lines: seq<Text>, i: nat, st: State)
    ensures IncreasesWithin(BadFrom(h, lines, i, st), i, i + |lines|)
    decreases |lines|
  {
    if lines != [] {
      BadLinesIncrease(h, lines[1..], i + 1, Behind(lines[0], st));
    }
  }

  /** The first bad line is the first break: the lines before any point walk through exactly when no bad line is among them. */
  lemma {:induction false} FirstBadIsFirstBreak(h: Text -> Text, lines: seq<Text>, i: nat, st: State, j: nat)
    requires j <= |lines|
    ensures Walk(h, true, lines[..j], st).Some? <==>
            (BadFrom(h, lines, i, st) == [] || i + j <= BadFrom(h, lines, i, st)[0])
    decreases |lines|
  {
    if lines != [] && 0 < j {
      var next := Behind(lines[0], st);
      PassIsNotBad(h, lines[0], st);
      BadLinesIncrease(h, lines[1..], i + 1, next);
      FirstBadIsFirstBreak(h, lines[1..], i + 1, next, j - 1);
      assert lines[..j] == [lines[0]] + lines[1..][..j - 1];
      WalkOneMore(h, true, lines[0], lines[1..][..j - 1], st);
    } else {
      BadLinesIncrease(h, lines, i, st);
    }
  }

  lemma PassIsNotBad(h: Text -> Text, line: Text, st: State)
    ensures Pass(h, true, line, st) == if IsBad(h, line, st) then None else Some(Behind(line, st))
  {
  }

  lemma NoBadIsVerified(h: Text -> Text, text: Text)
    ensures BadLines(h, text) == [] <==> Verifies(h, text)
  {
    var ls := Lines(text);
    FirstBadIsFirstBreak(h, ls, 0, START, |ls|);
    BadLinesIncrease(h, ls, 0, START);
    assert ls[..|ls|] == ls;
  }

  function Shortest(s: seq<nat>, n: nat): seq<nat> {
    if |s| <= n then s else s[..n]
  }

  /** The line from a position on, and where the next one starts, if there is one. */
  method NextLine(text: Text, start: nat) returns (line: Text, next: Option<nat>)
    requires start <= |text|
    ensures next.Some? ==> start < next.value <= |text|
    ensures Lines(text[start..]) == [line] + match next case None => [] case Some(k) => Lines(text[k..])
  {
    var e := start;
    while e < |text| && text[e] != LF
      invariant start <= e <= |text|
      invariant forall k :: start <= k < e ==> text[k] != LF
    {
      e := e + 1;
    }
    line := text[start..e];
    assert OneLine(line);
    if e == |text| {
      ToTheEnd(text, start);
      LinesOfOne(line);
      return line, None;
    }
    CutAt(text, start, e);
    LinesSplit(line, text[e + 1..]);
    return line, Some(e + 1);
  }

  lemma ToTheEnd(text: Text, start: nat)
    requires start <= |text|
    ensures text[start..|text|] == text[start..]
  {
  }

  lemma CutAt(text: Text, start: nat, e: nat)
    requires start <= e < |text|
    ensures text[start..] == text[start..e] + [text[e]] + text[e + 1..]
  {
  }

  /** The lines not yet read. */
  function Left(text: Text, next: Option<nat>): seq<Text>
    requires next.Some? ==> next.value <= |text|
  {
    match next
    case None => []
    case Some(k) => Lines(text[k..])
  }

  lemma BadOneMore(h: Text -> Text, bad: seq<nat>, line: Text, rest: seq<Text>, i: nat, st: State)
    ensures bad + BadFrom(h, [line] + rest, i, st) ==
            (if IsBad(h, line, st) then bad + [i] else bad) + BadFrom(h, rest, i + 1, Behind(line, st))
  {
    assert ([line] + rest)[1..] == rest;
  }

  /** One line against the hash and the number it must carry; a blank one counts for nothing. */
  method CheckLine(h: Text -> Text, line: Text, n: nat, prev: Text) returns (bad: bool, n': nat, prev': Text)
    ensures bad <==> IsBad(h, line, State(n, prev))
    ensures State(n', prev') == Behind(line, State(n, prev))
  {
    bad, n', prev' := false, n, prev;
    if Strip(line) != [] {
      match EntryOn(line) {
        case None =>
          bad := true;
        case Some(e) =>
          bad := !Follows(h, true, e, State(n, prev));
          prev' := NextPrev(e, prev);
      }
      n' := n + 1;
    }
  }

  /** The whole ledger in one pass; reading stops once BAD_KEPT bad lines are found. */
  method VerifyText(h: Text -> Text, text: Text) returns (ok: bool, bad: seq<nat>)
    ensures ok <==> Verifies(h, text)
    ensures bad == Shortest(BadLines(h, text), BAD_KEPT)
    ensures |bad| <= 1000 && bad <= BadLines(h, text) && (|bad| < 1000 ==> bad == BadLines(h, text))
  {
    bad := [];
    var broken := false;
    var prev, n, i := GENESIS, 0, 0;
    var next: Option<nat> := Some(0);
    assert text[0..] == text;
    while next != None && |bad| < BAD_KEPT
      invariant next.Some? ==> next.value <= |text|
      invariant broken <==> bad != []
      invariant |bad| <= BAD_KEPT
      invariant BadLines(h, text) == bad + BadFrom(h, Left(text, next), i, State(n, prev))
      decreases match next case None => 0 case Some(k) => |text| - k + 1
    {
      var line: Text;
      line, next := NextLine(text, next.value);
      BadOneMore(h, bad, line, Left(text, next), i, State(n, prev));
      var isBad: bool;
      isBad, n, prev := CheckLine(h, line, n, prev);
      if isBad {
        bad, broken := bad + [i], true;
      }
      i := i + 1;
    }
    ok := !broken;
    NoBadIsVerified(h, text);
  }
}
