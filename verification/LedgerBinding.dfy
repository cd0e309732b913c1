/**
 What the last self_hash of a ledger fixes: every entry before it, and how many there are.

 Each hash covers its entry's idx and prev_hash, so two chains that end alike agree link
 by link towards the front, and the idx says how many links there are. Nothing is assumed
 of the hash: the statement is that the entries agree or that two of their contents have
 one hash without being the same.
 */
module LedgerBinding {
  import opened Wrappers
  import opened JsonText
  import opened JsonParser
  import opened JsonPrinter
  import opened JsonCanonical
  import opened LedgerLines
  import opened LedgerChain

  /* ---------- members of an object ---------- */

  lemma {:induction false} GetIsMember(ms: Entry, key: Text)
    ensures Get(ms, key).Some? ==> Member(key, Get(ms, key).value) in ms
    ensures Get(ms, key).None? ==> !HasKey(ms, key)
    decreases |ms|
  {
    if ms != [] && ms[0].key != key {
      GetIsMember(ms[1..], key);
      if Get(ms, key).None? {
        forall i | 0 <= i < |ms| ensures ms[i].key != key {
          assert 0 < i ==> ms[i] == ms[1..][i - 1];
        }
      }
    }
  }

  lemma MemberIsGet(ms: Entry, m: Member)
    requires UniqueKeys(ms) && m in ms
    ensures Get(ms, m.key) == Some(m.value)
  {
    GetIsMember(ms, m.key);
  }

  lemma {:induction false} WithoutIs(ms: Entry, key: Text)
    ensures forall m :: m in Without(ms, key) <==> m in ms && m.key != key
    ensures MembersWellFormed(ms) ==> MembersWellFormed(Without(ms, key))
    ensures MembersDepth(Without(ms, key)) <= MembersDepth(ms)
    ensures !MembersHoldLone(ms) ==> !MembersHoldLone(Without(ms, key))
    decreases |ms|
  {
    if ms != [] {
      WithoutIs(ms[1..], key);
      assert ms == [ms[0]] + ms[1..];
      var rest := Without(ms[1..], key);
      assert ([ms[0]] + rest)[1..] == rest;
    }
  }

  lemma KeyInRest(ms: Entry, key: Text)
    requires ms != []
    ensures HasKey(ms, key) <==> ms[0].key == key || HasKey(ms[1..], key)
  {
    assert forall i :: 0 <= i < |ms[1..]| ==> ms[1..][i] == ms[i + 1];
  }

  lemma UniqueAfterFirst(m: Member, rest: Entry)
    requires UniqueKeys(rest) && forall n <- rest :: n.key != m.key
    ensures UniqueKeys([m] + rest)
  {
  }

  lemma {:induction false} WithoutKeepsUnique(ms: Entry, key: Text)
    requires UniqueKeys(ms)
    ensures UniqueKeys(Without(ms, key))
    ensures |Without(ms, key)| == if HasKey(ms, key) then |ms| - 1 else |ms|
    decreases |ms|
  {
    if ms != [] {
      assert UniqueKeys(ms[1..]);
      WithoutKeepsUnique(ms[1..], key);
      WithoutIs(ms[1..], key);
      KeyInRest(ms, key);
      var rest := Without(ms[1..], key);
      if ms[0].key == key {
        assert !HasKey(ms[1..], key);
      } else {
        forall n | n in rest ensures n.key != ms[0].key {
          var i :| 0 <= i < |ms[1..]| && ms[1..][i] == n;
          assert ms[i + 1] == n;
        }
        UniqueAfterFirst(ms[0], rest);
      }
    }
  }

  /** What an entry's hash covers lies within the profile when the entry does. */
  lemma PayloadPortable(e: Entry)
    requires Portable(Obj(e))
    ensures Portable(Obj(Without(e, SELF_HASH)))
  {
    WithoutIs(e, SELF_HASH);
    WithoutKeepsUnique(e, SELF_HASH);
  }

  lemma SameGet(ms: Entry, ns: Entry, key: Text)
    requires Same(Obj(ms), Obj(ns)) && UniqueKeys(ns)
    ensures Get(ms, key).Some? ==> Get(ns, key).Some? && Same(Get(ms, key).value, Get(ns, key).value)
  {
    GetIsMember(ms, key);
    if Get(ms, key).Some? {
      var i :| 0 <= i < |ms| && ms[i] == Member(key, Get(ms, key).value);
      var j :| 0 <= j < |ns| && ms[i].key == ns[j].key && Same(ms[i].value, ns[j].value);
      MemberIsGet(ns, ns[j]);
    }
  }

  lemma {:induction false} GetWithout(ms: Entry, dropped: Text, key: Text)
    requires key != dropped
    ensures Get(Without(ms, dropped), key) == Get(ms, key)
    decreases |ms|
  {
    if ms != [] {
      GetWithout(ms[1..], dropped, key);
    }
  }

  /** The i-th member of one object has its like in the other. */
  ghost predicate Matched(a: Entry, b: Entry, i: nat)
    requires i < |a|
  {
    exists j {:trigger b[j]} :: 0 <= j < |b| && a[i].key == b[j].key && Same(a[i].value, b[j].value)
  }

  lemma Unmatched(a: Entry, b: Entry) returns (i: nat)
    requires |a| == |b| && !Same(Obj(a), Obj(b))
    ensures i < |a| && !Matched(a, b, i)
  {
    i :| i < |a|
      && !exists j {:trigger b[j]} :: 0 <= j < |b| && a[i].key == b[j].key && Same(a[i].value, b[j].value);
  }

  lemma SameByMembers(a: Entry, b: Entry)
    requires |a| == |b| && forall i :: 0 <= i < |a| ==> Matched(a, b, i)
    ensures Same(Obj(a), Obj(b))
  {
    if !Same(Obj(a), Obj(b)) {
      var i := Unmatched(a, b);
      assert false;
    }
  }

  lemma MatchedInRest(a: Entry, b: Entry, i: nat)
    requires i < |a| && a[i].key != SELF_HASH
    requires Same(Obj(Without(a, SELF_HASH)), Obj(Without(b, SELF_HASH)))
    ensures Matched(a, b, i)
  {
    var wa, wb := Without(a, SELF_HASH), Without(b, SELF_HASH);
    WithoutIs(a, SELF_HASH);
    WithoutIs(b, SELF_HASH);
    assert a[i] in wa;
    var i' :| 0 <= i' < |wa| && wa[i'] == a[i];
    var j' := MatchIn(wa, wb, i');
    assert wb[j'] in b;
    var j :| 0 <= j < |b| && b[j] == wb[j'];
  }

  lemma MatchIn(a: Entry, b: Entry, i: nat) returns (j: nat)
    requires Same(Obj(a), Obj(b)) && i < |a|
    ensures j < |b| && a[i].key == b[j].key && Same(a[i].value, b[j].value)
  {
    j :| 0 <= j < |b| && a[i].key == b[j].key && Same(a[i].value, b[j].value);
  }

  lemma MatchedHash(a: Entry, b: Entry, i: nat)
    requires i < |a| && a[i].key == SELF_HASH && UniqueKeys(a)
    requires Get(a, SELF_HASH).Some? && Get(a, SELF_HASH) == Get(b, SELF_HASH) && Get(a, SELF_HASH).value.Str?
    ensures Matched(a, b, i)
  {
    MemberIsGet(a, a[i]);
    GetIsMember(b, SELF_HASH);
    var j :| 0 <= j < |b| && b[j] == Member(SELF_HASH, Get(b, SELF_HASH).value);
    assert Same(a[i].value, b[j].value);
  }

  /** Entries alike without their hash, and with the same hash, are alike. */
  lemma SameWith(a: Entry, b: Entry)
    requires UniqueKeys(a) && UniqueKeys(b)
    requires Same(Obj(Without(a, SELF_HASH)), Obj(Without(b, SELF_HASH)))
    requires Get(a, SELF_HASH).Some? && Get(a, SELF_HASH) == Get(b, SELF_HASH) && Get(a, SELF_HASH).value.Str?
    ensures Same(Obj(a), Obj(b))
  {
    WithoutKeepsUnique(a, SELF_HASH);
    WithoutKeepsUnique(b, SELF_HASH);
    GetIsMember(a, SELF_HASH);
    GetIsMember(b, SELF_HASH);
    assert HasKey(a, SELF_HASH) && HasKey(b, SELF_HASH);
    forall i | 0 <= i < |a| ensures Matched(a, b, i) {
      if a[i].key == SELF_HASH {
        MatchedHash(a, b, i);
      } else {
        MatchedInRest(a, b, i);
      }
    }
    SameByMembers(a, b);
  }

  /* ---------- two ledgers with one last hash ---------- */

  /** Some content of one and some content of the other differ and have one digest. */
  ghost predicate Collide(h: Text -> Text, a: seq<Entry>, b: seq<Entry>) {
    exists i, j :: 0 <= i < |a| && 0 <= j < |b| && Payload(a[i]) != Payload(b[j]) && HashEntry(h, a[i]) == HashEntry(h, b[j])
  }

  ghost predicate AllPortable(es: seq<Entry>) {
    forall k :: 0 <= k < |es| ==> Portable(Obj(es[k]))
  }

  /** Entries of one content are alike, and so is every member. */
  lemma SameHashSameEntry(h: Text -> Text, a: Entry, b: Entry, key: Text)
    requires Portable(Obj(a)) && Portable(Obj(b)) && Payload(a) == Payload(b) && key != SELF_HASH
    requires Get(a, SELF_HASH) == Some(Str(HashEntry(h, a))) && Get(b, SELF_HASH) == Some(Str(HashEntry(h, b)))
    ensures Same(Obj(a), Obj(b))
    ensures Get(a, key).Some? ==> Get(b, key).Some? && Same(Get(a, key).value, Get(b, key).value)
  {
    var wa, wb := Without(a, SELF_HASH), Without(b, SELF_HASH);
    PayloadPortable(a);
    PayloadPortable(b);
    CanonicalIsInjective(Obj(wa), Obj(wb));
    SameWith(a, b);
    GetWithout(a, SELF_HASH, key);
    GetWithout(b, SELF_HASH, key);
    SameGet(wa, wb, key);
  }

  /** The k-th entry of a chain. */
  predicate IsLink(h: Text -> Text, e: Entry, k: nat, prev: Text) {
    && Get(e, IDX) == Some(Num(Decimal(k)))
    && Get(e, PREV_HASH) == Some(Str(prev))
    && Get(e, SELF_HASH) == Some(Str(HashEntry(h, e)))
    && Portable(Obj(e))
  }

  lemma KeysDiffer()
    ensures IDX != SELF_HASH && PREV_HASH != SELF_HASH
  {
    assert |IDX| == 3 && |SELF_HASH| == 9;
    assert PREV_HASH[0] == 'p' as int && SELF_HASH[0] == 's' as int;
  }

  lemma SameLink(h: Text -> Text, a: Entry, b: Entry, i: nat, p: Text, j: nat, q: Text)
    requires IsLink(h, a, i, p) && IsLink(h, b, j, q) && Payload(a) == Payload(b)
    ensures i == j && p == q && Same(Obj(a), Obj(b))
  {
    KeysDiffer();
    SameHashSameEntry(h, a, b, IDX);
    SameHashSameEntry(h, a, b, PREV_HASH);
    assert DigitsValue(Decimal(i)) == i && DigitsValue(Decimal(j)) == j;
  }

  lemma NoCollision(h: Text -> Text, a: seq<Entry>, b: seq<Entry>, i: nat, j: nat)
    requires i < |a| && j < |b| && !Collide(h, a, b) && HashEntry(h, a[i]) == HashEntry(h, b[j])
    ensures Payload(a[i]) == Payload(b[j])
  {
  }

  lemma ChainLink(h: Text -> Text, es: seq<Entry>, k: nat)
    requires k < |es| && AllPortable(es) && IsChain(h, es)
    ensures IsLink(h, es[k], k, PrevOf(h, es, k))
  {
    assert InPlace(h, es, k);
  }

  lemma LinkedBack(h: Text -> Text, a: seq<Entry>, b: seq<Entry>, i: nat, j: nat)
    requires i < |a| && j < |b| && AllPortable(a) && AllPortable(b) && IsChain(h, a) && IsChain(h, b)
    requires !Collide(h, a, b) && HashEntry(h, a[i]) == HashEntry(h, b[j])
    ensures i == j && Same(Obj(a[i]), Obj(b[j]))
    ensures 0 < i ==> HashEntry(h, a[i - 1]) == HashEntry(h, b[j - 1])
  {
    NoCollision(h, a, b, i, j);
    ChainLink(h, a, i);
    ChainLink(h, b, j);
    SameLink(h, a[i], b[j], i, PrevOf(h, a, i), j, PrevOf(h, b, j));
  }

  /** The hashes of two chains agree back to their beginning from where they agree once. */
  lemma {:induction false} AgreeBack(p: seq<Text>, q: seq<Text>, i: nat, j: nat, k: nat)
    requires i < |p| && j < |q| && k <= i && p[i] == q[j]
    requires forall m, n :: 0 <= m < |p| && 0 <= n < |q| && p[m] == q[n] ==> m == n && (0 < m ==> p[m - 1] == q[n - 1])
    ensures i == j && p[k] == q[k]
    decreases i
  {
    if k < i {
      AgreeBack(p, q, i - 1, j - 1, k);
    }
  }

  function Hashes(h: Text -> Text, es: seq<Entry>): (hs: seq<Text>)
    ensures |hs| == |es| && forall k :: 0 <= k < |es| ==> hs[k] == HashEntry(h, es[k])
  {
    seq(|es|, k requires 0 <= k < |es| => HashEntry(h, es[k]))
  }

  lemma HashesAgreeBack(h: Text -> Text, a: seq<Entry>, b: seq<Entry>)
    requires AllPortable(a) && AllPortable(b) && IsChain(h, a) && IsChain(h, b) && !Collide(h, a, b)
    ensures var p, q := Hashes(h, a), Hashes(h, b);
            forall m, n :: 0 <= m < |p| && 0 <= n < |q| && p[m] == q[n] ==> m == n && (0 < m ==> p[m - 1] == q[n - 1])
  {
    var p, q := Hashes(h, a), Hashes(h, b);
    forall m, n | 0 <= m < |p| && 0 <= n < |q| && p[m] == q[n]
      ensures m == n && (0 < m ==> p[m - 1] == q[n - 1])
    {
      LinkedBack(h, a, b, m, n);
    }
  }

  /** One hash at two places of two chains: the same place, and the same entries up to there. */
  lemma HashFixesPrefix(h: Text -> Text, a: seq<Entry>, b: seq<Entry>, i: nat, j: nat, k: nat)
    requires i < |a| && j < |b| && k <= i && AllPortable(a) && AllPortable(b) && IsChain(h, a) && IsChain(h, b)
    requires !Collide(h, a, b) && HashEntry(h, a[i]) == HashEntry(h, b[j])
    ensures i == j && Same(Obj(a[k]), Obj(b[k]))
  {
    HashesAgreeBack(h, a, b);
    AgreeBack(Hashes(h, a), Hashes(h, b), i, j, k);
    LinkedBack(h, a, b, k, k);
  }

  lemma {:induction false} EntriesPortable(lines: seq<Text>)
    requires forall l <- lines :: !Lone(l)
    requires Entries(lines).Some?
    ensures AllPortable(Entries(lines).value)
    decreases |lines|
  {
    if lines != [] {
      EntriesPortable(lines[1..]);
      if Strip(lines[0]) != [] {
        StripPaired(lines[0]);
        ParsedIsPortable(Strip(lines[0]));
      }
    }
  }

  /** Two ledgers that verify, are not empty and end with one self_hash hold the same entries, unless contents of theirs collide. */
  lemma LastHashFixesLedger(h: Text -> Text, s: Text, t: Text)
    requires !Lone(s) && !Lone(t) && Verifies(h, s) && Verifies(h, t)
    requires Walk(h, true, Lines(s), START).value.last == Walk(h, true, Lines(t), START).value.last
    requires Entries(Lines(s)) != Some([]) && Entries(Lines(t)) != Some([])
    ensures var a, b := Entries(Lines(s)), Entries(Lines(t));
            && a.Some? && b.Some?
            && (Collide(h, a.value, b.value)
                || (|a.value| == |b.value| && forall k :: 0 <= k < |a.value| ==> Same(Obj(a.value[k]), Obj(b.value[k]))))
  {
    var a := ChainOf(h, s);
    var b := ChainOf(h, t);
    if !Collide(h, a, b) {
      ChainsAgree(h, a, b);
    }
  }

  lemma ChainsAgree(h: Text -> Text, a: seq<Entry>, b: seq<Entry>)
    requires a != [] && b != [] && AllPortable(a) && AllPortable(b) && IsChain(h, a) && IsChain(h, b)
    requires !Collide(h, a, b) && HashEntry(h, a[|a| - 1]) == HashEntry(h, b[|b| - 1])
    ensures |a| == |b| && forall k :: 0 <= k < |a| ==> Same(Obj(a[k]), Obj(b[k]))
  {
    HashFixesPrefix(h, a, b, |a| - 1, |b| - 1, 0);
    forall k | 0 <= k < |a| ensures Same(Obj(a[k]), Obj(b[k])) {
      HashFixesPrefix(h, a, b, |a| - 1, |b| - 1, k);
    }
  }

  lemma ChainOf(h: Text -> Text, text: Text) returns (es: seq<Entry>)
    requires !Lone(text) && Verifies(h, text)
    ensures Entries(Lines(text)) == Some(es) && IsChain(h, es) && AllPortable(es)
    ensures es != [] ==> Walk(h, true, Lines(text), START).value.last == HashEntry(h, es[|es| - 1])
  {
    VerifiesIsChain(h, text);
    WalkIsLinked(h, true, Lines(text), START);
    LinesPaired(text);
    EntriesPortable(Lines(text));
    es := Entries(Lines(text)).value;
    LastState(h, es);
  }

  lemma LastState(h: Text -> Text, es: seq<Entry>)
    ensures es != [] ==> StateAt(h, es, START, |es|).last == HashEntry(h, es[|es| - 1])
  {
  }
}
