/**
 The canonical form: members sorted by the code points of their keys at every level.
 It does not depend on the order of members, it fixes everything else, and sorting twice
 changes nothing.
 */
module JsonCanonical {
  import opened Wrappers
  import opened JsonText
  import opened JsonGrammar
  import opened JsonParser
  import opened JsonPrinter
  import opened CodePoints

  /* ---------- sorting members ---------- */

  function Insert(m: Member, ms: seq<Member>): seq<Member> {
    if ms == [] || !KeyLess(ms[0].key, m.key) then [m] + ms else [ms[0]] + Insert(m, ms[1..])
  }

  function Sort(ms: seq<Member>): seq<Member> {
    if ms == [] then [] else Insert(ms[0], Sort(ms[1..]))
  }

  ghost predicate StrictlySorted(ms: seq<Member>) {
    forall i, j :: 0 <= i < j < |ms| ==> KeyLess(ms[i].key, ms[j].key)
  }

  lemma {:induction false} InsertKeeps(m: Member, ms: seq<Member>)
    ensures multiset(Insert(m, ms)) == multiset(ms) + multiset{m}
    decreases |ms|
  {
    if ms == [] || !KeyLess(ms[0].key, m.key) {
    } else {
      InsertKeeps(m, ms[1..]);
      assert ms == [ms[0]] + ms[1..];
    }
  }

  /** Sorting keeps the members. */
  lemma {:induction false} SortKeeps(ms: seq<Member>)
    ensures multiset(Sort(ms)) == multiset(ms)
    decreases |ms|
  {
    if ms != [] {
      SortKeeps(ms[1..]);
      InsertKeeps(ms[0], Sort(ms[1..]));
      assert ms == [ms[0]] + ms[1..];
    }
  }

  lemma SortMembership(ms: seq<Member>)
    ensures forall m :: m in Sort(ms) <==> m in ms
    ensures |Sort(ms)| == |ms|
  {
    SortKeeps(ms);
    assert |multiset(Sort(ms))| == |multiset(ms)|;
    forall m ensures m in Sort(ms) <==> m in ms {
      assert m in Sort(ms) <==> m in multiset(Sort(ms));
      assert m in ms <==> m in multiset(ms);
    }
  }

  lemma {:induction false} InsertSorts(m: Member, ms: seq<Member>)
    requires StrictlySorted(ms)
    requires forall n <- ms :: n.key != m.key
    ensures StrictlySorted(Insert(m, ms))
    decreases |ms|
  {
    if ms != [] {
      KeyOrderIsTotal(ms[0].key, m.key);
      if KeyLess(ms[0].key, m.key) {
        var tail := Insert(m, ms[1..]);
        InsertSorts(m, ms[1..]);
        InsertKeeps(m, ms[1..]);
        forall k | 0 <= k < |tail| ensures KeyLess(ms[0].key, tail[k].key) {
          assert tail[k] in multiset(tail);
          assert tail[k] == m || tail[k] in ms[1..];
        }
      } else {
        forall k | 0 <= k < |ms| ensures KeyLess(m.key, ms[k].key) {
          if 0 < k {
            KeyOrderIsTransitive(m.key, ms[0].key, ms[k].key);
          }
        }
      }
    }
  }

  /** Members with distinct keys come out in strictly increasing order. */
  lemma {:induction false} SortSorts(ms: seq<Member>)
    requires UniqueKeys(ms)
    ensures StrictlySorted(Sort(ms))
    decreases |ms|
  {
    if ms != [] {
      SortSorts(ms[1..]);
      SortMembership(ms[1..]);
      InsertSorts(ms[0], Sort(ms[1..]));
    }
  }

  /** Two strictly sorted lists of the same members are one list. */
  lemma {:induction false} SortedIsUnique(a: seq<Member>, b: seq<Member>)
    requires StrictlySorted(a) && StrictlySorted(b) && |a| == |b|
    requires forall m :: m in a <==> m in b
    ensures a == b
    decreases |a|
  {
    if a != [] {
      assert a[0] in b;
      assert b[0] in a;
      KeyOrderIsTotal(a[0].key, b[0].key);
      assert a[0] == b[0];
      forall m ensures m in a[1..] <==> m in b[1..] {
        HeadApart(a, m);
        HeadApart(b, m);
      }
      SortedIsUnique(a[1..], b[1..]);
      assert a == [a[0]] + a[1..] && b == [b[0]] + b[1..];
    }
  }

  lemma HeadApart(a: seq<Member>, m: Member)
    requires a != [] && StrictlySorted(a)
    ensures m in a[1..] <==> m in a && m != a[0]
  {
    KeyOrderIsTotal(a[0].key, a[0].key);
    if m in a && m != a[0] {
      var i :| 0 <= i < |a| && a[i] == m;
      assert a[1..][i - 1] == m;
    }
    if m in a[1..] {
      var i :| 0 <= i < |a[1..]| && a[1..][i] == m;
      assert a[i + 1] == m;
      KeyOrderIsTotal(a[0].key, m.key);
    }
  }

  lemma SortedHasUniqueKeys(ms: seq<Member>)
    requires StrictlySorted(ms)
    ensures UniqueKeys(ms)
  {
    forall i, j | 0 <= i < j < |ms| ensures ms[i].key != ms[j].key {
      KeyOrderIsTotal(ms[i].key, ms[j].key);
    }
  }

  /* ---------- sorting values ---------- */

  /** The value with the members of every object in key order. */
  function SortValue(v: Value): Value
    decreases v, 0
  {
    match v
    case Arr(items) => Arr(SortItems(items))
    case Obj(members) => Obj(Sort(SortMembers(members)))
    case _ => v
  }

  function SortItems(vs: seq<Value>): (r: seq<Value>)
    ensures |r| == |vs|
    decreases vs, 0
  {
    if vs == [] then [] else [SortValue(vs[0])] + SortItems(vs[1..])
  }

  /** The members in their own order, each with its value sorted. */
  function SortMembers(ms: seq<Member>): (r: seq<Member>)
    ensures |r| == |ms| && forall i :: 0 <= i < |ms| ==> r[i].key == ms[i].key
    decreases ms, 0
  {
    if ms == [] then [] else [Member(ms[0].key, SortValue(ms[0].value))] + SortMembers(ms[1..])
  }

  lemma {:induction false} SortItemsAt(vs: seq<Value>, i: nat)
    requires i < |vs|
    ensures SortItems(vs)[i] == SortValue(vs[i])
    decreases |vs|
  {
    if 0 < i {
      SortItemsAt(vs[1..], i - 1);
    }
  }

  lemma {:induction false} SortMembersAt(ms: seq<Member>, i: nat)
    requires i < |ms|
    ensures SortMembers(ms)[i] == Member(ms[i].key, SortValue(ms[i].value))
    decreases |ms|
  {
    if 0 < i {
      SortMembersAt(ms[1..], i - 1);
    }
  }

  /** The canonical text of a value. */
  function Canonical(v: Value): Text {
    Print(SortValue(v))
  }

  /* ---------- sorting stays within the profile ---------- */

  lemma {:induction false} InsertIn(m: Member, ms: seq<Member>)
    ensures MembersWellFormed(Insert(m, ms)) <==> WellFormed(m.value) && MembersWellFormed(ms)
    ensures MembersDepth(Insert(m, ms)) == Max(ValueDepth(m.value), MembersDepth(ms))
    ensures MembersHoldLone(Insert(m, ms)) <==> Lone(m.key) || HoldsLone(m.value) || MembersHoldLone(ms)
    decreases |ms|
  {
    var r := Insert(m, ms);
    assert r[1..] == if ms == [] || !KeyLess(ms[0].key, m.key) then ms else Insert(m, ms[1..]);
    if ms != [] && KeyLess(ms[0].key, m.key) {
      InsertIn(m, ms[1..]);
    }
  }

  lemma {:induction false} SortIn(ms: seq<Member>)
    ensures MembersWellFormed(Sort(ms)) <==> MembersWellFormed(ms)
    ensures MembersDepth(Sort(ms)) == MembersDepth(ms)
    ensures MembersHoldLone(Sort(ms)) <==> MembersHoldLone(ms)
    decreases |ms|
  {
    if ms != [] {
      SortIn(ms[1..]);
      InsertIn(ms[0], Sort(ms[1..]));
    }
  }

  /** Sorting changes neither well-formedness nor depth nor surrogates. */
  lemma {:induction false} SortValueIn(v: Value)
    ensures ValueDepth(SortValue(v)) == ValueDepth(v) && HoldsLone(SortValue(v)) == HoldsLone(v)
    ensures WellFormed(v) ==> WellFormed(SortValue(v))
    decreases v, 0
  {
    match v
    case Arr(items) => SortItemsIn(items);
    case Obj(members) =>
      SortMembersIn(members);
      SortIn(SortMembers(members));
      if UniqueKeys(members) {
        SortSorts(SortMembers(members));
        SortedHasUniqueKeys(Sort(SortMembers(members)));
      }
    case _ =>
  }

  lemma {:induction false} SortItemsIn(vs: seq<Value>)
    ensures ItemsDepth(SortItems(vs)) == ItemsDepth(vs) && ItemsHoldLone(SortItems(vs)) == ItemsHoldLone(vs)
    ensures ItemsWellFormed(vs) ==> ItemsWellFormed(SortItems(vs))
    decreases vs, 0
  {
    if vs != [] {
      SortValueIn(vs[0]);
      SortItemsIn(vs[1..]);
      assert SortItems(vs)[1..] == SortItems(vs[1..]);
    }
  }

  lemma {:induction false} SortMembersIn(ms: seq<Member>)
    ensures MembersDepth(SortMembers(ms)) == MembersDepth(ms) && MembersHoldLone(SortMembers(ms)) == MembersHoldLone(ms)
    ensures MembersWellFormed(ms) ==> MembersWellFormed(SortMembers(ms))
    decreases ms, 0
  {
    if ms != [] {
      SortValueIn(ms[0].value);
      SortMembersIn(ms[1..]);
      assert SortMembers(ms)[1..] == SortMembers(ms[1..]);
    }
  }

  /* ---------- equality up to the order of members ---------- */

  /** Equal up to the order of members at every level. */
  ghost predicate Same(v: Value, w: Value)
    decreases v
  {
    match v
    case Arr(items) =>
      w.Arr? && |items| == |w.items| && forall i :: 0 <= i < |items| ==> Same(items[i], w.items[i])
    case Obj(members) =>
      && w.Obj? && |members| == |w.members|
      && (forall i {:trigger members[i]} :: 0 <= i < |members| ==>
            exists j {:trigger w.members[j]} :: 0 <= j < |w.members| && members[i].key == w.members[j].key && Same(members[i].value, w.members[j].value))
    case _ => v == w
  }

  /** Sorting identifies exactly the values that are equal up to the order of members. */
  lemma {:induction false} SortValueIsSame(v: Value, w: Value)
    requires WellFormed(v) && WellFormed(w)
    ensures SortValue(v) == SortValue(w) <==> Same(v, w)
    decreases v, 0
  {
    match v
    case Arr(items) => if w.Arr? { SortItemsAreSame(items, w.items); }
    case Obj(members) => if w.Obj? { SortMembersAreSame(members, w.members); }
    case _ =>
  }

  lemma {:induction false} ItemWellFormed(vs: seq<Value>, i: nat)
    requires i < |vs| && ItemsWellFormed(vs)
    ensures WellFormed(vs[i])
    decreases |vs|
  {
    if 0 < i {
      ItemWellFormed(vs[1..], i - 1);
    }
  }

  lemma {:induction false} MemberWellFormed(ms: seq<Member>, i: nat)
    requires i < |ms| && MembersWellFormed(ms)
    ensures WellFormed(ms[i].value)
    decreases |ms|
  {
    if 0 < i {
      MemberWellFormed(ms[1..], i - 1);
    }
  }

  lemma {:induction false} SortItemsAreSame(vs: seq<Value>, ws: seq<Value>)
    requires ItemsWellFormed(vs) && ItemsWellFormed(ws)
    ensures SortItems(vs) == SortItems(ws) <==>
            |vs| == |ws| && forall i :: 0 <= i < |vs| ==> Same(vs[i], ws[i])
    decreases vs, 1
  {
    if |vs| == |ws| {
      forall i | 0 <= i < |vs|
        ensures SortItems(vs)[i] == SortItems(ws)[i] <==> Same(vs[i], ws[i])
      {
        SortItemsAt(vs, i);
        SortItemsAt(ws, i);
        ItemWellFormed(vs, i);
        ItemWellFormed(ws, i);
        SortValueIsSame(vs[i], ws[i]);
      }
    }
  }

  /** Member i of one list and member j of another are equal once their values are sorted. */
  lemma {:induction false} MemberIsSame(ms: seq<Member>, ns: seq<Member>, i: nat, j: nat)
    requires i < |ms| && j < |ns| && MembersWellFormed(ms) && MembersWellFormed(ns)
    ensures SortMembers(ms)[i] == SortMembers(ns)[j] <==> ms[i].key == ns[j].key && Same(ms[i].value, ns[j].value)
    decreases ms, 0
  {
    SortMembersAt(ms, i);
    SortMembersAt(ns, j);
    MemberWellFormed(ms, i);
    MemberWellFormed(ns, j);
    SortValueIsSame(ms[i].value, ns[j].value);
  }

  lemma {:induction false} SortMembersAreSame(ms: seq<Member>, ns: seq<Member>)
    requires UniqueKeys(ms) && MembersWellFormed(ms) && UniqueKeys(ns) && MembersWellFormed(ns)
    ensures Sort(SortMembers(ms)) == Sort(SortMembers(ns)) <==> Same(Obj(ms), Obj(ns))
    decreases ms, 1
  {
    var a, b := SortMembers(ms), SortMembers(ns);
    forall i, j | 0 <= i < |ms| && 0 <= j < |ns|
      ensures a[i] == b[j] <==> ms[i].key == ns[j].key && Same(ms[i].value, ns[j].value)
    {
      MemberIsSame(ms, ns, i, j);
    }
    assert Same(Obj(ms), Obj(ns)) <==> |a| == |b| && forall i :: 0 <= i < |a| ==> a[i] in b by {
      if |a| == |b| && forall i :: 0 <= i < |a| ==> a[i] in b {
        forall i | 0 <= i < |ms|
          ensures exists j :: 0 <= j < |ns| && ms[i].key == ns[j].key && Same(ms[i].value, ns[j].value)
        {
          assert a[i] in b;
          var j :| 0 <= j < |b| && b[j] == a[i];
        }
      }
    }
    SortsAreEqual(a, b);
  }

  /** Two lists with distinct keys sort alike exactly when they hold the same members. */
  lemma SortsAreEqual(a: seq<Member>, b: seq<Member>)
    requires UniqueKeys(a) && UniqueKeys(b)
    ensures Sort(a) == Sort(b) <==> |a| == |b| && forall i :: 0 <= i < |a| ==> a[i] in b
  {
    SortMembership(a);
    SortMembership(b);
    SortSorts(a);
    SortSorts(b);
    if Sort(a) == Sort(b) {
      forall i | 0 <= i < |a| ensures a[i] in b {
        assert a[i] in Sort(a);
      }
    }
    if |a| == |b| && forall i :: 0 <= i < |a| ==> a[i] in b {
      SameMembers(a, b);
      SortedIsUnique(Sort(a), Sort(b));
    }
  }

  /** Of two equally long lists with distinct keys, one within the other, each holds the other's members. */
  lemma SameMembers(a: seq<Member>, b: seq<Member>)
    requires UniqueKeys(a) && UniqueKeys(b) && |a| == |b|
    requires forall i :: 0 <= i < |a| ==> a[i] in b
    ensures forall m :: m in a <==> m in b
  {
    var s, t := set m | m in a, set m | m in b;
    DistinctSize(a);
    DistinctSize(b);
    assert s <= t;
    SubsetOfEqualSize(s, t);
    forall m ensures m in a <==> m in b {
      assert m in s <==> m in t;
    }
  }

  lemma {:induction false} DistinctSize(a: seq<Member>)
    requires UniqueKeys(a)
    ensures |set m | m in a| == |a|
    decreases |a|
  {
    if a != [] {
      DistinctSize(a[1..]);
      assert a == [a[0]] + a[1..];
      assert (set m | m in a) == (set m | m in a[1..]) + {a[0]};
      assert a[0] !in a[1..];
    }
  }

  lemma {:induction false} SubsetOfEqualSize(s: set<Member>, t: set<Member>)
    requires s <= t && |s| == |t|
    ensures s == t
    decreases |s|
  {
    if s != {} {
      var x :| x in s;
      SubsetOfEqualSize(s - {x}, t - {x});
      assert s == (s - {x}) + {x} && t == (t - {x}) + {x};
    } else {
      assert t == {};
    }
  }

  /* ---------- the canonical form ---------- */

  /** The sorted value is the same value up to the order of members. */
  lemma {:induction false} SortedIsSame(v: Value)
    requires WellFormed(v)
    ensures Same(v, SortValue(v))
    decreases v
  {
    match v
    case Arr(items) =>
      forall i | 0 <= i < |items| ensures Same(items[i], SortItems(items)[i]) {
        SortItemsAt(items, i);
        ItemWellFormed(items, i);
        SortedIsSame(items[i]);
      }
    case Obj(members) =>
      var a := SortMembers(members);
      SortMembership(a);
      forall i | 0 <= i < |members|
        ensures exists j :: 0 <= j < |Sort(a)| && members[i].key == Sort(a)[j].key && Same(members[i].value, Sort(a)[j].value)
      {
        SortMembersAt(members, i);
        MemberWellFormed(members, i);
        SortedIsSame(members[i].value);
        assert a[i] in Sort(a);
        var j :| 0 <= j < |Sort(a)| && Sort(a)[j] == a[i];
      }
    case _ =>
  }

  /** The canonical text is parsed back to the sorted value, and canonicalising that changes nothing. */
  lemma CanonicalIsParsed(v: Value)
    requires Portable(v)
    ensures ParseText(Canonical(v)) == Some(SortValue(v))
    ensures SortValue(SortValue(v)) == SortValue(v) && Canonical(SortValue(v)) == Canonical(v)
  {
    SortValueIn(v);
    WellFormedIsInMemory(SortValue(v));
    PrintedIsParsed([], SortValue(v), []);
    assert [] + Canonical(v) + [] == Canonical(v);
    SortedIsSame(v);
    SortValueIsSame(v, SortValue(v));
  }

  /** Two values of the profile have one canonical text exactly when they are equal up to the order of members. */
  lemma CanonicalIsInjective(v: Value, w: Value)
    requires Portable(v) && Portable(w)
    ensures Canonical(v) == Canonical(w) <==> Same(v, w)
  {
    CanonicalIsParsed(v);
    CanonicalIsParsed(w);
    SortValueIsSame(v, w);
  }
}
