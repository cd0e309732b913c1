/**
 What a valid preservation record proves, and which renewals keep it valid, said of its
 fields, of the packs and of the verdicts on its tokens.
 */
module PreservationProof {
  import opened Wrappers
  import opened Preservation

  /* ---------- the tree ---------- */

  function Half(n: nat): nat {
    if n == 0 then 1 else 2 * Half(n - 1)
  }

  lemma NextHalves(leaves: seq<Digest>, alg: Alg, k: nat)
    requires |leaves| == 2 * k + 2 * k
    ensures NextLevel(leaves, alg)[..k] == NextLevel(leaves[..2 * k], alg)
    ensures NextLevel(leaves, alg)[k..] == NextLevel(leaves[2 * k..], alg)
  {
  }

  /** A full tree is the digest of its two halves in their order, down to the leaves. */
  lemma {:induction false} RootOfHalves(leaves: seq<Digest>, alg: Alg, m: nat)
    requires |leaves| == 2 * Half(m)
    ensures var k := Half(m);
            Root(leaves, alg) == Digest(alg, Pair(Root(leaves[..k], alg), Root(leaves[k..], alg)))
    decreases m
  {
    var k := Half(m);
    if m == 0 {
      assert NextLevel(leaves, alg) == [Digest(alg, Pair(leaves[0], leaves[1]))];
    } else {
      NextHalves(leaves, alg, Half(m - 1));
      RootOfHalves(NextLevel(leaves, alg), alg, m - 1);
    }
  }

  /* ---------- what a valid record is ---------- */

  /** The digests of the data objects, one by one. */
  ghost predicate DigestsOf(objects: seq<string>, alg: Alg, ds: seq<Digest>) {
    |ds| == |objects| && forall i :: 0 <= i < |ds| ==> ds[i] == Digest(alg, Pack(objects[i]))
  }

  /** The first entry covers the data objects. */
  ghost predicate CoversObjects(objects: seq<string>, e: Entry) {
    exists ds :: DigestsOf(objects, e.alg, ds) && e.leaves == Some(ds) && e.root == Some(Root(ds, e.alg))
  }

  /** An entry that renews the time holds the digest of the one before it. */
  predicate RenewsTime(es: seq<Entry>, i: nat)
    requires 0 < i < |es|
  {
    es[i].kind == TimestampRenewal && es[i].prevBinding == Some(Digest(es[i].alg, EntryText(es[i - 1])))
  }

  /** An entry that renews the tree covers the data objects again, and the digest of all entries before it. */
  ghost predicate RenewsTree(objects: seq<string>, es: seq<Entry>, i: nat)
    requires 0 < i < |es|
  {
    && es[i].kind == HashTreeRenewal
    && var chain := Digest(es[i].alg, ChainText(es[..i]));
       && es[i].chainBinding == Some(chain)
       && exists ds :: DigestsOf(objects, es[i].alg, ds) && es[i].leaves == Some(ds + [chain]) && es[i].root == Some(Root(ds + [chain], es[i].alg))
  }

  lemma LeavesAreDigests(objects: seq<string>, alg: Alg, ds: seq<Digest>)
    ensures DigestsOf(objects, alg, Leaves(objects, alg))
    ensures DigestsOf(objects, alg, ds) ==> ds == Leaves(objects, alg)
  {
  }

  lemma InitialIs(objects: seq<string>, e: Entry)
    ensures InitialOk(objects, e) <==> !e.alg.Unsupported? && CoversObjects(objects, e)
  {
    LeavesAreDigests(objects, e.alg, Leaves(objects, e.alg));
    if ds :| DigestsOf(objects, e.alg, ds) && e.leaves == Some(ds) && e.root == Some(Root(ds, e.alg)) {
      LeavesAreDigests(objects, e.alg, ds);
    }
  }

  lemma RenewalIs(objects: seq<string>, es: seq<Entry>, i: nat)
    requires 0 < i < |es|
    ensures LinkAt(objects, es, i) <==> !es[i].alg.Unsupported? && (RenewsTime(es, i) || RenewsTree(objects, es, i))
  {
    var alg := es[i].alg;
    assert es[..i][|es[..i]| - 1] == es[i - 1];
    var chain := Digest(alg, ChainText(es[..i]));
    LeavesAreDigests(objects, alg, Leaves(objects, alg));
    if ds :| DigestsOf(objects, alg, ds) && es[i].leaves == Some(ds + [chain]) && es[i].root == Some(Root(ds + [chain], alg)) {
      LeavesAreDigests(objects, alg, ds);
    }
  }

  /** What a token of an entry is checked over. */
  predicate TokenIsGood(e: Entry, tsa: Tsa) {
    match e.time
    case Asserted(_) => true
    case Rfc3161(token, _) =>
      && token.Some?
      && (e.root.Some? ==> tsa(token.value, e.root) != Some(false))
      && (e.root.None? ==> tsa(token.value, e.prevBinding) != Some(false))
  }

  /**
   A record is valid if and only if its digest is that of its content, the packs given are its
   data objects in their order, its first entry covers them, every later one renews the time
   or the tree, every algorithm is a known one, and every declared token is there and not
   refused over the root, or over the binding where there is no root.
   */
  lemma ValidIs(r: Record, packs: Option<seq<Option<string>>>, tsa: Tsa)
    ensures IsValid(r, packs, tsa) <==>
            && r.sha3 == Digest(Sha3_256, RecordText(r.objects, r.timestamps))
            && (packs.Some? ==> |packs.value| == |r.objects| && forall i :: 0 <= i < |r.objects| ==> packs.value[i] == Some(r.objects[i]))
            && r.timestamps != [] && CoversObjects(r.objects, r.timestamps[0])
            && (forall i :: 0 < i < |r.timestamps| ==> RenewsTime(r.timestamps, i) || RenewsTree(r.objects, r.timestamps, i))
            && (forall e <- r.timestamps :: !e.alg.Unsupported? && TokenIsGood(e, tsa))
  {
    var es := r.timestamps;
    if es != [] {
      InitialIs(r.objects, es[0]);
      forall i | 0 < i < |es|
        ensures LinkAt(r.objects, es, i) <==> !es[i].alg.Unsupported? && (RenewsTime(es, i) || RenewsTree(r.objects, es, i))
      {
        RenewalIs(r.objects, es, i);
      }
      TokensAreGood(es, tsa);
      AlgorithmsKnown(r.objects, es);
    }
  }

  lemma TokensAreGood(es: seq<Entry>, tsa: Tsa)
    ensures (forall i :: 0 <= i < |es| ==> TimeOk(es[i], tsa)) <==> forall e <- es :: TokenIsGood(e, tsa)
  {
    forall i | 0 <= i < |es| ensures TimeOk(es[i], tsa) <==> TokenIsGood(es[i], tsa) {
    }
    if forall e <- es :: TokenIsGood(e, tsa) {
      forall i | 0 <= i < |es| ensures TimeOk(es[i], tsa) {
        assert es[i] in es;
      }
    }
  }

  lemma AlgorithmsKnown(objects: seq<string>, es: seq<Entry>)
    requires es != []
    ensures ChainOk(objects, es) <==>
            && CoversObjects(objects, es[0]) && (forall e <- es :: !e.alg.Unsupported?)
            && forall i :: 0 < i < |es| ==> RenewsTime(es, i) || RenewsTree(objects, es, i)
  {
    InitialIs(objects, es[0]);
    forall i | 0 < i < |es|
      ensures LinkAt(objects, es, i) <==> !es[i].alg.Unsupported? && (RenewsTime(es, i) || RenewsTree(objects, es, i))
    {
      RenewalIs(objects, es, i);
    }
    if ChainOk(objects, es) {
      forall e | e in es ensures !e.alg.Unsupported? {
        var i :| 0 <= i < |es| && es[i] == e;
        assert 0 < i ==> LinkAt(objects, es, i);
      }
    }
    if (forall e <- es :: !e.alg.Unsupported?) && CoversObjects(objects, es[0])
       && forall i :: 0 < i < |es| ==> RenewsTime(es, i) || RenewsTree(objects, es, i) {
      forall i | 0 < i < |es| ensures LinkAt(objects, es, i) {
        assert es[i] in es;
      }
      assert es[0] in es;
    }
  }

  /** What a renewal binds: the entry before it, or a new root over the data objects and all entries before it. */
  function BoundBy(r: Record, n: Renewal, ds: seq<Digest>): Digest
    requires r.timestamps != []
  {
    match n
    case OfTime(_, _) =>
      var last := r.timestamps[|r.timestamps| - 1];
      Digest(last.alg, EntryText(last))
    case OfTree(_, alg, _, _) => Root(ds + [Digest(alg, ChainText(r.timestamps))], alg)
  }

  /** A renewal keeps a valid record valid when its token is not refused over what it binds. */
  lemma RenewedStaysValid(r: Record, n: Renewal, ds: seq<Digest>, packs: Option<seq<Option<string>>>, tsa: Tsa)
    requires IsValid(r, packs, tsa) && !Refused(r, n)
    requires n.OfTree? ==> DigestsOf(r.objects, n.alg, ds)
    requires n.time.Rfc3161? ==> n.time.token.Some? && tsa(n.time.token.value, Some(BoundBy(r, n, ds))) != Some(false)
    ensures IsValid(Renewed(r, n), packs, tsa)
  {
    RenewedIsValid(r, n, packs, tsa);
    if n.OfTree? {
      LeavesAreDigests(r.objects, n.alg, ds);
    }
  }

  /** What a renewal adds: the next number, the kind, the algorithm, and time and date as given. */
  lemma RenewalHolds(r: Record, n: Renewal)
    requires !Refused(r, n)
    ensures var es, all := r.timestamps, Renewed(r, n).timestamps;
            && |all| == |es| + 1 && all[..|es|] == es && Renewed(r, n).objects == r.objects
            && all[|es|].seqNo == es[|es| - 1].seqNo + 1
            && all[|es|].kind == (if n.OfTime? then TimestampRenewal else HashTreeRenewal)
            && all[|es|].alg == (if n.OfTime? then es[|es| - 1].alg else n.alg)
            && all[|es|].time == n.time && all[|es|].created == n.created
  {
  }

  /** What a new record holds: one entry, the initial one, numbered zero. */
  lemma BuiltHolds(objects: seq<string>, alg: Alg, time: Time, created: string, tsa: Tsa)
    requires !alg.Unsupported?
    requires time.Rfc3161? ==> time.token.Some? && tsa(time.token.value, Some(Root(Leaves(objects, alg), alg))) != Some(false)
    ensures var e := InitialEntry(objects, alg, time, created);
            && e.seqNo == 0 && e.kind == Initial && e.alg == alg && e.time == time && e.created == created
            && IsValid(Sealed(objects, [e]), None, tsa)
  {
    var e := InitialEntry(objects, alg, time, created);
    assert [e][0] == e;
    LeavesAreDigests(objects, alg, Leaves(objects, alg));
  }

  /** When a renewal is refused: nothing to renew, an algorithm that is not known, or packs that are not the data objects. */
  lemma RefusedIs(r: Record, n: Renewal)
    ensures Refused(r, n) <==>
            || r.timestamps == []
            || (n.OfTime? && r.timestamps[|r.timestamps| - 1].alg.Unsupported?)
            || (n.OfTree? && n.alg.Unsupported?)
            || (n.OfTree? && n.packs.Some?
                && (|n.packs.value| != |r.objects| || exists i :: 0 <= i < |r.objects| && n.packs.value[i] != Some(r.objects[i])))
  {
  }
}
