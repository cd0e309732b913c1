/**
 When records are accepted against the anchors of known trees, said of the records, the
 leaves and the anchors themselves.
 */
module EpochTrees {
  import opened Wrappers
  import opened Merkle
  import opened Epochs

  /** The leaves of each epoch. */
  type Trees = map<string, seq<Digest>>

  /** Every anchor holds the root and the count of its epoch's tree, and every tree has an anchor. */
  ghost predicate Anchors(anchors: seq<Anchor>, trees: Trees) {
    && (forall a <- anchors :: a.Anchor? && a.epoch in trees && a.root == Mth(trees[a.epoch]) && a.leafCount == |trees[a.epoch]| && 0 < a.leafCount)
    && (forall eid <- trees :: exists a :: a in anchors && a.epoch == eid)
    && (forall a, b :: a in anchors && b in anchors && a.epoch == b.epoch ==> a == b)
  }

  /** A record of no epoch, or one that is the leaf it says it is, under the root of its tree, with its own audit path or none. */
  predicate Belongs(e: Entry, trees: Trees) {
    && e.Record?
    && (e.batch == None ||
        (&& e.batch.value.Batch? && e.batch.value.epoch in trees
         && var (b, leaves) := (e.batch.value, trees[e.batch.value.epoch]);
            && 0 <= b.leafIndex < |leaves| && b.root == Mth(leaves)
            && e.body.form != Unserialisable && leaves[b.leafIndex] == LeafHash(e.body.canonical)
            && (b.proof == NoProof || b.proof == Path(AuditPath(leaves, b.leafIndex)))))
  }

  predicate InEpoch(e: Entry, eid: string) {
    e.Record? && e.batch.Some? && e.batch.value.Batch? && e.batch.value.epoch == eid
  }

  /** Some record says it is the k-th leaf of the epoch. */
  ghost predicate IsThere(records: seq<Entry>, eid: string, k: int) {
    exists i :: 0 <= i < |records| && InEpoch(records[i], eid) && records[i].batch.value.leafIndex == k
  }

  /** Every leaf of the epoch is some record. */
  ghost predicate AllThere(records: seq<Entry>, eid: string, count: nat) {
    forall k :: 0 <= k < count ==> IsThere(records, eid, k)
  }

  /** Every record of the epoch brings its path. */
  ghost predicate AllProven(records: seq<Entry>, eid: string) {
    forall i :: 0 <= i < |records| && InEpoch(records[i], eid) ==> records[i].batch.value.proof != NoProof
  }

  lemma AnchorOf(anchors: seq<Anchor>, trees: Trees)
    requires Anchors(anchors, trees)
    ensures AnchorsOk(anchors) && ById(anchors).Keys == trees.Keys
    ensures forall eid <- trees :: ById(anchors)[eid] in anchors && ById(anchors)[eid].epoch == eid
  {
    forall i | 0 <= i < |anchors| ensures GoodAnchor(anchors[i]) {
      assert anchors[i] in anchors;
    }
    ByIdFindsEveryAnchor(anchors);
    ByIdHoldsAnchors(anchors);
  }

  lemma BelongsIsOk(e: Entry, trees: Trees, byId: AnchorIndex)
    requires byId.Keys == trees.Keys
    requires forall eid <- trees :: byId[eid].root == Mth(trees[eid]) && byId[eid].leafCount == |trees[eid]|
    requires Belongs(e, trees)
    ensures RecordOk(e, byId)
  {
    if e.batch.Some? {
      var leaves := trees[e.batch.value.epoch];
      PathIsComplete(leaves, e.batch.value.leafIndex);
    }
  }

  /** An accepted record belongs: its path, if it brings one, is the audit path of its leaf. */
  lemma AcceptedBelongs(records: seq<Entry>, anchors: seq<Anchor>, trees: Trees, complete: bool, i: nat)
    requires Anchors(anchors, trees) && Accepts(records, anchors, complete) && i < |records|
    ensures Belongs(records[i], trees)
  {
    AnchorOf(anchors, trees);
    var e, byId := records[i], ById(anchors);
    assert RecordOk(e, byId);
    if e.batch.Some? {
      var b := e.batch.value;
      var leaves, a := trees[b.epoch], byId[b.epoch];
      AcceptedRecordIsItsLeaf(records, anchors, complete, a, leaves, i);
      match b.proof
      case Path(steps) => PathIsSound(leaves, LeafHashOf(e), steps);
      case NoProof =>
    }
  }

  lemma CompleteIsAllThere(records: seq<Entry>, a: Anchor)
    requires GoodAnchor(a) && forall i :: 0 <= i < |records| ==> (InEpoch(records[i], a.epoch) <==> BatchedIn(records[i], a.epoch))
    ensures Complete(records, a) <==> AllThere(records, a.epoch, a.leafCount)
    ensures HasProofless(records, a.epoch) <==> !AllProven(records, a.epoch)
  {
    forall k | 0 <= k < a.leafCount ensures k in Present(records, a.epoch) <==> IsThere(records, a.epoch, k) {
      if IsThere(records, a.epoch, k) {
        var i :| 0 <= i < |records| && InEpoch(records[i], a.epoch) && records[i].batch.value.leafIndex == k;
        assert BatchedIn(records[i], a.epoch);
      }
    }
  }

  lemma TreeRebuilds(records: seq<Entry>, a: Anchor, leaves: seq<Digest>, trees: Trees)
    requires GoodAnchor(a) && a.epoch in trees && leaves == trees[a.epoch] && a.root == Mth(leaves) && a.leafCount == |leaves|
    requires Complete(records, a) && forall i :: 0 <= i < |records| ==> Belongs(records[i], trees)
    ensures Rebuilds(records, a.epoch, leaves, a.root)
  {
    forall i | 0 <= i < |records| && BatchedIn(records[i], a.epoch)
      ensures var k := records[i].batch.value.leafIndex; k < |leaves| && leaves[k] == LeafHashOf(records[i])
    {
      assert Belongs(records[i], trees);
    }
  }

  lemma BelongsTogether(records: seq<Entry>, trees: Trees)
    requires forall i :: 0 <= i < |records| ==> Belongs(records[i], trees)
    ensures SlotsAgree(records)
    ensures forall eid, i :: 0 <= i < |records| ==> (InEpoch(records[i], eid) <==> BatchedIn(records[i], eid))
  {
    forall i, j | 0 <= i < j < |records| && SameSlot(records[i], records[j])
      ensures LeafHashOf(records[i]) == LeafHashOf(records[j])
    {
      assert Belongs(records[i], trees) && Belongs(records[j], trees);
    }
    forall eid, i | 0 <= i < |records| ensures InEpoch(records[i], eid) <==> BatchedIn(records[i], eid) {
      assert Belongs(records[i], trees);
    }
  }

  /** What an epoch must be: all there, or, where that is not asked for, every record with its path. */
  ghost predicate Whole(records: seq<Entry>, eid: string, count: nat, complete: bool) {
    AllThere(records, eid, count) || (!complete && AllProven(records, eid))
  }

  lemma EpochByLeaves(records: seq<Entry>, a: Anchor, leaves: seq<Digest>, trees: Trees, complete: bool)
    requires GoodAnchor(a) && a.epoch in trees && leaves == trees[a.epoch] && a.root == Mth(leaves) && a.leafCount == |leaves|
    requires forall i :: 0 <= i < |records| ==> Belongs(records[i], trees)
    ensures EpochOk(records, a, complete) <==> Whole(records, a.epoch, |leaves|, complete)
  {
    BelongsTogether(records, trees);
    CompleteIsAllThere(records, a);
    if Complete(records, a) {
      TreeRebuilds(records, a, leaves, trees);
    }
  }

  /**
   Against the anchors of known trees records are accepted if and only if each of them belongs
   and every epoch is whole: exactly the leaves at their indices, with their own audit paths
   or none; without paths only where every leaf is there; and every leaf where that is asked for.
   */
  lemma AcceptedByLeaves(records: seq<Entry>, anchors: seq<Anchor>, trees: Trees, complete: bool)
    requires Anchors(anchors, trees)
    ensures Accepts(records, anchors, complete) <==>
            && (forall i :: 0 <= i < |records| ==> Belongs(records[i], trees))
            && (forall eid <- trees :: Whole(records, eid, |trees[eid]|, complete))
  {
    AnchorOf(anchors, trees);
    var byId := ById(anchors);
    if Accepts(records, anchors, complete) {
      forall i | 0 <= i < |records| ensures Belongs(records[i], trees) {
        AcceptedBelongs(records, anchors, trees, complete, i);
      }
      forall eid <- trees ensures Whole(records, eid, |trees[eid]|, complete) {
        EpochByLeaves(records, byId[eid], trees[eid], trees, complete);
      }
    }
    if (forall i :: 0 <= i < |records| ==> Belongs(records[i], trees)) && (forall eid <- trees :: Whole(records, eid, |trees[eid]|, complete)) {
      BelongsTogether(records, trees);
      forall i | 0 <= i < |records| ensures RecordOk(records[i], byId) {
        BelongsIsOk(records[i], trees, byId);
      }
      forall eid <- byId ensures EpochOk(records, byId[eid], complete) {
        EpochByLeaves(records, byId[eid], trees[eid], trees, complete);
      }
    }
  }

  /* ---------- what anchoring writes ---------- */

  /** Every anchored record carries the root, the index of its last place in the list, and the audit path from there. */
  lemma AnchoredFields(records: seq<AuditRecord>, epoch: string, i: nat)
    requires Anchored(records, epoch) && i < |records|
    ensures records[i].batch.Some? && records[i].batch.value.Batch?
    ensures var (b, leaves) := (records[i].batch.value, LeafHashes(records));
            && b.epoch == epoch && b.root == Mth(leaves) && 0 <= b.leafIndex < |records|
            && records[b.leafIndex] == records[i] && (forall j :: b.leafIndex < j < |records| ==> records[j] != records[i])
            && b.proof == Path(AuditPath(leaves, b.leafIndex)) && leaves[b.leafIndex] == LeafHash(records[i].body.canonical)
  {
  }

  /* ---------- which anchor counts ---------- */

  /** The first usable anchor of an epoch: it has a leaf at least, and none before it is one of that epoch. */
  predicate IsFirst(anchors: seq<Anchor>, i: int) {
    && 0 <= i < |anchors| && anchors[i].Anchor? && 0 < anchors[i].leafCount
    && forall j :: 0 <= j < i ==> !(anchors[j].Anchor? && 0 < anchors[j].leafCount && anchors[j].epoch == anchors[i].epoch)
  }

  lemma FirstStaysFirst(front: seq<Anchor>, a: Anchor, i: int)
    requires IsFirst(front, i)
    ensures IsFirst(front + [a], i) && (front + [a])[i] == front[i]
  {
    assert forall j :: 0 <= j < |front| ==> (front + [a])[j] == front[j];
  }

  /** The anchor an epoch is checked against is its first usable one, whatever stands behind it. */
  lemma {:induction false} FirstAnchorCounts(anchors: seq<Anchor>, eid: string)
    ensures eid in ById(anchors) ==> exists i :: IsFirst(anchors, i) && ById(anchors)[eid] == anchors[i]
    ensures eid !in ById(anchors) ==> forall a <- anchors :: a.Anchor? && 0 < a.leafCount ==> a.epoch != eid
    decreases |anchors|
  {
    if anchors != [] {
      var n := |anchors| - 1;
      var front, a := anchors[..n], anchors[n];
      FirstAnchorCounts(front, eid);
      assert anchors == front + [a];
      if eid in ById(front) {
        var i :| IsFirst(front, i) && ById(front)[eid] == front[i];
        FirstStaysFirst(front, a, i);
      } else if GoodAnchor(a) && a.epoch == eid {
        assert forall j :: 0 <= j < n ==> anchors[j] == front[j] && front[j] in front;
        assert IsFirst(anchors, n);
      }
    }
  }

  /* ---------- epoch identifiers ---------- */

  predicate HexText(s: string, n: nat) {
    |s| == n && forall i :: 0 <= i < n ==> s[i] in "0123456789abcdef"
  }

  lemma HexChar(c: char)
    ensures c in "0123456789abcdef" <==> '0' <= c <= '9' || 'a' <= c <= 'f'
  {
    var digits := "0123456789abcdef";
    if '0' <= c <= '9' {
      assert digits[c as int - '0' as int] == c;
    } else if 'a' <= c <= 'f' {
      assert digits[c as int - 'a' as int + 10] == c;
    }
  }

  /** Five groups of lower-case hexadecimal digits with a dash between each two, the third a 4 and three digits, the fourth a digit from 8 to b and three. */
  ghost predicate FiveGroups(s: string, a: string, b: string, c: string, d: string, e: string) {
    && s == a + "-" + b + "-4" + c + "-" + d + "-" + e
    && HexText(a, 8) && HexText(b, 4) && HexText(c, 3) && HexText(d, 4) && HexText(e, 12) && d[0] in "89ab"
  }

  /** An epoch can be anchored under exactly the identifiers of that form. */
  lemma EpochIdForm(s: string)
    ensures CanonicalUuid4(s) <==> exists a, b, c, d, e :: FiveGroups(s, a, b, c, d, e)
  {
    if CanonicalUuid4(s) {
      GroupsOf(s);
    }
    forall a, b, c, d, e | FiveGroups(s, a, b, c, d, e) ensures CanonicalUuid4(s) {
      GroupsMake(s, a, b, c, d, e);
    }
  }

  lemma GroupsOf(s: string)
    requires CanonicalUuid4(s)
    ensures FiveGroups(s, s[..8], s[9..13], s[15..18], s[19..23], s[24..])
  {
    HexSlice(s, 0, 8);
    HexSlice(s, 9, 13);
    HexSlice(s, 15, 18);
    HexSlice(s, 19, 23);
    HexSlice(s, 24, 36);
    assert s[24..36] == s[24..];
    Reassembled(s);
  }

  lemma HexSlice(s: string, i: nat, j: nat)
    requires CanonicalUuid4(s) && i <= j <= 36 && (j <= 8 || 9 <= i <= j <= 13 || 14 <= i <= j <= 18 || 19 <= i <= j <= 23 || 24 <= i)
    ensures HexText(s[i..j], j - i)
  {
    forall k | i <= k < j ensures s[k] in "0123456789abcdef" {
      assert '0' <= s[k] <= '9' || 'a' <= s[k] <= 'f';
      HexChar(s[k]);
    }
  }

  lemma Reassembled(s: string)
    requires |s| == 36 && s[8] == s[13] == s[18] == s[23] == '-' && s[14] == '4'
    ensures s == s[..8] + "-" + s[9..13] + "-4" + s[15..18] + "-" + s[19..23] + "-" + s[24..]
  {
  }

  lemma GroupsMake(s: string, a: string, b: string, c: string, d: string, e: string)
    requires FiveGroups(s, a, b, c, d, e)
    ensures CanonicalUuid4(s)
  {
    forall i | 0 <= i < 36 && i != 8 && i != 13 && i != 18 && i != 23 ensures '0' <= s[i] <= '9' || 'a' <= s[i] <= 'f' {
      HexChar(s[i]);
      assert s[i] == if i < 8 then a[i] else if i < 13 then b[i - 9] else if i == 14 then '4' else if i < 18 then c[i - 15]
                     else if i < 23 then d[i - 19] else e[i - 24];
    }
  }
}
