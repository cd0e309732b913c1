/**
 Merkle epochs over audit records: anchoring a list of records in place, and checking
 records against the anchors they claim.
 */
module Epochs {
  import opened Wrappers
  import opened Merkle

  /* ---------- records, batches and anchors ---------- */

  /** How far the canonical serialisation of a record's own fields goes. */
  datatype Form =
    | Portable       // every integer within +/-(2^53-1): serialised by both modes
    | Wide           // serialised as doubles when verifying, refused when exporting
    | Unserialisable // refused by both modes

  /** A record without its detached batch: its canonical bytes, when it has any. */
  datatype Body = Body(canonical: Bytes, form: Form)

  datatype Proof = NoProof | BadProof | Path(steps: seq<Step>)

  datatype Batch =
    | BadBatch
    | Batch(epoch: string, root: Digest, leafIndex: int, proof: Proof)

  datatype Entry = NotAnObject | Record(body: Body, batch: Option<Batch>)

  /** An anchor: other stands for the fields the checks compare but never read. */
  datatype Anchor =
    | BadAnchor
    | Anchor(epoch: string, root: Digest, leafCount: int, other: Bytes)

  datatype Problem =
    | AnchorsNotAList
    | AnchorMalformed(at: nat)
    | ConflictingAnchors(at: nat)
    | RecordNotAnObject(at: nat)
    | BatchMalformed(at: nat)
    | NotCanonicalizable(at: nat)
    | NoAnchorForEpoch(at: nat)
    | RootDiffersFromAnchor(at: nat)
    | ProofUnusable(at: nat)
    | TwoRecordsAtOneIndex(at: nat)
    | IndexBeyondLeafCount(at: nat)
    | MoreLeavesThanCount(epoch: string)
    | DoesNotRebuild(epoch: string)
    | NotTheRebuiltLeaf(at: nat)
    | LeavesMissing(epoch: string)
    | MembershipNotVerifiable(epoch: string)
    | EpochUnaccountedFor(epoch: string)

  function LeafOf(body: Body, strict: bool): Option<Digest> {
    if body.form == Unserialisable || (strict && body.form == Wide) then None
    else Some(LeafHash(body.canonical))
  }

  /* ---------- what a clean report means ---------- */

  predicate GoodAnchor(a: Anchor) {
    a.Anchor? && 0 < a.leafCount
  }

  predicate GoodBatch(b: Batch) {
    b.Batch? && 0 <= b.leafIndex
  }

  /** The index of the anchors: the first good anchor of an epoch wins, conflicting ones are skipped. */
  function ById(anchors: seq<Anchor>): AnchorIndex {
    if anchors == [] then map[]
    else
      var earlier := ById(anchors[..|anchors| - 1]);
      var a := anchors[|anchors| - 1];
      if !GoodAnchor(a) || (a.epoch in earlier && earlier[a.epoch] != a) then earlier
      else earlier[a.epoch := a]
  }

  /** Good anchors by epoch. */
  type AnchorIndex = m: map<string, Anchor> | forall eid <- m :: GoodAnchor(m[eid]) && m[eid].epoch == eid
    witness map[]

  lemma {:induction false} ByIdHoldsAnchors(anchors: seq<Anchor>)
    ensures forall eid <- ById(anchors) :: ById(anchors)[eid] in anchors
  {
    if anchors != [] {
      ByIdHoldsAnchors(anchors[..|anchors| - 1]);
    }
  }

  /** Every anchor is good and no two of one epoch differ. */
  ghost predicate AnchorsOk(anchors: seq<Anchor>) {
    && (forall i :: 0 <= i < |anchors| ==> GoodAnchor(anchors[i]))
    && (forall i, j :: 0 <= i < j < |anchors| && anchors[i].epoch == anchors[j].epoch ==> anchors[i] == anchors[j])
  }

  lemma {:induction false} ByIdFindsEveryAnchor(anchors: seq<Anchor>)
    requires AnchorsOk(anchors)
    ensures forall a <- anchors :: a.epoch in ById(anchors) && ById(anchors)[a.epoch] == a
  {
    if anchors != [] {
      var n := |anchors| - 1;
      ByIdHoldsAnchors(anchors[..n]);
      ByIdFindsEveryAnchor(anchors[..n]);
      assert anchors == anchors[..n] + [anchors[n]];
    }
  }

  predicate Batched(e: Entry) {
    e.Record? && e.batch.Some? && GoodBatch(e.batch.value)
  }

  predicate BatchedIn(e: Entry, eid: string) {
    Batched(e) && e.batch.value.epoch == eid
  }

  function LeafHashOf(e: Entry): Digest
    requires Batched(e)
  {
    LeafHash(e.body.canonical)
  }

  predicate ProofOk(leaf: Digest, b: Batch, a: Anchor)
    requires GoodBatch(b) && GoodAnchor(a)
  {
    match b.proof
    case NoProof => true
    case BadProof => false
    case Path(steps) => RootOf(leaf, steps) == b.root && IndexOf(steps, a.leafCount) == Some(b.leafIndex)
  }

  /** A batched record agrees with its anchor: same root, an index below the count, and a proof that holds when there is one. */
  predicate FitsAnchor(e: Entry, a: Anchor)
    requires Batched(e) && GoodAnchor(a)
  {
    var b := e.batch.value;
    && a.root == b.root
    && b.leafIndex < a.leafCount
    && ProofOk(LeafHashOf(e), b, a)
  }

  /** A record stands on its own against the anchors. */
  predicate RecordOk(e: Entry, byId: AnchorIndex)
  {
    && e.Record?
    && (e.batch == None ||
        (&& Batched(e)
         && e.body.form != Unserialisable
         && e.batch.value.epoch in byId
         && FitsAnchor(e, byId[e.batch.value.epoch])))
  }

  predicate SameSlot(x: Entry, y: Entry) {
    && Batched(x) && Batched(y)
    && x.batch.value.epoch == y.batch.value.epoch
    && x.batch.value.leafIndex == y.batch.value.leafIndex
  }

  /** No two different records claim one index of one epoch. */
  ghost predicate SlotsAgree(records: seq<Entry>) {
    forall i, j :: 0 <= i < j < |records| && SameSlot(records[i], records[j]) ==>
      LeafHashOf(records[i]) == LeafHashOf(records[j])
  }

  /** The leaf indices of one epoch that some record claims. */
  ghost function Present(records: seq<Entry>, eid: string): set<int> {
    set i | 0 <= i < |records| && BatchedIn(records[i], eid) :: records[i].batch.value.leafIndex
  }

  ghost predicate HasProofless(records: seq<Entry>, eid: string) {
    exists i :: 0 <= i < |records| && BatchedIn(records[i], eid) && records[i].batch.value.proof == NoProof
  }

  /** The records of one epoch are all the leaves of a tree with the given root. */
  ghost predicate Rebuilds(records: seq<Entry>, eid: string, leaves: seq<Digest>, root: Digest) {
    && Mth(leaves) == root
    && (forall i :: 0 <= i < |records| && BatchedIn(records[i], eid) ==>
          var k := records[i].batch.value.leafIndex;
          k < |leaves| && leaves[k] == LeafHashOf(records[i]))
    && (forall k :: 0 <= k < |leaves| ==> k in Present(records, eid))
  }

  ghost predicate Complete(records: seq<Entry>, a: Anchor)
    requires a.Anchor?
  {
    forall k :: 0 <= k < a.leafCount ==> k in Present(records, a.epoch)
  }

  /** A complete epoch rebuilds its root; an incomplete one is tolerated only when asked and when every record brings its proof. */
  ghost predicate EpochOk(records: seq<Entry>, a: Anchor, requireComplete: bool)
    requires GoodAnchor(a)
  {
    if Complete(records, a)
    then exists leaves :: |leaves| == a.leafCount && Rebuilds(records, a.epoch, leaves, a.root)
    else !requireComplete && !HasProofless(records, a.epoch)
  }

  ghost predicate RecordsOk(records: seq<Entry>, byId: AnchorIndex)
  {
    && (forall i :: 0 <= i < |records| ==> RecordOk(records[i], byId))
    && SlotsAgree(records)
  }

  /** What verify_epochs must report as clean. */
  ghost predicate Accepts(records: seq<Entry>, anchors: seq<Anchor>, requireComplete: bool) {
    var byId := ById(anchors);
    && AnchorsOk(anchors)
    && RecordsOk(records, byId)
    && (forall eid <- byId :: EpochOk(records, byId[eid], requireComplete))
  }

  /* ---------- the checking loops ---------- */

  method IndexAnchors(anchors: seq<Anchor>) returns (byId: AnchorIndex, problems: seq<Problem>)
    ensures byId == ById(anchors)
    ensures problems == [] <==> AnchorsOk(anchors)
  {
    byId, problems := map[], [];
    for i := 0 to |anchors|
      invariant byId == ById(anchors[..i])
      invariant problems == [] <==> AnchorsOk(anchors[..i])
    {
      var a := anchors[i];
      assert anchors[..i + 1] == anchors[..i] + [a];
      AnchorsOkExtends(anchors[..i], a);
      if !GoodAnchor(a) {
        problems := problems + [AnchorMalformed(i)];
      } else if a.epoch in byId && byId[a.epoch] != a {
        problems := problems + [ConflictingAnchors(i)];
      } else {
        byId := byId[a.epoch := a];
      }
    }
    assert anchors[..|anchors|] == anchors;
  }

  lemma AnchorsOkExtends(anchors: seq<Anchor>, a: Anchor)
    ensures AnchorsOk(anchors + [a]) <==>
            AnchorsOk(anchors) && GoodAnchor(a) && (a.epoch in ById(anchors) ==> ById(anchors)[a.epoch] == a)
  {
    var both := anchors + [a];
    assert both[|anchors|] == a && both[..|anchors|] == anchors;
    ByIdHoldsAnchors(anchors);
    if AnchorsOk(anchors) {
      ByIdFindsEveryAnchor(anchors);
      assert forall i :: 0 <= i < |anchors| ==> both[i] == anchors[i] && anchors[i] in anchors;
    }
    if AnchorsOk(both) {
      assert forall i :: 0 <= i < |anchors| ==> anchors[i] == both[i];
    }
  }

  type Slots = map<string, map<int, Digest>>

  /** The slots after one more batched record. */
  function Filled(slots: Slots, e: Entry): Slots
    requires Batched(e)
  {
    var b := e.batch.value;
    slots[b.epoch := (if b.epoch in slots then slots[b.epoch] else map[])[b.leafIndex := LeafHashOf(e)]]
  }

  /** The slots a list of records fills, the last claimant of a slot winning. */
  function SlotsOf(records: seq<Entry>): Slots {
    if records == [] then map[]
    else
      var slots, e := SlotsOf(records[..|records| - 1]), records[|records| - 1];
      if Batched(e) then Filled(slots, e) else slots
  }

  lemma {:induction false} SlotsOfKeys(records: seq<Entry>, eid: string)
    ensures eid in SlotsOf(records) ==> SlotsOf(records)[eid].Keys == Present(records, eid) != {}
    ensures eid !in SlotsOf(records) ==> Present(records, eid) == {}
  {
    if records != [] {
      var front, e := records[..|records| - 1], records[|records| - 1];
      assert records == front + [e];
      SlotsOfKeys(front, eid);
      PresentExtends(front, e, eid);
    }
  }

  predicate InSlot(slots: Slots, e: Entry)
    requires Batched(e)
  {
    e.batch.value.epoch in slots && e.batch.value.leafIndex in slots[e.batch.value.epoch]
  }

  function AtSlot(slots: Slots, e: Entry): Digest
    requires Batched(e) && InSlot(slots, e)
  {
    slots[e.batch.value.epoch][e.batch.value.leafIndex]
  }

  /** When no two records disagree, a slot holds the leaf hash of every claimant. */
  lemma {:induction false} SlotsOfHashes(records: seq<Entry>)
    requires SlotsAgree(records)
    ensures forall i :: 0 <= i < |records| && Batched(records[i]) ==>
      InSlot(SlotsOf(records), records[i]) && AtSlot(SlotsOf(records), records[i]) == LeafHashOf(records[i])
  {
    if records != [] {
      var n := |records| - 1;
      SlotsOfHashes(records[..n]);
      forall i | 0 <= i < n && Batched(records[i])
        ensures InSlot(SlotsOf(records), records[i]) && AtSlot(SlotsOf(records), records[i]) == LeafHashOf(records[i])
      {
        assert records[..n][i] == records[i];
        if SameSlot(records[i], records[n]) {
        }
      }
    }
  }

  lemma PresentExtends(records: seq<Entry>, e: Entry, eid: string)
    ensures Present(records + [e], eid)
         == Present(records, eid) + if BatchedIn(e, eid) then {e.batch.value.leafIndex} else {}
  {
    var all := records + [e];
    assert forall i :: 0 <= i < |records| ==> all[i] == records[i];
    assert all[|records|] == e;
    forall k | k in Present(records, eid) ensures k in Present(all, eid) {
      var i :| 0 <= i < |records| && BatchedIn(records[i], eid) && records[i].batch.value.leafIndex == k;
      assert BatchedIn(all[i], eid);
    }
  }

  lemma RecordsOkExtends(records: seq<Entry>, e: Entry, byId: AnchorIndex)
    ensures RecordsOk(records + [e], byId) <==>
            && RecordsOk(records, byId)
            && RecordOk(e, byId)
            && (Batched(e) && InSlot(SlotsOf(records), e) ==> AtSlot(SlotsOf(records), e) == LeafHashOf(e))
  {
    var all := records + [e];
    assert forall i :: 0 <= i < |records| ==> all[i] == records[i];
    assert all[|records|] == e;
    if SlotsAgree(all) {
      forall i, j | 0 <= i < j < |records| && SameSlot(records[i], records[j])
        ensures LeafHashOf(records[i]) == LeafHashOf(records[j])
      {
        assert SameSlot(all[i], all[j]);
      }
    }
    if SlotsAgree(records) {
      SlotsOfHashes(records);
      if Batched(e) {
        var eid := e.batch.value.epoch;
        SlotsOfKeys(records, eid);
        if InSlot(SlotsOf(records), e) {
          assert e.batch.value.leafIndex in Present(records, eid);
          var i :| 0 <= i < |records| && BatchedIn(records[i], eid)
                && records[i].batch.value.leafIndex == e.batch.value.leafIndex;
          assert SameSlot(all[i], e);
        }
        forall i | 0 <= i < |records| && SameSlot(records[i], e) ensures InSlot(SlotsOf(records), e) {
          assert BatchedIn(records[i], eid);
        }
      }
    }
  }

  /** A record without a proof: where it stands, and the leaf it claims to be. */
  datatype Claim = Claim(at: nat, leafIndex: int, leaf: Digest)

  type Claims = map<string, seq<Claim>>

  /** The record at a position, put on its epoch's list of records without a proof. */
  function Noted(lists: Claims, at: nat, e: Entry): Claims
    requires Batched(e)
  {
    var b := e.batch.value;
    lists[b.epoch := ListOf(lists, b.epoch) + [Claim(at, b.leafIndex, LeafHashOf(e))]]
  }

  function ListOf(lists: Claims, eid: string): seq<Claim> {
    if eid in lists then lists[eid] else []
  }

  /** The records of each epoch that bring no proof. */
  function ClaimsOf(records: seq<Entry>): Claims {
    if records == [] then map[]
    else
      var n := |records| - 1;
      var lists, e := ClaimsOf(records[..n]), records[n];
      if Batched(e) && e.batch.value.proof == NoProof then Noted(lists, n, e) else lists
  }

  /** A claim is some record's. */
  ghost predicate Claimed(records: seq<Entry>, eid: string, c: Claim) {
    && c.at < |records| && BatchedIn(records[c.at], eid)
    && records[c.at].batch.value.leafIndex == c.leafIndex && LeafHashOf(records[c.at]) == c.leaf
  }

  lemma {:induction false} ClaimsOfMeans(records: seq<Entry>)
    ensures forall eid :: eid in ClaimsOf(records) <==> HasProofless(records, eid)
    ensures forall eid <- ClaimsOf(records), c <- ClaimsOf(records)[eid] :: Claimed(records, eid, c)
  {
    if records != [] {
      var n := |records| - 1;
      var front, e := records[..n], records[n];
      ClaimsOfMeans(front);
      forall eid
        ensures HasProofless(records, eid)
           <==> HasProofless(front, eid) || (BatchedIn(e, eid) && e.batch.value.proof == NoProof)
      {
        if HasProofless(front, eid) {
          var i :| 0 <= i < n && BatchedIn(front[i], eid) && front[i].batch.value.proof == NoProof;
          assert BatchedIn(records[i], eid);
        }
      }
      assert forall eid, c :: Claimed(front, eid, c) ==> Claimed(records, eid, c);
    }
  }

  /** Every claimed slot of an epoch with a list is filled. */
  ghost predicate Covered(lists: Claims, slots: Slots) {
    forall eid <- lists :: eid in slots && forall c <- lists[eid] :: c.leafIndex in slots[eid]
  }

  method CheckRecords(records: seq<Entry>, byId: AnchorIndex)
    returns (problems: seq<Problem>, leaves: Slots, noProof: Claims)
    ensures problems == [] <==> RecordsOk(records, byId)
    ensures leaves.Keys <= byId.Keys && Covered(noProof, leaves)
    ensures problems == [] ==> leaves == SlotsOf(records) && noProof == ClaimsOf(records)
  {
    problems, leaves, noProof := [], map[], map[];
    var seen: Slots := map[];
    for i := 0 to |records|
      invariant problems == [] <==> RecordsOk(records[..i], byId)
      invariant leaves.Keys <= byId.Keys && Covered(noProof, leaves)
      invariant problems == [] ==> seen == leaves == SlotsOf(records[..i]) && noProof == ClaimsOf(records[..i])
    {
      assert records[..i + 1] == records[..i] + [records[i]];
      RecordsOkExtends(records[..i], records[i], byId);
      var found;
      found, seen, leaves, noProof := CheckRecord(i, records[i], byId, seen, leaves, noProof);
      problems := problems + found;
    }
    assert records[..|records|] == records;
  }

  /** One record: its problems, and the state the next record is checked in. */
  method CheckRecord(i: nat, e: Entry, byId: AnchorIndex, seen0: Slots, leaves0: Slots, noProof0: Claims)
    returns (problems: seq<Problem>, seen: Slots, leaves: Slots, noProof: Claims)
    requires leaves0.Keys <= byId.Keys && Covered(noProof0, leaves0)
    ensures problems == [] <==>
            RecordOk(e, byId) && (Batched(e) && InSlot(seen0, e) ==> AtSlot(seen0, e) == LeafHashOf(e))
    ensures leaves.Keys <= byId.Keys && Covered(noProof, leaves)
    ensures problems == [] && seen0 == leaves0 ==>
            && seen == leaves == (if Batched(e) then Filled(leaves0, e) else leaves0)
            && noProof == if Batched(e) && e.batch.value.proof == NoProof then Noted(noProof0, i, e) else noProof0
  {
    seen, leaves, noProof := seen0, leaves0, noProof0;
    if e.NotAnObject? {
      return [RecordNotAnObject(i)], seen, leaves, noProof;
    }
    if e.batch == None {
      return [], seen, leaves, noProof;
    }
    var b := e.batch.value;
    if !GoodBatch(b) {
      return [BatchMalformed(i)], seen, leaves, noProof;
    }
    var leaf := LeafOf(e.body, false);
    if leaf == None {
      return [NotCanonicalizable(i)], seen, leaves, noProof;
    }
    var lh := leaf.value;
    if b.epoch !in byId {
      return [NoAnchorForEpoch(i)], seen, leaves, noProof;
    }
    var a := byId[b.epoch];
    problems := CheckBatch(i, lh, b, a);
    if b.proof == NoProof {
      noProof := Noted(noProof, i, e);
    }
    var slots := if b.epoch in seen then seen[b.epoch] else map[];
    if b.leafIndex in slots && slots[b.leafIndex] != lh {
      problems := problems + [TwoRecordsAtOneIndex(i)];
    }
    seen := seen[b.epoch := slots[b.leafIndex := lh]];
    if b.leafIndex >= a.leafCount {
      problems := problems + [IndexBeyondLeafCount(i)];
    }
    var lv := if b.epoch in leaves then leaves[b.epoch] else map[];
    if b.leafIndex !in lv || b.proof != NoProof {
      lv := lv[b.leafIndex := lh];
    }
    leaves := leaves[b.epoch := lv];
    assert problems == [] && seen0 == leaves0 ==> lv == slots[b.leafIndex := lh];
  }

  /** The root and the inclusion proof of one batch. */
  method CheckBatch(at: nat, lh: Digest, b: Batch, a: Anchor) returns (problems: seq<Problem>)
    requires GoodBatch(b) && GoodAnchor(a)
    ensures problems == [] <==> a.root == b.root && ProofOk(lh, b, a)
  {
    problems := [];
    if a.root != b.root {
      problems := problems + [RootDiffersFromAnchor(at)];
    }
    match b.proof {
      case NoProof =>
      case BadProof =>
        problems := problems + [ProofUnusable(at)];
      case Path(steps) =>
        var root := RootFromPath(lh, steps);
        if root != b.root {
          problems := problems + [ProofUnusable(at)];
        } else {
          var index := IndexFromPath(steps, a.leafCount);
          if index != Some(b.leafIndex) {
            problems := problems + [ProofUnusable(at)];
          }
        }
    }
  }

  /* ---------- whole epochs ---------- */

  function Range(n: nat): (r: set<int>)
    ensures forall k :: k in r <==> 0 <= k < n
    ensures |r| == n
  {
    if n == 0 then {} else Range(n - 1) + {n - 1}
  }

  predicate FullRange(lv: map<int, Digest>, count: nat) {
    lv.Keys == Range(count)
  }

  function LeavesOf(lv: map<int, Digest>, count: nat): seq<Digest>
    requires FullRange(lv, count)
  {
    seq(count, k requires 0 <= k < count => assert k in lv.Keys; lv[k])
  }

  predicate Rebuilt(lv: map<int, Digest>, a: Anchor)
    requires GoodAnchor(a)
  {
    FullRange(lv, a.leafCount) && Mth(LeavesOf(lv, a.leafCount)) == a.root
  }

  predicate ClaimsHold(lv: map<int, Digest>, listed: seq<Claim>)
    requires forall c <- listed :: c.leafIndex in lv
  {
    forall c <- listed :: lv[c.leafIndex] == c.leaf
  }

  /** An epoch with at least one record is in order as far as its slots say. */
  ghost predicate EpochClean(a: Anchor, lv: map<int, Digest>, listed: seq<Claim>, requireComplete: bool)
    requires GoodAnchor(a)
    requires forall c <- listed :: c.leafIndex in lv
  {
    && |lv| <= a.leafCount
    && (FullRange(lv, a.leafCount) ==> Rebuilt(lv, a) && ClaimsHold(lv, listed))
    && (|lv| < a.leafCount ==> !requireComplete)
  }

  lemma FullRangeSize(lv: map<int, Digest>, count: nat)
    ensures FullRange(lv, count) ==> |lv| == count
  {
    assert |lv| == |lv.Keys|;
  }

  /** The claim is not the leaf in its slot. */
  predicate IsMistaken(lv: map<int, Digest>, c: Claim)
    requires c.leafIndex in lv
  {
    lv[c.leafIndex] != c.leaf
  }

  /** Every record of a rebuilt epoch against the leaf in its slot: exactly the mistaken ones are reported. */
  method CheckClaims(lv: map<int, Digest>, listed: seq<Claim>) returns (problems: seq<Problem>)
    requires forall c <- listed :: c.leafIndex in lv
    ensures problems == [] <==> ClaimsHold(lv, listed)
    ensures forall p :: p in problems <==> exists c <- listed :: IsMistaken(lv, c) && p == NotTheRebuiltLeaf(c.at)
  {
    problems := [];
    for i := 0 to |listed|
      invariant problems == [] <==> forall k :: 0 <= k < i ==> !IsMistaken(lv, listed[k])
      invariant forall p :: p in problems <==>
                  exists k :: 0 <= k < i && IsMistaken(lv, listed[k]) && p == NotTheRebuiltLeaf(listed[k].at)
    {
      if lv[listed[i].leafIndex] != listed[i].leaf {
        problems := problems + [NotTheRebuiltLeaf(listed[i].at)];
      }
    }
    assert ClaimsHold(lv, listed) <==> forall k :: 0 <= k < |listed| ==> !IsMistaken(lv, listed[k]);
  }

  /** One epoch with at least one record: rebuilt when every leaf is there, reported when some are missing. */
  method CheckEpoch(a: Anchor, lv: map<int, Digest>, listed: seq<Claim>, requireComplete: bool)
    returns (problems: seq<Problem>, rebuilt: bool, short: bool)
    requires GoodAnchor(a)
    requires forall c <- listed :: c.leafIndex in lv
    ensures rebuilt == Rebuilt(lv, a)
    ensures short == (|lv| < a.leafCount)
    ensures problems == [] <==> EpochClean(a, lv, listed, requireComplete)
  {
    problems, rebuilt, short := [], false, false;
    FullRangeSize(lv, a.leafCount);
    if |lv| > a.leafCount {
      problems := [MoreLeavesThanCount(a.epoch)];
    } else if |lv| == a.leafCount && FullRange(lv, a.leafCount) {
      var root := MerkleRoot(LeavesOf(lv, a.leafCount));
      if root != a.root {
        problems := [DoesNotRebuild(a.epoch)];
      } else {
        rebuilt := true;
        problems := CheckClaims(lv, listed);
      }
    } else if |lv| < a.leafCount {
      short := true;
      if requireComplete {
        problems := [LeavesMissing(a.epoch)];
      }
    }
  }

  /** On records that stand on their own, the slots of an epoch decide whether it is in order. */
  lemma EpochOkBySlots(records: seq<Entry>, byId: AnchorIndex, eid: string, requireComplete: bool)
    requires RecordsOk(records, byId)
    requires eid in byId
    ensures Complete(records, byId[eid]) <==>
              eid in SlotsOf(records) && byId[eid].leafCount <= |SlotsOf(records)[eid]|
    ensures var a := byId[eid];
            if eid !in SlotsOf(records) then
              !HasProofless(records, eid) && (EpochOk(records, a, requireComplete) <==> !requireComplete)
            else
              var lv := SlotsOf(records)[eid];
              && |lv| <= a.leafCount
              && (|lv| < a.leafCount <==> !FullRange(lv, a.leafCount))
              && (EpochOk(records, a, requireComplete) <==>
                  if FullRange(lv, a.leafCount) then Rebuilt(lv, a)
                  else !requireComplete && !HasProofless(records, eid))
  {
    var a := byId[eid];
    var range := Range(a.leafCount);
    SlotsOfKeys(records, eid);
    SlotsOfHashes(records);
    if eid !in SlotsOf(records) {
      NothingPresent(records, eid);
      assert 0 !in Present(records, eid);
    } else {
      var lv := SlotsOf(records)[eid];
      forall k | k in Present(records, eid) ensures k in range {
        var i :| 0 <= i < |records| && BatchedIn(records[i], eid) && records[i].batch.value.leafIndex == k;
        assert RecordOk(records[i], byId);
      }
      assert |lv| == |lv.Keys|;
      SubsetSize(lv.Keys, range);
      assert Complete(records, a) <==> FullRange(lv, a.leafCount) by {
        if Complete(records, a) {
          assert lv.Keys == range;
        }
      }
      if FullRange(lv, a.leafCount) {
        RebuildsBySlots(records, a, lv);
      }
    }
  }

  lemma NothingPresent(records: seq<Entry>, eid: string)
    ensures Present(records, eid) == {} ==> forall i :: 0 <= i < |records| ==> !BatchedIn(records[i], eid)
  {
    if i :| 0 <= i < |records| && BatchedIn(records[i], eid) {
      assert records[i].batch.value.leafIndex in Present(records, eid);
    }
  }

  lemma RebuildsBySlots(records: seq<Entry>, a: Anchor, lv: map<int, Digest>)
    requires GoodAnchor(a)
    requires SlotsAgree(records)
    requires a.epoch in SlotsOf(records) && lv == SlotsOf(records)[a.epoch]
    requires FullRange(lv, a.leafCount)
    ensures Rebuilt(lv, a) <==> exists leaves :: |leaves| == a.leafCount && Rebuilds(records, a.epoch, leaves, a.root)
  {
    SlotsOfKeys(records, a.epoch);
    SlotsOfHashes(records);
    var built := LeavesOf(lv, a.leafCount);
    if Rebuilt(lv, a) {
      forall i | 0 <= i < |records| && BatchedIn(records[i], a.epoch)
        ensures var k := records[i].batch.value.leafIndex; k < |built| && built[k] == LeafHashOf(records[i])
      {
        assert InSlot(SlotsOf(records), records[i]);
        assert records[i].batch.value.leafIndex in lv.Keys;
      }
      assert forall k :: 0 <= k < |built| ==> k in lv.Keys;
      assert Rebuilds(records, a.epoch, built, a.root);
    }
    forall leaves | |leaves| == a.leafCount && Rebuilds(records, a.epoch, leaves, a.root) ensures leaves == built {
      forall k | 0 <= k < a.leafCount ensures leaves[k] == built[k] {
        assert k in Present(records, a.epoch);
        var i :| 0 <= i < |records| && BatchedIn(records[i], a.epoch) && records[i].batch.value.leafIndex == k;
      }
    }
  }

  lemma {:induction false} SubsetSize<T>(s: set<T>, t: set<T>)
    requires s <= t
    ensures |s| <= |t| && (|s| == |t| <==> s == t)
  {
    if s == t {
    } else if s != {} {
      var x :| x in s;
      SubsetSize(s - {x}, t - {x});
    } else {
      assert t != {};
    }
  }

  /** On records that stand on their own, every claim's slot is filled with the claimed leaf. */
  lemma ClaimsHoldInSlots(records: seq<Entry>)
    requires SlotsAgree(records)
    ensures var slots, lists := SlotsOf(records), ClaimsOf(records);
            Covered(lists, slots) && forall eid <- lists :: ClaimsHold(slots[eid], lists[eid])
  {
    var slots, lists := SlotsOf(records), ClaimsOf(records);
    ClaimsOfMeans(records);
    SlotsOfHashes(records);
    forall eid, c: Claim | eid in lists && c in lists[eid]
      ensures eid in slots && c.leafIndex in slots[eid] && slots[eid][c.leafIndex] == c.leaf
    {
      assert Claimed(records, eid, c);
      assert InSlot(slots, records[c.at]);
    }
    forall eid <- lists ensures eid in slots {
      var i :| 0 <= i < |records| && BatchedIn(records[i], eid) && records[i].batch.value.proof == NoProof;
      assert InSlot(slots, records[i]);
    }
  }

  /** What the slots of one epoch say: in order, rebuilt, short of leaves. */
  datatype Verdict = Verdict(clean: bool, rebuilt: bool, short: bool)

  ghost function VerdictOf(a: Anchor, lv: map<int, Digest>, listed: seq<Claim>, requireComplete: bool): Verdict
    requires GoodAnchor(a)
    requires forall c <- listed :: c.leafIndex in lv
  {
    Verdict(EpochClean(a, lv, listed, requireComplete), Rebuilt(lv, a), |lv| < a.leafCount)
  }

  ghost function Verdicts(byId: AnchorIndex, leaves: Slots, lists: Claims, requireComplete: bool): map<string, Verdict>
    requires leaves.Keys <= byId.Keys && Covered(lists, leaves)
  {
    map eid <- leaves :: VerdictOf(byId[eid], leaves[eid], ListOf(lists, eid), requireComplete)
  }

  /** How far the loop over epochs has come: those in todo are still to be looked at. */
  ghost predicate LookedAt(v: map<string, Verdict>, lists: Claims, todo: set<string>, clean: bool, incomplete: set<string>, noProof: Claims) {
    && (clean <==> forall eid <- v :: eid in todo || v[eid].clean)
    && (forall eid :: eid in incomplete <==> eid in v && eid !in todo && v[eid].short)
    && (forall eid :: eid in noProof <==> eid in lists && (eid in todo || !(eid in v && v[eid].rebuilt)))
    && (forall eid <- noProof :: noProof[eid] == lists[eid])
  }

  lemma LookedAtStart(v: map<string, Verdict>, lists: Claims)
    ensures LookedAt(v, lists, v.Keys, true, {}, lists)
  {
  }

  lemma LookedAtOneMore(v: map<string, Verdict>, lists: Claims, todo: set<string>, clean: bool, incomplete: set<string>, noProof: Claims, eid: string)
    requires LookedAt(v, lists, todo, clean, incomplete, noProof) && eid in todo && eid in v
    ensures LookedAt(v, lists, todo - {eid}, clean && v[eid].clean,
                     if v[eid].short then incomplete + {eid} else incomplete,
                     if v[eid].rebuilt then noProof - {eid} else noProof)
  {
    var rest := todo - {eid};
    if clean && v[eid].clean {
      forall e <- v ensures e in rest || v[e].clean {
        assert e in todo || v[e].clean;
      }
    } else if !clean {
      var e :| e in v && e !in todo && !v[e].clean;
      assert e !in rest;
    } else {
      assert eid !in rest;
    }
  }

  /** The epochs with records, in any order. */
  method CheckSeenEpochs(byId: AnchorIndex, leaves: Slots, lists: Claims, requireComplete: bool)
    returns (problems: seq<Problem>, incomplete: set<string>, noProof: Claims)
    requires leaves.Keys <= byId.Keys && Covered(lists, leaves)
    ensures LookedAt(Verdicts(byId, leaves, lists, requireComplete), lists, {}, problems == [], incomplete, noProof)
  {
    problems, incomplete, noProof := [], {}, lists;
    ghost var v := Verdicts(byId, leaves, lists, requireComplete);
    var todo := leaves.Keys;
    LookedAtStart(v, lists);
    while todo != {}
      invariant todo <= leaves.Keys
      invariant LookedAt(v, lists, todo, problems == [], incomplete, noProof)
      decreases |todo|
    {
      var eid :| eid in todo;
      assert ListOf(noProof, eid) == ListOf(lists, eid);
      var found, rebuilt, short := CheckEpochAt(eid, byId, leaves, lists, noProof, requireComplete);
      LookedAtOneMore(v, lists, todo, problems == [], incomplete, noProof, eid);
      todo := todo - {eid};
      problems := problems + found;
      if rebuilt {
        noProof := noProof - {eid};
      }
      if short {
        incomplete := incomplete + {eid};
      }
    }
  }

  method CheckEpochAt(eid: string, byId: AnchorIndex, leaves: Slots, ghost lists: Claims, noProof: Claims, requireComplete: bool)
    returns (problems: seq<Problem>, rebuilt: bool, short: bool)
    requires leaves.Keys <= byId.Keys && Covered(lists, leaves) && eid in leaves
    requires ListOf(noProof, eid) == ListOf(lists, eid)
    ensures var v := Verdicts(byId, leaves, lists, requireComplete)[eid];
            v.rebuilt == rebuilt && v.short == short && v.clean == (problems == [])
  {
    problems, rebuilt, short := CheckEpoch(byId[eid], leaves[eid], ListOf(noProof, eid), requireComplete);
  }

  /** On records that stand on their own, the verdict of one epoch and its claims decide it. */
  lemma EpochOkByVerdict(records: seq<Entry>, byId: AnchorIndex, requireComplete: bool, eid: string)
    requires RecordsOk(records, byId) && SlotsOf(records).Keys <= byId.Keys && Covered(ClaimsOf(records), SlotsOf(records))
    requires eid in byId
    ensures var v := Verdicts(byId, SlotsOf(records), ClaimsOf(records), requireComplete);
            && (EpochOk(records, byId[eid], requireComplete) <==>
                if eid in v then v[eid].clean && (eid in ClaimsOf(records) ==> v[eid].rebuilt) else !requireComplete)
            && (Complete(records, byId[eid]) <==> eid in v && !v[eid].short)
  {
    ClaimsHoldInSlots(records);
    ClaimsOfMeans(records);
    EpochOkBySlots(records, byId, eid, requireComplete);
  }

  lemma SlotsAreAnchored(records: seq<Entry>, byId: AnchorIndex)
    requires RecordsOk(records, byId)
    ensures SlotsOf(records).Keys <= byId.Keys
  {
    forall eid <- SlotsOf(records) ensures eid in byId {
      SlotsOfKeys(records, eid);
      var k :| k in Present(records, eid);
      var i :| 0 <= i < |records| && BatchedIn(records[i], eid) && records[i].batch.value.leafIndex == k;
      assert RecordOk(records[i], byId);
    }
  }

  /** The verdicts of all epochs together decide whether the records are in order. */
  ghost predicate VerdictsOk(v: map<string, Verdict>, lists: Claims, byId: AnchorIndex, requireComplete: bool) {
    && (forall eid <- v :: v[eid].clean)
    && (forall eid <- lists :: eid in v && v[eid].rebuilt)
    && (forall eid <- byId :: eid in v || !requireComplete)
  }

  /** Epoch by epoch, or all verdicts together. */
  lemma VerdictsDecide(v: map<string, Verdict>, lists: Claims, byId: AnchorIndex, requireComplete: bool, fine: map<string, bool>)
    requires lists.Keys <= v.Keys <= byId.Keys == fine.Keys
    requires forall eid <- byId :: fine[eid] <==>
               if eid in v then v[eid].clean && (eid in lists ==> v[eid].rebuilt) else !requireComplete
    ensures (forall eid <- byId :: fine[eid]) <==> VerdictsOk(v, lists, byId, requireComplete)
  {
    if forall eid <- byId :: fine[eid] {
      forall eid <- v ensures v[eid].clean && (eid in lists ==> v[eid].rebuilt) {
        assert fine[eid];
      }
      forall eid <- byId ensures eid in v || !requireComplete {
        assert fine[eid];
      }
    }
  }

  lemma EpochsOkByVerdicts(records: seq<Entry>, byId: AnchorIndex, requireComplete: bool)
    requires RecordsOk(records, byId)
    ensures var slots, lists := SlotsOf(records), ClaimsOf(records);
            && slots.Keys <= byId.Keys && Covered(lists, slots)
            && var v := Verdicts(byId, slots, lists, requireComplete);
            && ((forall eid <- byId :: EpochOk(records, byId[eid], requireComplete)) <==>
                VerdictsOk(v, lists, byId, requireComplete))
            && (forall eid <- byId :: Complete(records, byId[eid]) <==> eid in v && !v[eid].short)
  {
    SlotsAreAnchored(records, byId);
    ClaimsHoldInSlots(records);
    var lists := ClaimsOf(records);
    var v := Verdicts(byId, SlotsOf(records), lists, requireComplete);
    forall eid <- byId {
      EpochOkByVerdict(records, byId, requireComplete, eid);
    }
    var fine := map eid <- byId :: EpochOk(records, byId[eid], requireComplete);
    VerdictsDecide(v, lists, byId, requireComplete, fine);
    assert (forall eid <- byId :: fine[eid]) <==> forall eid <- byId :: EpochOk(records, byId[eid], requireComplete);
  }

  method VerifyEpochs(records: seq<Entry>, anchors: Option<seq<Anchor>>, requireComplete: bool)
    returns (ok: bool, problems: seq<Problem>, incomplete: set<string>)
    ensures ok == (problems == [])
    ensures ok <==> anchors.Some? && Accepts(records, anchors.value, requireComplete)
    ensures ok ==> forall eid :: eid in incomplete <==>
              eid in ById(anchors.value) && !Complete(records, ById(anchors.value)[eid])
  {
    problems := [];
    var list: seq<Anchor> := [];
    if anchors == None {
      problems := [AnchorsNotAList];
    } else {
      list := anchors.value;
    }
    var byId, found := IndexAnchors(list);
    problems := problems + found;
    var leaves, claims;
    found, leaves, claims := CheckRecords(records, byId);
    if RecordsOk(records, byId) {
      EpochsOkByVerdicts(records, byId, requireComplete);
    }
    problems := problems + found;
    found, incomplete := CheckEpochs(byId, leaves, claims, requireComplete);
    problems := problems + found;
    ok := problems == [];
  }

  method CheckEpochs(byId: AnchorIndex, leaves: Slots, lists: Claims, requireComplete: bool)
    returns (problems: seq<Problem>, incomplete: set<string>)
    requires leaves.Keys <= byId.Keys && Covered(lists, leaves)
    ensures var v := Verdicts(byId, leaves, lists, requireComplete);
            && (problems == [] <==> VerdictsOk(v, lists, byId, requireComplete))
            && (forall eid :: eid in incomplete <==> eid in byId && !(eid in v && !v[eid].short))
  {
    var found, noProof;
    problems, incomplete, noProof := CheckSeenEpochs(byId, leaves, lists, requireComplete);
    var unseen := byId.Keys - leaves.Keys;
    LookedAtEnd(Verdicts(byId, leaves, lists, requireComplete), lists, problems == [], incomplete, noProof);
    VerdictsOkByParts(Verdicts(byId, leaves, lists, requireComplete), lists, byId, requireComplete, noProof.Keys, unseen);
    found := ReportRest(noProof.Keys, unseen, requireComplete);
    problems := problems + found;
    incomplete := incomplete + unseen;
  }

  method ReportRest(left: set<string>, unseen: set<string>, requireComplete: bool) returns (problems: seq<Problem>)
    ensures problems == [] <==> left == {} && (unseen == {} || !requireComplete)
  {
    problems := ReportUnverifiable(left);
    var found := ReportUnseen(unseen, requireComplete);
    problems := problems + found;
  }

  lemma LookedAtEnd(v: map<string, Verdict>, lists: Claims, clean: bool, incomplete: set<string>, noProof: Claims)
    requires LookedAt(v, lists, {}, clean, incomplete, noProof)
    ensures clean <==> forall eid <- v :: v[eid].clean
    ensures forall eid :: eid in incomplete <==> eid in v && v[eid].short
    ensures forall eid :: eid in noProof <==> eid in lists && !(eid in v && v[eid].rebuilt)
  {
  }

  lemma VerdictsOkByParts(v: map<string, Verdict>, lists: Claims, byId: AnchorIndex, requireComplete: bool,
                          left: set<string>, unseen: set<string>)
    requires forall eid :: eid in left <==> eid in lists && !(eid in v && v[eid].rebuilt)
    requires unseen == byId.Keys - v.Keys
    ensures VerdictsOk(v, lists, byId, requireComplete) <==>
            (forall eid <- v :: v[eid].clean) && left == {} && (unseen == {} || !requireComplete)
  {
  }

  /** Exactly the epochs given are reported, each once. */
  method ReportUnverifiable(eids: set<string>) returns (problems: seq<Problem>)
    ensures problems == [] <==> eids == {}
    ensures |problems| == |eids| && forall p :: p in problems <==> exists eid <- eids :: p == MembershipNotVerifiable(eid)
  {
    problems := [];
    var todo := eids;
    while todo != {}
      invariant todo <= eids && |problems| == |eids| - |todo|
      invariant forall p :: p in problems <==> exists eid <- eids :: eid !in todo && p == MembershipNotVerifiable(eid)
      decreases |todo|
    {
      var eid :| eid in todo;
      todo := todo - {eid};
      problems := problems + [MembershipNotVerifiable(eid)];
    }
  }

  /** With completeness asked for exactly the epochs given are reported, each once; otherwise none. */
  method ReportUnseen(eids: set<string>, requireComplete: bool) returns (problems: seq<Problem>)
    ensures problems == [] <==> eids == {} || !requireComplete
    ensures requireComplete ==>
              |problems| == |eids| && forall p :: p in problems <==> exists eid <- eids :: p == EpochUnaccountedFor(eid)
  {
    problems := [];
    var todo := eids;
    while todo != {}
      invariant todo <= eids && |problems| == if requireComplete then |eids| - |todo| else 0
      invariant requireComplete ==>
                  forall p :: p in problems <==> exists eid <- eids :: eid !in todo && p == EpochUnaccountedFor(eid)
      decreases |todo|
    {
      var eid :| eid in todo;
      todo := todo - {eid};
      if requireComplete {
        problems := problems + [EpochUnaccountedFor(eid)];
      }
    }
  }

  /* ---------- what an accepted epoch proves ---------- */

  /** A record accepted against the anchor of a tree is the leaf at its index, with or without a proof of its own. */
  lemma AcceptedRecordIsItsLeaf(records: seq<Entry>, anchors: seq<Anchor>, requireComplete: bool,
                                a: Anchor, leaves: seq<Digest>, i: nat)
    requires Accepts(records, anchors, requireComplete)
    requires a in anchors && a.root == Mth(leaves) && a.leafCount == |leaves|
    requires i < |records| && BatchedIn(records[i], a.epoch)
    ensures records[i].batch.value.leafIndex < |leaves|
    ensures leaves[records[i].batch.value.leafIndex] == LeafHashOf(records[i])
  {
    ByIdFindsEveryAnchor(anchors);
    var b := records[i].batch.value;
    assert RecordOk(records[i], ById(anchors));
    match b.proof {
      case Path(steps) =>
        PathIsSound(leaves, LeafHashOf(records[i]), steps);
      case NoProof =>
        assert EpochOk(records, a, requireComplete);
        assert HasProofless(records, a.epoch);
        var built :| |built| == a.leafCount && Rebuilds(records, a.epoch, built, a.root);
        RootFixesLeaves(built, leaves);
    }
  }

  /** Record i, batched in an epoch, is leaf k. */
  ghost predicate IsLeaf(records: seq<Entry>, eid: string, i: int, k: int, leaf: Digest) {
    && 0 <= i < |records| && BatchedIn(records[i], eid)
    && records[i].batch.value.leafIndex == k && LeafHashOf(records[i]) == leaf
  }

  /** With require_complete, every leaf of the anchored tree is some accepted record. */
  lemma AcceptedEpochIsComplete(records: seq<Entry>, anchors: seq<Anchor>, a: Anchor, leaves: seq<Digest>, k: nat)
    requires Accepts(records, anchors, true)
    requires a in anchors && a.root == Mth(leaves) && a.leafCount == |leaves|
    requires k < |leaves|
    ensures exists i :: IsLeaf(records, a.epoch, i, k, leaves[k])
  {
    var i := SlotIsClaimed(records, anchors, a, k);
    AcceptedRecordIsItsLeaf(records, anchors, true, a, leaves, i);
    assert IsLeaf(records, a.epoch, i, k, leaves[k]);
  }

  lemma SlotIsClaimed(records: seq<Entry>, anchors: seq<Anchor>, a: Anchor, k: nat) returns (i: nat)
    requires Accepts(records, anchors, true)
    requires a in anchors && a.Anchor? && k < a.leafCount
    ensures i < |records| && BatchedIn(records[i], a.epoch) && records[i].batch.value.leafIndex == k
  {
    ByIdFindsEveryAnchor(anchors);
    assert EpochOk(records, ById(anchors)[a.epoch], true);
    assert k in Present(records, a.epoch);
    i :| 0 <= i < |records| && BatchedIn(records[i], a.epoch) && records[i].batch.value.leafIndex == k;
  }

  /* ---------- anchoring in place ---------- */

  class AuditRecord {
    const body: Body
    var batch: Option<Batch>

    constructor (body: Body)
      ensures this.body == body && batch == None
    {
      this.body, batch := body, None;
    }

    function View(): Entry
      reads this
    {
      Record(body, batch)
    }
  }

  /** Eight, four, four, four and twelve lower-case hexadecimal digits, version 4, RFC 4122 variant. */
  predicate CanonicalUuid4(s: string) {
    && |s| == 36
    && (forall i :: 0 <= i < 36 ==>
          if i == 8 || i == 13 || i == 18 || i == 23 then s[i] == '-'
          else '0' <= s[i] <= '9' || 'a' <= s[i] <= 'f')
    && s[14] == '4'
    && s[19] in "89ab"
  }

  function LeafHashes(records: seq<AuditRecord>): seq<Digest> {
    seq(|records|, i requires 0 <= i < |records| => LeafHash(records[i].body.canonical))
  }

  predicate Exportable(records: seq<AuditRecord>) {
    forall i :: 0 <= i < |records| ==> records[i].body.form == Portable
  }

  /** Where a record last stands in a list. */
  function LastIndex(records: seq<AuditRecord>, r: AuditRecord): (k: nat)
    requires r in records
    ensures k < |records| && records[k] == r
    ensures forall j :: k < j < |records| ==> records[j] != r
  {
    var n := |records| - 1;
    if records[n] == r then n else LastIndex(records[..n], r)
  }

  function BatchAt(leaves: seq<Digest>, epoch: string, k: nat): Batch
    requires k < |leaves|
  {
    Batch(epoch, Mth(leaves), k, Path(AuditPath(leaves, k)))
  }

  /** Every record carries the batch of its last place in the list. */
  ghost predicate Anchored(records: seq<AuditRecord>, epoch: string)
    reads records
  {
    forall i :: 0 <= i < |records| ==>
      records[i].batch == Some(BatchAt(LeafHashes(records), epoch, LastIndex(records, records[i])))
  }

  function AnchorOf(records: seq<AuditRecord>, epoch: string): Anchor {
    Anchor(epoch, Mth(LeafHashes(records)), |records|, [])
  }

  /** The leaf hashes of records that can be exported, or nothing when one cannot. */
  method HashLeaves(records: seq<AuditRecord>) returns (leaves: Option<seq<Digest>>)
    ensures leaves == if Exportable(records) then Some(LeafHashes(records)) else None
  {
    var out: seq<Digest> := [];
    for i := 0 to |records|
      invariant |out| == i
      invariant forall k :: 0 <= k < i ==> records[k].body.form == Portable && out[k] == LeafHash(records[k].body.canonical)
    {
      var leaf := LeafOf(records[i].body, true);
      if leaf == None {
        return None;
      }
      out := out + [leaf.value];
    }
    assert out == LeafHashes(records);
    return Some(out);
  }

  /** Each record in turn gets the batch of its place; one that stands in the list twice keeps the later. */
  method PutBatches(records: seq<AuditRecord>, epoch: string, leaves: seq<Digest>, root: Digest, paths: seq<seq<Step>>)
    requires |leaves| == |paths| == |records| && root == Mth(leaves)
    requires forall i :: 0 <= i < |leaves| ==> paths[i] == AuditPath(leaves, i)
    modifies records
    ensures forall i :: 0 <= i < |records| ==>
              records[i].batch == Some(BatchAt(leaves, epoch, LastIndex(records, records[i])))
  {
    for i := 0 to |records|
      invariant forall k :: 0 <= k < |records| && records[k] in records[..i] ==>
        records[k].batch == Some(BatchAt(leaves, epoch, LastIndex(records[..i], records[k])))
    {
      assert records[..i + 1][..i] == records[..i];
      records[i].batch := Some(Batch(epoch, root, i, Path(paths[i])));
    }
    assert records[..|records|] == records;
  }

  /** Put a batch on every record of one epoch; the anchor depends on the records' own fields only. */
  method AnchorEpoch(records: seq<AuditRecord>, epoch: string) returns (anchor: Option<Anchor>)
    modifies records
    ensures anchor == if records != [] && CanonicalUuid4(epoch) && Exportable(records)
                      then Some(AnchorOf(records, epoch)) else None
    ensures anchor.Some? <==> records != [] && CanonicalUuid4(epoch) && forall r <- records :: r.body.form == Portable
    ensures anchor.Some? ==> Anchored(records, epoch)
    ensures records == [] || !CanonicalUuid4(epoch) ==> forall r <- records :: r.batch == old(r.batch)
    ensures anchor == None && CanonicalUuid4(epoch) ==> forall r <- records :: r.batch == None
  {
    if records == [] || !CanonicalUuid4(epoch) {
      return None;
    }
    for i := 0 to |records|
      invariant forall k :: 0 <= k < i ==> records[k].batch == None
    {
      records[i].batch := None;
    }
    var leaves := HashLeaves(records);
    if leaves == None {
      return None;
    }
    var root := MerkleRoot(leaves.value);
    var paths := AuditPaths(leaves.value);
    PutBatches(records, epoch, leaves.value, root, paths);
    return Some(Anchor(epoch, root, |records|, []));
  }

  function Views(records: seq<AuditRecord>): seq<Entry>
    reads records
  {
    seq(|records|, i requires 0 <= i < |records| reads records => records[i].View())
  }

  ghost predicate Distinct(records: seq<AuditRecord>) {
    forall i, j :: 0 <= i < j < |records| ==> records[i] != records[j]
  }

  lemma OneAnchorById(a: Anchor)
    requires GoodAnchor(a)
    ensures ById([a]) == map[a.epoch := a] && AnchorsOk([a])
  {
    assert [a][..0] == [];
  }

  /** Every slot of an anchored list is taken exactly when no record stood in it twice. */
  lemma AnchoredIsComplete(records: seq<AuditRecord>, epoch: string)
    requires records != [] && Anchored(records, epoch)
    ensures Complete(Views(records), AnchorOf(records, epoch)) <==> Distinct(records)
  {
    var views, a := Views(records), AnchorOf(records, epoch);
    if Distinct(records) {
      forall k | 0 <= k < |records| ensures k in Present(views, epoch) {
        assert BatchedIn(views[k], epoch) && views[k].batch.value.leafIndex == k;
      }
    }
    if Complete(views, a) {
      forall i, j | 0 <= i < j < |records| ensures records[i] != records[j] {
        assert i in Present(views, epoch);
        var k :| 0 <= k < |views| && BatchedIn(views[k], epoch) && views[k].batch.value.leafIndex == i;
        assert LastIndex(records, records[k]) == i;
      }
    }
  }

  lemma AnchoredRebuilds(records: seq<AuditRecord>, epoch: string)
    requires records != [] && Anchored(records, epoch) && Complete(Views(records), AnchorOf(records, epoch))
    ensures Rebuilds(Views(records), epoch, LeafHashes(records), Mth(LeafHashes(records)))
  {
    var views, leaves := Views(records), LeafHashes(records);
    forall i | 0 <= i < |views| && BatchedIn(views[i], epoch)
      ensures var k := views[i].batch.value.leafIndex; k < |leaves| && leaves[k] == LeafHashOf(views[i])
    {
      assert leaves[LastIndex(records, records[i])] == LeafHashOf(views[i]);
    }
  }

  /** What was anchored is accepted exactly when no record stood in the list twice. */
  lemma AnchoredIsAccepted(records: seq<AuditRecord>, epoch: string)
    requires records != [] && Exportable(records)
    requires Anchored(records, epoch)
    ensures Accepts(Views(records), [AnchorOf(records, epoch)], true) <==> Distinct(records)
  {
    var a := AnchorOf(records, epoch);
    OneAnchorById(a);
    AnchoredRecordsOk(records, epoch);
    AnchoredIsComplete(records, epoch);
    if Distinct(records) {
      AnchoredRebuilds(records, epoch);
      assert EpochOk(Views(records), a, true);
    }
  }

  lemma AnchoredRecordsOk(records: seq<AuditRecord>, epoch: string)
    requires records != [] && Exportable(records)
    requires Anchored(records, epoch)
    ensures RecordsOk(Views(records), map[epoch := AnchorOf(records, epoch)])
  {
    var views, leaves := Views(records), LeafHashes(records);
    forall i | 0 <= i < |views| ensures RecordOk(views[i], map[epoch := AnchorOf(records, epoch)]) {
      var k := LastIndex(records, records[i]);
      PathIsComplete(leaves, k);
      assert leaves[k] == LeafHashOf(views[i]);
    }
    forall i, j | 0 <= i < j < |views| && SameSlot(views[i], views[j])
      ensures LeafHashOf(views[i]) == LeafHashOf(views[j])
    {
      assert LastIndex(records, records[i]) == LastIndex(records, records[j]);
    }
  }
}
