/**
 The chain of an unsigned, self-recorded audit trail: its links, its close record, and
 tombstones put in the place of records. A hash is the free constructor of what it covers.
 */
module AatChain {
  import opened Wrappers

  datatype Hash =
    | HashOf(rec: Rec)
    | Joined(hashes: seq<Hash>)       // over the raw digests, one after another
    | Text(text: string, hex: bool)   // any other text; hex says whether it has the form of a digest

  datatype ActionType = ToolCall | ToolResponse | Decision | Delegation | Escalation | Failure | Lifecycle | Unknown(name: string)

  /** Instants are whole microseconds. */
  datatype Detail =
    | SessionStart
    | SessionEnd(sessionHash: Option<Hash>, recordCount: nat, duration: int)
    | RecordDeleted(reason: Option<string>, deletedAt: Option<int>, original: ActionType) // None where no string, or no instant, stands
    | CallAnswered(parentCallId: Option<string>)
    | OtherDetail(content: string)

  /** A record without its detached batch; common stands for the fields a tombstone keeps and the links never read. */
  datatype Rec = Rec(
    id: string, timestamp: int, session: string, agent: string, common: string,
    action: ActionType, detail: Detail, outcome: string, parent: Option<string>, prevHash: Option<Hash>,
    tombstoneHash: Option<Hash>, nonce: Option<string>)

  predicate IsHex(h: Option<Hash>) {
    h.Some? && (h.value.Text? ==> h.value.hex)
  }

  predicate IsTomb(r: Rec) {
    r.action == Lifecycle && r.detail.RecordDeleted?
  }

  predicate IsStart(r: Rec) {
    r.action == Lifecycle && r.detail == SessionStart
  }

  predicate IsEnd(r: Rec) {
    r.action == Lifecycle && r.detail.SessionEnd?
  }

  /** The record's id may be named by a later answer. */
  predicate IsCall(r: Rec) {
    r.action == ToolCall || (IsTomb(r) && r.detail.original == ToolCall)
  }

  /* ---------- what a chain must be ---------- */

  /** The next record carries the hash of this one, or of the record this tombstone replaced. */
  predicate Links(prev: Rec, r: Rec) {
    IsHex(r.prevHash) && (r.prevHash == Some(HashOf(prev)) || (IsTomb(prev) && r.prevHash == prev.tombstoneHash))
  }

  function PrevHashes(rs: seq<Rec>): (hs: seq<Hash>)
    ensures |hs| == |rs| && forall i :: 0 <= i < |rs| ==> rs[i].prevHash.Some? ==> hs[i] == rs[i].prevHash.value
  {
    seq(|rs|, i requires 0 <= i < |rs| => if rs[i].prevHash.Some? then rs[i].prevHash.value else Text("", false))
  }

  /** A tombstone carries the hash of what it replaced, which was no lifecycle record; no other record carries one. */
  predicate TombOk(r: Rec) {
    if IsTomb(r) then
      && IsHex(r.tombstoneHash)
      && r.detail.reason.Some? && r.detail.deletedAt.Some? && r.timestamp <= r.detail.deletedAt.value
      && r.outcome == "success"
      && !r.detail.original.Unknown? && r.detail.original != Lifecycle
    else r.tombstoneHash == None
  }

  /** The record as it stands alone. */
  predicate AloneOk(r: Rec) {
    !r.action.Unknown? && TombOk(r)
  }

  /** The answer names a call before it. */
  predicate AnswerOk(rs: seq<Rec>, i: nat)
    requires i < |rs|
  {
    rs[i].action == ToolResponse && rs[i].detail.CallAnswered? && rs[i].detail.parentCallId.Some? ==>
      exists j :: 0 <= j < i && IsCall(rs[j]) && rs[j].id == rs[i].detail.parentCallId.value
  }

  /** The record in its place behind those before it. */
  predicate PlaceOk(rs: seq<Rec>, i: nat)
    requires i < |rs|
  {
    && rs[i].session == rs[0].session && rs[i].agent == rs[0].agent
    && (if i == 0 then rs[0].parent == None && rs[0].prevHash == None && IsStart(rs[0])
        else
          && rs[i - 1].timestamp <= rs[i].timestamp
          && rs[i].parent == Some(rs[i - 1].id) && Links(rs[i - 1], rs[i]) && !IsStart(rs[i]))
  }

  /** A close carries the hash over the prev_hash fields of the chain. */
  predicate CloseOk(rs: seq<Rec>, i: nat)
    requires i < |rs|
  {
    IsEnd(rs[i]) ==> rs[i].detail.sessionHash == Some(Joined(PrevHashes(rs[1..i + 1])))
  }

  predicate AllDifferent(rs: seq<Rec>) {
    && (forall i, j :: 0 <= i < j < |rs| ==> rs[i].id != rs[j].id)
    && (forall i, j :: 0 <= i < j < |rs| ==> rs[i].nonce == None || rs[i].nonce != rs[j].nonce)
  }

  /** Every record linked and in order, whichever of them may still follow. */
  predicate Linked(rs: seq<Rec>) {
    && AllDifferent(rs)
    && (forall i :: 0 <= i < |rs| ==> AloneOk(rs[i]))
    && (forall i :: 0 <= i < |rs| ==> PlaceOk(rs, i))
    && (forall i :: 0 <= i < |rs| ==> AnswerOk(rs, i))
  }

  /** A chain that is accepted: linked, no tombstone at its end, and a close only there, with the right hash. */
  predicate ChainOk(rs: seq<Rec>) {
    && rs != [] && Linked(rs)
    && !IsTomb(rs[|rs| - 1])
    && (forall i :: 0 <= i < |rs| - 1 ==> !IsEnd(rs[i]))
    && (forall i :: 1 <= i < |rs| ==> IsHex(rs[i].prevHash))
    && CloseOk(rs, |rs| - 1)
  }

  /* ---------- closing ---------- */

  /** Millisecond precision: finer fractions are cut off. */
  function Truncated(t: int): int {
    t - t % 1000
  }

  /** Whole milliseconds, finer fractions cut off towards zero. */
  function Milliseconds(d: int): int {
    if d < 0 then -((-d) / 1000) else d / 1000
  }

  /** The close record of a chain; at is the time given, if one is, and id is derived from the last record's hash. */
  function CloseRecord(rs: seq<Rec>, at: Option<int>, id: string): Option<Rec> {
    if rs == [] || exists i :: 1 <= i < |rs| && !IsHex(rs[i].prevHash) then None
    else
      var last := rs[|rs| - 1];
      var ts := if at.Some? then Truncated(at.value) else last.timestamp;
      if ts < last.timestamp then None
      else
        var hashes := PrevHashes(rs[1..]) + [HashOf(last)];
        Some(Rec(id, ts, last.session, last.agent, last.common, Lifecycle,
                 SessionEnd(Some(Joined(hashes)), |rs| + 1, Milliseconds(ts - rs[0].timestamp)),
                 "success", Some(last.id), Some(HashOf(last)), None, None))
  }

  /** A chain is accepted with its close record exactly when it is linked, not closed yet, and the close's id is new. */
  lemma ClosedIsAccepted(rs: seq<Rec>, at: Option<int>, id: string)
    requires CloseRecord(rs, at, id).Some?
    ensures ChainOk(rs + [CloseRecord(rs, at, id).value]) <==>
            && Linked(rs)
            && (forall i :: 0 <= i < |rs| ==> !IsEnd(rs[i]))
            && (forall i :: 0 <= i < |rs| ==> rs[i].id != id)
  {
    var c := CloseRecord(rs, at, id).value;
    var all, n := rs + [c], |rs|;
    assert all[n] == c && forall i :: 0 <= i < n ==> all[i] == rs[i];
    assert PrevHashes(all[1..n + 1]) == PrevHashes(rs[1..]) + [HashOf(rs[n - 1])];
    assert CloseOk(all, n);
    LinkedMore(rs, c);
    if Linked(rs) {
      assert PlaceOk(rs, n - 1) && PlaceOk(rs, 0);
      assert Links(all[n - 1], all[n]);
      assert PlaceOk(all, n);
    }
  }

  /** One record more: linked when the others are, and it is. */
  lemma LinkedMore(rs: seq<Rec>, c: Rec)
    requires c.nonce == None && AloneOk(c) && c.action != ToolResponse
    ensures Linked(rs + [c]) <==> Linked(rs) && PlaceOk(rs + [c], |rs|) && forall i :: 0 <= i < |rs| ==> rs[i].id != c.id
  {
    var all, n := rs + [c], |rs|;
    DifferentMore(rs, c);
    if Linked(all) {
      PrefixLinked(rs, c);
      assert PlaceOk(all, n);
    }
    if Linked(rs) && PlaceOk(all, n) && AllDifferent(all) {
      OneMoreLinked(rs, c);
    }
  }

  lemma OneMoreLinked(rs: seq<Rec>, c: Rec)
    requires Linked(rs) && AloneOk(c) && c.action != ToolResponse && PlaceOk(rs + [c], |rs|) && AllDifferent(rs + [c])
    ensures Linked(rs + [c])
  {
    var all := rs + [c];
    forall i | 0 <= i < |all| ensures AloneOk(all[i]) && PlaceOk(all, i) && AnswerOk(all, i) {
      if i < |rs| {
        assert AloneOk(rs[i]) && PlaceOk(rs, i) && AnswerOk(rs, i);
        SamePlace(rs, c, i);
      }
    }
  }

  lemma SamePlace(rs: seq<Rec>, c: Rec, i: nat)
    requires i < |rs|
    ensures (rs + [c])[i] == rs[i]
    ensures PlaceOk(rs + [c], i) <==> PlaceOk(rs, i)
    ensures AnswerOk(rs + [c], i) <==> AnswerOk(rs, i)
  {
    var all := rs + [c];
    assert forall j :: 0 <= j <= i ==> all[j] == rs[j];
  }

  lemma PrefixLinked(rs: seq<Rec>, c: Rec)
    requires c.nonce == None && Linked(rs + [c])
    ensures Linked(rs)
  {
    var all := rs + [c];
    DifferentMore(rs, c);
    forall i | 0 <= i < |rs| ensures AloneOk(rs[i]) && PlaceOk(rs, i) && AnswerOk(rs, i) {
      assert AloneOk(all[i]) && PlaceOk(all, i) && AnswerOk(all, i);
      SamePlace(rs, c, i);
    }
  }

  lemma DifferentMore(rs: seq<Rec>, c: Rec)
    requires c.nonce == None
    ensures AllDifferent(rs + [c]) <==> AllDifferent(rs) && forall i :: 0 <= i < |rs| ==> rs[i].id != c.id
  {
    var all := rs + [c];
    assert forall i :: 0 <= i < |rs| ==> all[i] == rs[i];
    assert all[|rs|] == c;
    if AllDifferent(all) {
      forall i, j | 0 <= i < j < |rs|
        ensures rs[i].id != rs[j].id && (rs[i].nonce == None || rs[i].nonce != rs[j].nonce)
      {
        assert all[i].id != all[j].id && (all[i].nonce == None || all[i].nonce != all[j].nonce);
      }
      forall i | 0 <= i < |rs| ensures rs[i].id != c.id {
        assert all[i].id != all[|rs|].id;
      }
    }
  }

  /* ---------- tombstones ---------- */

  /** The tombstone of a record: its place and its chain hash, without its content; lifecycle records have none. */
  function Tombstone(r: Rec, reason: string, at: int): Option<Rec> {
    if r.action == Lifecycle && !IsTomb(r) then None
    else
      var again := IsTomb(r) && IsHex(r.tombstoneHash);
      Some(r.(action := Lifecycle,
              detail := RecordDeleted(Some(reason), Some(Truncated(at)), if again then r.detail.original else r.action),
              outcome := "success",
              tombstoneHash := if again then r.tombstoneHash else Some(HashOf(r)),
              nonce := None))
  }

  /** The record behind a tombstone that is replaced again still links to it. */
  predicate StillLinked(rs: seq<Rec>, i: nat, t: Rec)
    requires i < |rs|
  {
    IsTomb(rs[i]) && i + 1 < |rs| ==> rs[i + 1].prevHash == rs[i].tombstoneHash || t == rs[i]
  }

  lemma {:induction false} HashIsDeeper(r: Rec)
    ensures r.tombstoneHash != Some(HashOf(r)) && r.prevHash != Some(HashOf(r))
  {
  }

  /** The links around a replaced record. */
  lemma TombLinks(rs: seq<Rec>, i: nat, reason: string, at: int)
    requires i < |rs| - 1 && PlaceOk(rs, i + 1) && AloneOk(rs[i]) && Tombstone(rs[i], reason, at).Some?
    ensures var t := Tombstone(rs[i], reason, at).value;
            Links(t, rs[i + 1]) <==> StillLinked(rs, i, t)
  {
    var r, next, t := rs[i], rs[i + 1], Tombstone(rs[i], reason, at).value;
    HashIsDeeper(t);
    HashIsDeeper(r);
    if IsTomb(r) {
      assert t.tombstoneHash == r.tombstoneHash;
    }
  }

  /** Putting a tombstone in a record's place: the chain is accepted still exactly when the deletion, to the millisecond, is not
      before the record, and a tombstone replaced again was linked to by the hash it carries. */
  lemma TombstoneIsAccepted(rs: seq<Rec>, i: nat, reason: string, at: int)
    requires ChainOk(rs) && i < |rs| - 1 && Tombstone(rs[i], reason, at).Some?
    ensures var t := Tombstone(rs[i], reason, at).value;
            ChainOk(rs[i := t]) <==> rs[i].timestamp <= Truncated(at) && StillLinked(rs, i, t)
  {
    var t := Tombstone(rs[i], reason, at).value;
    var all := rs[i := t];
    assert PlaceOk(rs, 0) && PlaceOk(rs, i + 1) && AloneOk(rs[i]);
    assert 0 < i;
    TombLinks(rs, i, reason, at);
    assert AloneOk(t) <==> rs[i].timestamp <= Truncated(at);
    TombKeepsPlaces(rs, i, reason, at);
    if ChainOk(all) {
      assert AloneOk(all[i]) && PlaceOk(all, i + 1);
    } else if AloneOk(t) && Links(t, all[i + 1]) {
      TombKeepsClose(rs, i, t);
      TombKeepsRest(rs, i, t);
    }
  }

  lemma TombKeepsRest(rs: seq<Rec>, i: nat, t: Rec)
    requires Linked(rs) && i < |rs| && t.id == rs[i].id && t.nonce == None && AloneOk(t)
    ensures var all := rs[i := t];
            AllDifferent(all) && forall k :: 0 <= k < |all| ==> AloneOk(all[k])
  {
    var all := rs[i := t];
    assert forall k :: 0 <= k < |rs| && k != i ==> all[k] == rs[k];
    assert forall k :: 0 <= k < |rs| ==> all[k].id == rs[k].id;
    assert forall k :: 0 <= k < |rs| ==> all[k].nonce == None || all[k].nonce == rs[k].nonce;
  }

  lemma TombKeepsPlaces(rs: seq<Rec>, i: nat, reason: string, at: int)
    requires ChainOk(rs) && 0 < i < |rs| - 1 && Tombstone(rs[i], reason, at).Some?
    ensures var all := rs[i := Tombstone(rs[i], reason, at).value];
            && (forall k :: 0 <= k < |rs| && k != i + 1 ==> PlaceOk(all, k))
            && (PlaceOk(all, i + 1) <==> Links(all[i], all[i + 1]))
            && (forall k :: 0 <= k < |rs| ==> AnswerOk(all, k))
  {
    var t := Tombstone(rs[i], reason, at).value;
    var all := rs[i := t];
    forall k | 0 <= k < |rs| && k != i + 1 ensures PlaceOk(all, k) {
      assert PlaceOk(rs, k);
    }
    assert PlaceOk(rs, i + 1);
    forall k | 0 <= k < |rs| ensures AnswerOk(all, k) {
      assert AnswerOk(rs, k);
      assert AloneOk(rs[i]);
      if all[k].action == ToolResponse && all[k].detail.CallAnswered? && all[k].detail.parentCallId.Some? {
        var j :| 0 <= j < k && IsCall(rs[j]) && rs[j].id == rs[k].detail.parentCallId.value;
        assert IsCall(all[j]) && all[j].id == rs[j].id;
      }
    }
  }

  lemma TombKeepsClose(rs: seq<Rec>, i: nat, t: Rec)
    requires ChainOk(rs) && 0 < i < |rs| - 1 && t.prevHash == rs[i].prevHash && IsTomb(t)
    ensures var all := rs[i := t];
            && (forall k :: 1 <= k < |rs| ==> IsHex(all[k].prevHash)) && CloseOk(all, |all| - 1)
            && !IsTomb(all[|all| - 1]) && (forall k :: 0 <= k < |all| - 1 ==> !IsEnd(all[k]))
  {
    var all := rs[i := t];
    assert forall k :: 1 <= k < |rs| ==> all[k].prevHash == rs[k].prevHash;
    assert PrevHashes(all[1..|all|]) == PrevHashes(rs[1..|rs|]);
  }

  /* ---------- tombstones again and again ---------- */

  datatype Deletion = Deletion(at: nat, reason: string, time: int)

  /** Every tombstone is linked to by the hash it carries: no record was appended behind a tombstone. */
  predicate LinkedThrough(rs: seq<Rec>) {
    forall i :: 0 <= i < |rs| - 1 && IsTomb(rs[i]) ==> rs[i + 1].prevHash == rs[i].tombstoneHash
  }

  /** A record that may be replaced: not the last, not a lifecycle record unless it is a tombstone, not deleted before it was made. */
  predicate MayDelete(rs: seq<Rec>, d: Deletion) {
    d.at < |rs| - 1 && (rs[d.at].action != Lifecycle || IsTomb(rs[d.at])) && rs[d.at].timestamp <= Truncated(d.time)
  }

  /** The chain after a series of deletions, those that may not be made left out. */
  function Deleted(rs: seq<Rec>, ds: seq<Deletion>): seq<Rec>
    decreases |ds|
  {
    if ds == [] then rs
    else if MayDelete(rs, ds[0]) then
      Deleted(rs[ds[0].at := Tombstone(rs[ds[0].at], ds[0].reason, ds[0].time).value], ds[1..])
    else Deleted(rs, ds[1..])
  }

  /** Any deletions, of any records and repeatedly, keep the chain accepted: every link, every answer, and the close's hash. */
  lemma {:induction false} DeletionsAreAccepted(rs: seq<Rec>, ds: seq<Deletion>)
    requires ChainOk(rs) && LinkedThrough(rs)
    ensures ChainOk(Deleted(rs, ds)) && LinkedThrough(Deleted(rs, ds))
    ensures |Deleted(rs, ds)| == |rs|
    ensures forall i :: 0 <= i < |rs| ==> Deleted(rs, ds)[i].id == rs[i].id && Deleted(rs, ds)[i].prevHash == rs[i].prevHash
    decreases |ds|
  {
    if ds != [] {
      if MayDelete(rs, ds[0]) {
        var i := ds[0].at;
        TombstoneIsAccepted(rs, i, ds[0].reason, ds[0].time);
        OneDeletion(rs, i, ds[0].reason, ds[0].time);
        DeletionsAreAccepted(rs[i := Tombstone(rs[i], ds[0].reason, ds[0].time).value], ds[1..]);
      } else {
        DeletionsAreAccepted(rs, ds[1..]);
      }
    }
  }

  lemma OneDeletion(rs: seq<Rec>, i: nat, reason: string, time: int)
    requires ChainOk(rs) && LinkedThrough(rs) && i < |rs| - 1 && Tombstone(rs[i], reason, time).Some?
    ensures LinkedThrough(rs[i := Tombstone(rs[i], reason, time).value])
  {
    var t := Tombstone(rs[i], reason, time).value;
    var all := rs[i := t];
    assert PlaceOk(rs, i + 1) && AloneOk(rs[i]);
    assert Links(rs[i], rs[i + 1]);
    assert t.tombstoneHash == rs[i + 1].prevHash;
    forall k | 0 <= k < |all| - 1 && IsTomb(all[k]) ensures all[k + 1].prevHash == all[k].tombstoneHash {
      assert all[k + 1].prevHash == rs[k + 1].prevHash;
    }
  }

  /** Behind a record appended after a tombstone the tombstone cannot be replaced again: the chain no longer links. */
  lemma AppendedBehindTombstone(first: Rec, work: Rec, reason: string, at: int, other: string)
    requires IsStart(first) && first.parent == None && first.prevHash == None && first.tombstoneHash == None && first.nonce == None
    requires work.action == Decision && work.parent == Some(first.id) && work.prevHash == Some(HashOf(first))
    requires work.id != first.id && work.session == first.session && work.agent == first.agent
    requires first.timestamp <= work.timestamp <= Truncated(at) && work.tombstoneHash == None
    requires other != reason
    ensures var t := Tombstone(work, reason, at).value;
            var end := CloseRecord([first, t], None, first.id + work.id + "c");
            end.Some? &&
            var again := Tombstone(t, other, at).value;
            ChainOk([first, t, end.value]) && !ChainOk([first, again, end.value])
  {
    var t := Tombstone(work, reason, at).value;
    var id := first.id + work.id + "c";
    var end := CloseRecord([first, t], None, id).value;
    var again := Tombstone(t, other, at).value;
    HashIsDeeper(t);
    LinkLost([first, again, end]);
    assert |id| > |first.id| && |id| > |work.id|;
    TwoRecordsLinked(first, t);
    ClosedIsAccepted([first, t], None, id);
    assert [first, t] + [end] == [first, t, end];
  }

  lemma TwoRecordsLinked(first: Rec, t: Rec)
    requires IsStart(first) && first.parent == None && first.prevHash == None && first.tombstoneHash == None && first.nonce == None
    requires IsTomb(t) && TombOk(t) && t.parent == Some(first.id) && t.prevHash == Some(HashOf(first)) && t.nonce == None
    requires t.id != first.id && t.session == first.session && t.agent == first.agent && first.timestamp <= t.timestamp
    ensures Linked([first, t])
  {
    var rs := [first, t];
    assert rs[0] == first && rs[1] == t;
    assert PlaceOk(rs, 0) && PlaceOk(rs, 1);
  }

  lemma LinkLost(rs: seq<Rec>)
    requires |rs| == 3 && !Links(rs[1], rs[2])
    ensures !ChainOk(rs)
  {
    assert !PlaceOk(rs, 2);
  }

  /* ---------- what the last record fixes ---------- */

  /** From the n-th record on there is no tombstone. */
  predicate NoTombFrom(rs: seq<Rec>, n: nat) {
    forall i :: n <= i < |rs| ==> !IsTomb(rs[i])
  }

  lemma LinkAt(rs: seq<Rec>, i: nat)
    requires Linked(rs) && i < |rs|
    ensures rs[i].prevHash == None <==> i == 0
    ensures 0 < i ==> Links(rs[i - 1], rs[i])
  {
    assert PlaceOk(rs, i);
  }

  /** Two linked chains with one last record have the same records behind their last tombstones. */
  lemma {:induction false} LastRecordFixesTail(a: seq<Rec>, b: seq<Rec>, k: nat)
    requires Linked(a) && Linked(b) && 0 < k <= |a| && k <= |b| && a[|a| - 1] == b[|b| - 1]
    requires NoTombFrom(a, |a| - k) && NoTombFrom(b, |b| - k)
    ensures a[|a| - k..] == b[|b| - k..]
    decreases k
  {
    var i, j := |a| - k, |b| - k;
    if k == 1 {
      assert a[i..] == [a[i]] && b[j..] == [b[j]];
    } else {
      LastRecordFixesTail(a, b, k - 1);
      OneRecordBack(a, b, i, j);
    }
  }

  /** Two linked chains that agree from a place on agree one record further back, unless a tombstone stands there. */
  lemma OneRecordBack(a: seq<Rec>, b: seq<Rec>, i: nat, j: nat)
    requires Linked(a) && Linked(b) && i + 1 < |a| && j + 1 < |b| && a[i + 1..] == b[j + 1..]
    requires !IsTomb(a[i]) && !IsTomb(b[j])
    ensures a[i..] == b[j..]
  {
    assert a[i + 1] == a[i + 1..][0] && b[j + 1] == b[j + 1..][0];
    LinkAt(a, i + 1);
    LinkAt(b, j + 1);
    assert a[i] == b[j];
    assert a[i..] == [a[i]] + a[i + 1..] && b[j..] == [b[j]] + b[j + 1..];
  }

  /** Two linked chains without tombstones that end with one record are one chain. */
  lemma LastRecordFixesChain(a: seq<Rec>, b: seq<Rec>)
    requires Linked(a) && Linked(b) && a != [] && b != [] && a[|a| - 1] == b[|b| - 1]
    requires NoTombFrom(a, 0) && NoTombFrom(b, 0)
    ensures a == b
  {
    var k := if |a| <= |b| then |a| else |b|;
    LastRecordFixesTail(a, b, k);
    var i, j := |a| - k, |b| - k;
    assert a[i] == a[i..][0] && b[j] == b[j..][0];
    LinkAt(a, i);
    LinkAt(b, j);
    assert a[0..] == a && b[0..] == b;
  }

  /** What two accepted chains may hold in one place: one record, a tombstone that carries the other's hash, or two that carry one hash. */
  predicate SamePlaceIn(x: Rec, y: Rec) {
    || x == y
    || (IsTomb(x) && x.tombstoneHash == Some(HashOf(y)))
    || (IsTomb(y) && y.tombstoneHash == Some(HashOf(x)))
    || (IsTomb(x) && IsTomb(y) && x.tombstoneHash == y.tombstoneHash)
  }

  /**
   Two accepted chains that end with one close have the same length and the same links, and
   in each place the same record but for what tombstones stand for.
   */
  lemma CloseFixesChain(a: seq<Rec>, b: seq<Rec>)
    requires ChainOk(a) && ChainOk(b) && a[|a| - 1] == b[|b| - 1] && IsEnd(a[|a| - 1])
    ensures |a| == |b|
    ensures forall i :: 0 <= i < |a| ==> a[i].prevHash == b[i].prevHash && SamePlaceIn(a[i], b[i])
  {
    CloseFixesLinks(a, b);
    forall i | 0 <= i < |a| ensures a[i].prevHash == b[i].prevHash && SamePlaceIn(a[i], b[i]) {
      SameHashes(a, b, i);
      if i < |a| - 1 {
        SameHashes(a, b, i + 1);
        LinkAt(a, i + 1);
        LinkAt(b, i + 1);
      }
    }
  }

  lemma CloseFixesLinks(a: seq<Rec>, b: seq<Rec>)
    requires ChainOk(a) && ChainOk(b) && a[|a| - 1] == b[|b| - 1] && IsEnd(a[|a| - 1])
    ensures |a| == |b| && PrevHashes(a[1..]) == PrevHashes(b[1..])
  {
    assert a[1..|a|] == a[1..] && b[1..|b|] == b[1..];
    assert PrevHashes(a[1..]) == PrevHashes(b[1..]);
    assert |a[1..]| == |b[1..]|;
  }

  lemma SameHashes(a: seq<Rec>, b: seq<Rec>, i: nat)
    requires Linked(a) && Linked(b) && i < |a| == |b| && PrevHashes(a[1..]) == PrevHashes(b[1..])
    ensures a[i].prevHash == b[i].prevHash
  {
    LinkAt(a, i);
    LinkAt(b, i);
    if 0 < i {
      assert PrevHashes(a[1..])[i - 1] == PrevHashes(b[1..])[i - 1];
      assert a[1..][i - 1] == a[i] && b[1..][i - 1] == b[i];
    }
  }

  /** Without a close nothing in front of a tombstone is fixed: whatever starts a chain of one more record, the same two can follow it. */
  lemma TombstoneHidesFront(first: Rec, other: Rec, t: Rec, last: Rec)
    requires IsStart(first) && first.parent == None && first.prevHash == None && first.tombstoneHash == None && first.nonce == None
    requires other == first.(timestamp := other.timestamp, common := other.common, outcome := other.outcome)
    requires IsTomb(t) && TombOk(t) && t.parent == Some(first.id) && t.prevHash == Some(HashOf(first)) && t.nonce == None
    requires last.action == Decision && last.parent == Some(t.id) && last.prevHash == t.tombstoneHash
    requires last.tombstoneHash == None && last.nonce == None
    requires first.id != t.id && first.id != last.id && t.id != last.id
    requires t.session == last.session == first.session && t.agent == last.agent == first.agent
    requires first.timestamp <= t.timestamp <= last.timestamp && other.timestamp <= t.timestamp
    ensures ChainOk([first, t, last]) && ChainOk([other, t.(prevHash := Some(HashOf(other))), last])
  {
    ThreeRecords(first, t, last);
    ThreeRecords(other, t.(prevHash := Some(HashOf(other))), last);
  }

  lemma ThreeRecords(first: Rec, t: Rec, last: Rec)
    requires IsStart(first) && first.parent == None && first.prevHash == None && first.tombstoneHash == None && first.nonce == None
    requires IsTomb(t) && TombOk(t) && t.parent == Some(first.id) && t.prevHash == Some(HashOf(first)) && t.nonce == None
    requires last.action == Decision && last.parent == Some(t.id) && last.prevHash == t.tombstoneHash
    requires last.tombstoneHash == None && last.nonce == None
    requires first.id != t.id && first.id != last.id && t.id != last.id
    requires t.session == last.session == first.session && t.agent == last.agent == first.agent
    requires first.timestamp <= t.timestamp <= last.timestamp
    ensures ChainOk([first, t, last])
  {
    var rs := [first, t, last];
    assert rs[0] == first && rs[1] == t && rs[2] == last;
    assert PlaceOk(rs, 0) && PlaceOk(rs, 1) && PlaceOk(rs, 2);
  }

  /* ---------- verifying ---------- */

  /** The record repeats no id and no nonce. */
  predicate FreshOk(rs: seq<Rec>, i: nat)
    requires i < |rs|
  {
    && (forall j :: 0 <= j < i ==> rs[j].id != rs[i].id)
    && (rs[i].nonce.Some? ==> forall j :: 0 <= j < i ==> rs[j].nonce != rs[i].nonce)
  }

  /** A close is the last record; its hash is looked at when every prev_hash before it is a digest. */
  predicate EndOk(rs: seq<Rec>, i: nat)
    requires i < |rs|
  {
    IsEnd(rs[i]) ==>
      && i == |rs| - 1
      && (0 < i ==> IsHex(rs[i].detail.sessionHash) && ((forall j :: 1 <= j <= i ==> IsHex(rs[j].prevHash)) ==> CloseOk(rs, i)))
  }

  /** Nothing is to be said against the record. */
  predicate RecordOk(rs: seq<Rec>, i: nat)
    requires i < |rs|
  {
    AloneOk(rs[i]) && PlaceOk(rs, i) && AnswerOk(rs, i) && FreshOk(rs, i) && EndOk(rs, i) && (IsTomb(rs[i]) ==> i < |rs| - 1)
  }

  lemma GoodRecordsMakeAChain(rs: seq<Rec>)
    requires rs != [] && forall i :: 0 <= i < |rs| ==> RecordOk(rs, i)
    ensures ChainOk(rs)
  {
    forall i, j | 0 <= i < j < |rs|
      ensures rs[i].id != rs[j].id && (rs[i].nonce == None || rs[i].nonce != rs[j].nonce)
    {
      assert RecordOk(rs, j);
      assert FreshOk(rs, j);
    }
    forall i | 0 <= i < |rs|
      ensures AloneOk(rs[i]) && PlaceOk(rs, i) && AnswerOk(rs, i)
      ensures (0 < i ==> IsHex(rs[i].prevHash)) && (i < |rs| - 1 ==> !IsEnd(rs[i]))
    {
      assert RecordOk(rs, i);
    }
    assert RecordOk(rs, |rs| - 1) && RecordOk(rs, 0);
  }

  lemma ChainMakesGoodRecords(rs: seq<Rec>, i: nat)
    requires ChainOk(rs) && i < |rs|
    ensures RecordOk(rs, i)
  {
    assert AloneOk(rs[i]) && PlaceOk(rs, i) && AnswerOk(rs, i);
  }

  /** A chain is accepted exactly when it is not empty and nothing is to be said against any record. */
  lemma AcceptedByRecord(rs: seq<Rec>)
    ensures ChainOk(rs) <==> rs != [] && forall i :: 0 <= i < |rs| ==> RecordOk(rs, i)
  {
    if rs != [] && forall i :: 0 <= i < |rs| ==> RecordOk(rs, i) {
      GoodRecordsMakeAChain(rs);
    }
    if ChainOk(rs) {
      forall i | 0 <= i < |rs| ensures RecordOk(rs, i) {
        ChainMakesGoodRecords(rs, i);
      }
    }
  }

  /** The digests among the prev_hash fields of the first n records. */
  function Digests(rs: seq<Rec>, n: nat): seq<Hash>
    requires n <= |rs|
  {
    if n <= 1 then []
    else Digests(rs, n - 1) + if IsHex(rs[n - 1].prevHash) then [rs[n - 1].prevHash.value] else []
  }

  lemma {:induction false} AllDigests(rs: seq<Rec>, n: nat)
    requires 1 <= n <= |rs|
    ensures |Digests(rs, n)| <= n - 1
    ensures |Digests(rs, n)| == n - 1 <==> forall j :: 1 <= j < n ==> IsHex(rs[j].prevHash)
    ensures |Digests(rs, n)| == n - 1 ==> Digests(rs, n) == PrevHashes(rs[1..n])
    decreases n
  {
    if 1 < n {
      AllDigests(rs, n - 1);
      assert rs[1..n] == rs[1..n - 1] + [rs[n - 1]];
    }
  }

  /** What the verifier keeps of the first n records. */
  datatype Tally = Tally(ids: set<string>, nonces: set<string>, calls: set<string>)

  function TallyOf(rs: seq<Rec>, n: nat): Tally
    requires n <= |rs|
  {
    Tally(set j | 0 <= j < n :: rs[j].id,
          set j | 0 <= j < n && rs[j].nonce.Some? :: rs[j].nonce.value,
          set j | 0 <= j < n && IsCall(rs[j]) :: rs[j].id)
  }

  /** The link of a record to the one before it; its prev_hash is kept when it is a digest. */
  method CheckLink(prev: Rec, r: Rec, digests: seq<Hash>) returns (ok: bool, digests': seq<Hash>)
    ensures ok <==> r.parent == Some(prev.id) && Links(prev, r) && !IsStart(r)
    ensures digests' == digests + if IsHex(r.prevHash) then [r.prevHash.value] else []
  {
    ok, digests' := r.parent == Some(prev.id), digests;
    if !IsHex(r.prevHash) {
      ok := false;
    } else {
      var exp := HashOf(prev);
      if r.prevHash != Some(exp) && !(IsTomb(prev) && r.prevHash == prev.tombstoneHash) {
        ok := false;
      }
      digests' := digests + [r.prevHash.value];
    }
    if IsStart(r) {
      ok := false;
    }
  }

  /** A tombstone, or a record that must not look like one. */
  method CheckTomb(r: Rec, isLast: bool) returns (ok: bool)
    ensures ok <==> TombOk(r) && (IsTomb(r) ==> !isLast)
  {
    if !IsTomb(r) {
      return r.tombstoneHash == None;
    }
    ok := IsHex(r.tombstoneHash);
    if r.detail.deletedAt == None || r.detail.reason == None {
      ok := false;
    }
    if r.detail.original.Unknown? {
      ok := false;
    }
    if r.detail.deletedAt.Some? && r.detail.deletedAt.value < r.timestamp {
      ok := false;
    }
    if r.outcome != "success" {
      ok := false;
    }
    if r.detail.original == Lifecycle {
      ok := false;
    }
    if isLast {
      ok := false;
    }
  }

  /** A close, against the digests collected so far. */
  method CheckEnd(rs: seq<Rec>, i: nat, digests: seq<Hash>) returns (ok: bool)
    requires i < |rs| && digests == Digests(rs, i + 1)
    ensures ok <==> EndOk(rs, i)
  {
    if !IsEnd(rs[i]) {
      return true;
    }
    AllDigests(rs, i + 1);
    ok := i == |rs| - 1;
    if 0 < i {
      if !IsHex(rs[i].detail.sessionHash) {
        ok := false;
      } else if |digests| == i {
        if rs[i].detail.sessionHash != Some(Joined(digests)) {
          ok := false;
        }
      }
    }
  }

  /** What the sets say of the next record, which then goes into them. */
  method CheckSeen(rs: seq<Rec>, i: nat, t: Tally) returns (ok: bool, t': Tally)
    requires i < |rs| && t == TallyOf(rs, i)
    ensures ok <==> FreshOk(rs, i) && AnswerOk(rs, i)
    ensures t' == TallyOf(rs, i + 1)
  {
    var r := rs[i];
    var ids, nonces, calls := t.ids, t.nonces, t.calls;
    ok := r.id !in ids;
    ids := ids + {r.id};
    if r.action == ToolResponse && r.detail.CallAnswered? && r.detail.parentCallId.Some? {
      if r.detail.parentCallId.value !in calls {
        ok := false;
      }
    }
    if IsCall(r) {
      calls := calls + {r.id};
    }
    if r.nonce.Some? {
      if r.nonce.value in nonces {
        ok := false;
      }
      nonces := nonces + {r.nonce.value};
    }
    t' := Tally(ids, nonces, calls);
  }

  /** Every record in turn: the numbers of those against which something is to be said. */
  method VerifyChain(rs: seq<Rec>) returns (ok: bool, bad: seq<nat>)
    ensures ok <==> ChainOk(rs)
    ensures forall i :: i in bad <==> 0 <= i < |rs| && !RecordOk(rs, i)
  {
    bad := [];
    var t := Tally({}, {}, {});
    var digests: seq<Hash> := [];
    for i := 0 to |rs|
      invariant t == TallyOf(rs, i) && digests == Digests(rs, i)
      invariant forall k :: k in bad <==> 0 <= k < i && !RecordOk(rs, k)
    {
      var r := rs[i];
      var known := !r.action.Unknown?;
      var inOne := r.session == rs[0].session && r.agent == rs[0].agent && (0 < i ==> rs[i - 1].timestamp <= r.timestamp);
      var seen, linked: bool;
      seen, t := CheckSeen(rs, i, t);
      if i == 0 {
        linked := r.parent == None && r.prevHash == None && IsStart(r);
      } else {
        linked, digests := CheckLink(rs[i - 1], r, digests);
      }
      var tomb := CheckTomb(r, i == |rs| - 1);
      var end := CheckEnd(rs, i, digests);
      assert RecordOk(rs, i) <==> known && inOne && seen && linked && tomb && end;
      if !(known && inOne && seen && linked && tomb && end) {
        bad := bad + [i];
      }
    }
    AcceptedByRecord(rs);
    ok := rs != [] && bad == [];
    if bad != [] {
      assert bad[0] in bad;
    }
  }
}
