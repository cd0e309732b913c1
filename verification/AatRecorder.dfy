/**
 Audit-trail chains as a recorder makes them: one record after the other, said of the fields
 of the record and of those in front of it; and what a close and a tombstone hold.
 */
module AatRecorder {
  import opened Wrappers
  import opened AatChain

  predicate IsDigest(h: Option<Hash>) {
    h.Some? && match h.value case Text(_, hex) => hex case _ => true
  }

  /** A tombstone holds a digest, a reason, a time not before its record's, and what kind of record it replaced: none of the session's own. */
  predicate TombstoneFields(r: Rec) {
    if r.action == Lifecycle && r.detail.RecordDeleted? then
      && IsDigest(r.tombstoneHash) && r.outcome == "success"
      && r.detail.reason.Some? && r.detail.deletedAt.Some? && r.detail.deletedAt.value >= r.timestamp
      && (r.detail.original == ToolCall || r.detail.original == ToolResponse || r.detail.original == Decision
          || r.detail.original == Delegation || r.detail.original == Escalation || r.detail.original == Failure)
    else r.tombstoneHash.None?
  }

  /** The record was a call, or stands for one that was. */
  predicate WasCall(r: Rec) {
    r.action == ToolCall || (r.action == Lifecycle && r.detail.RecordDeleted? && r.detail.original == ToolCall)
  }

  /** The first record: the start of a session, linked to nothing. */
  lemma FirstRecord(r: Rec)
    ensures Linked([r]) <==>
            && r.action == Lifecycle && r.detail.SessionStart?
            && r.parent.None? && r.prevHash.None? && r.tombstoneHash.None?
  {
    var rs := [r];
    assert rs[0] == r;
    if r.action == Lifecycle && r.detail.SessionStart? && r.parent.None? && r.prevHash.None? && r.tombstoneHash.None? {
      assert AloneOk(rs[0]) && PlaceOk(rs, 0) && AnswerOk(rs, 0);
    }
    if Linked(rs) {
      assert AloneOk(rs[0]) && PlaceOk(rs, 0);
    }
  }

  /** What a record must hold behind a chain. */
  ghost predicate Follows(rs: seq<Rec>, r: Rec)
    requires rs != []
  {
    var last := rs[|rs| - 1];
    && !r.action.Unknown? && !(r.action == Lifecycle && r.detail.SessionStart?)
    && r.session == rs[0].session && r.agent == rs[0].agent && last.timestamp <= r.timestamp
    && r.parent == Some(last.id) && IsDigest(r.prevHash)
    && (r.prevHash == Some(HashOf(last))
        || (last.action == Lifecycle && last.detail.RecordDeleted? && r.prevHash == last.tombstoneHash))
    && (forall x <- rs :: x.id != r.id)
    && (r.nonce.Some? ==> forall x <- rs :: x.nonce != r.nonce)
    && TombstoneFields(r)
    && (r.action == ToolResponse && r.detail.CallAnswered? && r.detail.parentCallId.Some? ==>
          exists x :: x in rs && x.id == r.detail.parentCallId.value && WasCall(x))
  }

  lemma SameFields(r: Rec)
    ensures TombstoneFields(r) <==> TombOk(r)
    ensures WasCall(r) <==> IsCall(r)
    ensures IsDigest(r.prevHash) <==> IsHex(r.prevHash)
  {
  }

  lemma DifferentFrom(rs: seq<Rec>, r: Rec)
    ensures AllDifferent(rs + [r]) <==>
            && AllDifferent(rs) && (forall x <- rs :: x.id != r.id) && (r.nonce.Some? ==> forall x <- rs :: x.nonce != r.nonce)
  {
    var all := rs + [r];
    assert all[|rs|] == r && forall i :: 0 <= i < |rs| ==> all[i] == rs[i];
    if AllDifferent(all) {
      forall i, j | 0 <= i < j < |rs|
        ensures rs[i].id != rs[j].id && (rs[i].nonce == None || rs[i].nonce != rs[j].nonce)
      {
        assert all[i].id != all[j].id && (all[i].nonce == None || all[i].nonce != all[j].nonce);
      }
      forall x | x in rs ensures x.id != r.id && (r.nonce.Some? ==> x.nonce != r.nonce) {
        var i :| 0 <= i < |rs| && rs[i] == x;
        assert all[i].id != all[|rs|].id && (all[i].nonce == None || all[i].nonce != all[|rs|].nonce);
      }
    }
  }

  lemma AnswerIs(rs: seq<Rec>, r: Rec)
    ensures AnswerOk(rs + [r], |rs|) <==>
            (r.action == ToolResponse && r.detail.CallAnswered? && r.detail.parentCallId.Some? ==>
               exists x :: x in rs && x.id == r.detail.parentCallId.value && WasCall(x))
  {
    var all := rs + [r];
    assert all[|rs|] == r && forall i :: 0 <= i < |rs| ==> all[i] == rs[i];
    if r.action == ToolResponse && r.detail.CallAnswered? && r.detail.parentCallId.Some? {
      var p := r.detail.parentCallId.value;
      if x :| x in rs && x.id == p && WasCall(x) {
        var j :| 0 <= j < |rs| && rs[j] == x;
        assert IsCall(all[j]) && all[j].id == p;
      }
      if j :| 0 <= j < |rs| && IsCall(all[j]) && all[j].id == p {
        assert rs[j] in rs && WasCall(rs[j]);
      }
    }
  }

  lemma PlaceIs(rs: seq<Rec>, r: Rec)
    requires rs != []
    ensures var all, last := rs + [r], rs[|rs| - 1];
            PlaceOk(all, |rs|) <==>
            && r.session == rs[0].session && r.agent == rs[0].agent && last.timestamp <= r.timestamp && r.parent == Some(last.id)
            && IsDigest(r.prevHash)
            && (r.prevHash == Some(HashOf(last)) || (last.action == Lifecycle && last.detail.RecordDeleted? && r.prevHash == last.tombstoneHash))
            && !(r.action == Lifecycle && r.detail.SessionStart?)
  {
    var all := rs + [r];
    assert all[|rs|] == r && all[|rs| - 1] == rs[|rs| - 1] && all[0] == rs[0];
  }

  /** A chain with one record more is linked if and only if it was and the record follows: so the linked chains are those a recorder makes. */
  lemma OneRecordMore(rs: seq<Rec>, r: Rec)
    requires rs != []
    ensures Linked(rs + [r]) <==> Linked(rs) && Follows(rs, r)
  {
    var all := rs + [r];
    DifferentFrom(rs, r);
    AnswerIs(rs, r);
    PlaceIs(rs, r);
    SameFields(r);
    assert all[|rs|] == r;
    if Linked(all) {
      assert AloneOk(all[|rs|]) && PlaceOk(all, |rs|) && AnswerOk(all, |rs|);
      forall i | 0 <= i < |rs| ensures AloneOk(rs[i]) && PlaceOk(rs, i) && AnswerOk(rs, i) {
        assert AloneOk(all[i]) && PlaceOk(all, i) && AnswerOk(all, i);
        SamePlace(rs, r, i);
      }
    }
    if Linked(rs) && Follows(rs, r) {
      forall i | 0 <= i < |all| ensures AloneOk(all[i]) && PlaceOk(all, i) && AnswerOk(all, i) {
        if i < |rs| {
          assert AloneOk(rs[i]) && PlaceOk(rs, i) && AnswerOk(rs, i);
          SamePlace(rs, r, i);
        }
      }
    }
  }

  /** The hashes the records from the second on link to, one after another. */
  ghost predicate LinksOf(rs: seq<Rec>, hs: seq<Hash>) {
    |hs| + 1 == |rs| && forall i :: 0 <= i < |hs| ==> rs[i + 1].prevHash == Some(hs[i])
  }

  /** A linked chain is accepted if and only if a tombstone is not its last record, and a close is its last if any, over the links of all. */
  lemma AcceptedEnd(rs: seq<Rec>, hs: seq<Hash>)
    requires Linked(rs) && LinksOf(rs, hs)
    ensures ChainOk(rs) <==>
            var last := rs[|rs| - 1];
            && !(last.action == Lifecycle && last.detail.RecordDeleted?)
            && (forall i :: 0 <= i < |rs| - 1 ==> !(rs[i].action == Lifecycle && rs[i].detail.SessionEnd?))
            && (last.action == Lifecycle && last.detail.SessionEnd? ==> last.detail.sessionHash == Some(Joined(hs)))
  {
    var n := |rs| - 1;
    assert rs[1..n + 1] == rs[1..];
    assert PrevHashes(rs[1..]) == hs;
    forall i | 1 <= i < |rs| ensures IsHex(rs[i].prevHash) {
      LinkAt(rs, i);
    }
  }

  /** In a linked chain no record is earlier than one in front of it. */
  lemma {:induction false} TimesGrow(rs: seq<Rec>, i: nat, j: nat)
    requires Linked(rs) && i <= j < |rs|
    ensures rs[i].timestamp <= rs[j].timestamp
    decreases j
  {
    if i < j {
      TimesGrow(rs, i, j - 1);
      assert PlaceOk(rs, j);
    }
  }

  /** What a close holds: the number of records with itself, the whole milliseconds since the first, a time to the millisecond, and its links to the last. */
  lemma CloseHolds(rs: seq<Rec>, at: Option<int>, id: string)
    requires Linked(rs) && rs != [] && CloseRecord(rs, at, id).Some?
    ensures var c, last := CloseRecord(rs, at, id).value, rs[|rs| - 1];
            && c.id == id && c.session == last.session && c.agent == last.agent && c.common == last.common
            && c.tombstoneHash == None && c.nonce == None
            && c.action == Lifecycle && c.detail.SessionEnd? && c.outcome == "success"
            && c.detail.recordCount == |rs + [c]|
            && c.detail.duration * 1000 <= c.timestamp - rs[0].timestamp < c.detail.duration * 1000 + 1000
            && (at.None? ==> c.timestamp == last.timestamp)
            && (at.Some? ==> c.timestamp <= at.value < c.timestamp + 1000 && exists q :: c.timestamp == q * 1000)
            && c.parent == Some(last.id) && c.prevHash == Some(HashOf(last))
  {
    TimesGrow(rs, 0, |rs| - 1);
    if at.Some? {
      WholeThousands(at.value);
    }
  }

  lemma WholeThousands(t: int)
    ensures Truncated(t) <= t < Truncated(t) + 1000 && exists q :: Truncated(t) == q * 1000
  {
    assert t == t / 1000 * 1000 + t % 1000;
    assert Truncated(t) == (t / 1000) * 1000;
  }

  /** A linked chain can be closed exactly when the time given, to the millisecond, is not before its last record. */
  lemma CloseIsMade(rs: seq<Rec>, at: Option<int>, id: string)
    requires Linked(rs) && rs != []
    ensures CloseRecord(rs, at, id).None? <==> at.Some? && at.value - at.value % 1000 < rs[|rs| - 1].timestamp
  {
    forall i | 1 <= i < |rs| ensures IsHex(rs[i].prevHash) {
      LinkAt(rs, i);
    }
  }

  /** What a tombstone keeps of its record, and what it holds instead; a tombstone of a tombstone stands for the first record still. */
  lemma TombstoneHolds(r: Rec, reason: string, at: int)
    ensures Tombstone(r, reason, at).None? <==> r.action == Lifecycle && !r.detail.RecordDeleted?
    ensures var t := Tombstone(r, reason, at);
            t.Some? ==>
              && t.value.id == r.id && t.value.timestamp == r.timestamp && t.value.session == r.session && t.value.agent == r.agent
              && t.value.common == r.common && t.value.parent == r.parent && t.value.prevHash == r.prevHash
              && t.value.action == Lifecycle && t.value.detail.RecordDeleted? && t.value.outcome == "success" && t.value.nonce == None
              && t.value.detail.reason == Some(reason) && t.value.detail.deletedAt == Some(at - at % 1000)
              && (r.action != Lifecycle ==> t.value.tombstoneHash == Some(HashOf(r)) && t.value.detail.original == r.action)
              && (r.action == Lifecycle && IsDigest(r.tombstoneHash) ==>
                    t.value.tombstoneHash == r.tombstoneHash && t.value.detail.original == r.detail.original)
  {
  }
}
