/**
 Long-term evidence records: a Merkle root over packs, renewed again and again, each archive
 timestamp bound to the ones before it. A digest is the free constructor of what it covers.
 */
module Preservation {
  import opened Wrappers

  datatype Alg = Sha256 | Sha512 | Sha3_256 | Sha3_512 | Unsupported(name: string)

  datatype Digest =
    | Digest(alg: Alg, of: Preimage)
    | Raw(text: string)             // a recorded text that is no digest of anything

  datatype Preimage =
    | Pack(sha3: string)
    | Pair(left: Digest, right: Digest)
    | EntryText(entry: Entry)
    | ChainText(entries: seq<Entry>)
    | RecordText(objects: seq<string>, timestamps: seq<Entry>)

  datatype Kind = Initial | TimestampRenewal | HashTreeRenewal | OtherKind(name: string)

  /** A token that is missing, empty or no string is None. */
  datatype Time = Asserted(stamped: string) | Rfc3161(token: Option<string>, stamped: string)

  datatype Entry = Entry(
    seqNo: int, kind: Kind, alg: Alg, leaves: Option<seq<Digest>>, root: Option<Digest>,
    prevBinding: Option<Digest>, chainBinding: Option<Digest>, time: Time, created: string)

  datatype Record = Record(objects: seq<string>, timestamps: seq<Entry>, sha3: Digest)

  /* ---------- the tree ---------- */

  /** Neighbours hashed together, an odd last one with itself. */
  function NextLevel(level: seq<Digest>, alg: Alg): (next: seq<Digest>)
    ensures |next| == (|level| + 1) / 2
    ensures forall k :: 0 <= k < |next| ==>
              next[k] == Digest(alg, Pair(level[2 * k], if 2 * k + 1 < |level| then level[2 * k + 1] else level[2 * k]))
  {
    seq((|level| + 1) / 2, k requires 0 <= k < (|level| + 1) / 2 =>
      Digest(alg, Pair(level[2 * k], if 2 * k + 1 < |level| then level[2 * k + 1] else level[2 * k])))
  }

  /** The root over leaf digests; over none, the digest of nothing. */
  function Root(leaves: seq<Digest>, alg: Alg): Digest
    decreases |leaves|
  {
    if leaves == [] then Digest(alg, Pack(""))
    else if |leaves| == 1 then leaves[0]
    else Root(NextLevel(leaves, alg), alg)
  }

  method MerkleRoot(leaves: seq<Digest>, alg: Alg) returns (root: Digest)
    ensures root == Root(leaves, alg)
  {
    if leaves == [] {
      return Digest(alg, Pack(""));
    }
    var level := leaves;
    while 1 < |level|
      invariant level != [] && Root(level, alg) == Root(leaves, alg)
    {
      var next: seq<Digest> := [];
      var i := 0;
      while i < |level|
        invariant 0 <= i <= |level| + 1 && i % 2 == 0 && |next| == i / 2
        invariant next == NextLevel(level, alg)[..i / 2]
      {
        var a := level[i];
        var b := if i + 1 < |level| then level[i + 1] else level[i];
        assert NextLevel(level, alg)[i / 2] == Digest(alg, Pair(a, b));
        next := next + [Digest(alg, Pair(a, b))];
        i := i + 2;
      }
      assert next == NextLevel(level, alg);
      level := next;
    }
    return level[0];
  }

  /** Leaf lists of one length with one root are equal. */
  lemma {:induction false} RootFixesLeaves(a: seq<Digest>, b: seq<Digest>, alg: Alg)
    requires |a| == |b| && Root(a, alg) == Root(b, alg)
    ensures a == b
    decreases |a|
  {
    if |a| > 1 {
      var x, y := NextLevel(a, alg), NextLevel(b, alg);
      RootFixesLeaves(x, y, alg);
      forall i | 0 <= i < |a| ensures a[i] == b[i] {
        assert x[i / 2] == y[i / 2];
      }
    }
  }

  /** Of different lengths they need not be: an odd list has the root of the list with its last leaf twice. */
  lemma OddLastCountsTwice(a: seq<Digest>, alg: Alg)
    requires 1 < |a| && |a| % 2 == 1
    ensures Root(a, alg) == Root(a + [a[|a| - 1]], alg)
  {
    assert NextLevel(a, alg) == NextLevel(a + [a[|a| - 1]], alg);
  }

  /* ---------- what a record must be ---------- */

  predicate Supported(alg: Alg) {
    !alg.Unsupported?
  }

  function Leaves(objects: seq<string>, alg: Alg): (ls: seq<Digest>)
    ensures |ls| == |objects| && forall i :: 0 <= i < |ls| ==> ls[i] == Digest(alg, Pack(objects[i]))
  {
    seq(|objects|, i requires 0 <= i < |objects| => Digest(alg, Pack(objects[i])))
  }

  function ChainBinding(es: seq<Entry>, alg: Alg): Digest {
    Digest(alg, ChainText(es))
  }

  function RenewedLeaves(objects: seq<string>, es: seq<Entry>, alg: Alg): seq<Digest> {
    Leaves(objects, alg) + [ChainBinding(es, alg)]
  }

  predicate InitialOk(objects: seq<string>, e: Entry) {
    && Supported(e.alg)
    && e.root == Some(Root(Leaves(objects, e.alg), e.alg))
    && e.leaves == Some(Leaves(objects, e.alg))
  }

  /** An entry renews those before it. */
  predicate LinkOk(objects: seq<string>, before: seq<Entry>, e: Entry)
    requires before != []
  {
    match e.kind
    case TimestampRenewal => Supported(e.alg) && e.prevBinding == Some(Digest(e.alg, EntryText(before[|before| - 1])))
    case HashTreeRenewal =>
      && Supported(e.alg)
      && e.chainBinding == Some(ChainBinding(before, e.alg))
      && e.leaves == Some(RenewedLeaves(objects, before, e.alg))
      && e.root == Some(Root(RenewedLeaves(objects, before, e.alg), e.alg))
    case _ => false
  }

  ghost predicate ChainOk(objects: seq<string>, es: seq<Entry>) {
    && es != [] && InitialOk(objects, es[0])
    && forall i :: 1 <= i < |es| ==> LinkAt(objects, es, i)
  }

  predicate LinkAt(objects: seq<string>, es: seq<Entry>, i: nat)
    requires 1 <= i < |es|
  {
    LinkOk(objects, es[..i], es[i])
  }

  /** A verdict on a token over what it covers: checked, or not checked. */
  type Tsa = (string, Option<Digest>) -> Option<bool>

  function Covered(e: Entry): Option<Digest> {
    if e.root.Some? then e.root else e.prevBinding
  }

  /** An asserted time proves nothing and fails nothing; a declared token must be there, and not be refused. */
  predicate TimeOk(e: Entry, tsa: Tsa) {
    match e.time
    case Asserted(_) => true
    case Rfc3161(None, _) => false
    case Rfc3161(Some(token), _) => tsa(token, Covered(e)) != Some(false)
  }

  /** The packs given, when any are, are the record's; a pack that cannot be read is None. */
  predicate BoundOk(objects: seq<string>, packs: Option<seq<Option<string>>>) {
    packs.Some? ==> |packs.value| == |objects| && forall i :: 0 <= i < |objects| ==> packs.value[i] == Some(objects[i])
  }

  function Sealed(objects: seq<string>, es: seq<Entry>): Record {
    Record(objects, es, Digest(Sha3_256, RecordText(objects, es)))
  }

  ghost predicate IsValid(r: Record, packs: Option<seq<Option<string>>>, tsa: Tsa) {
    && r == Sealed(r.objects, r.timestamps)
    && BoundOk(r.objects, packs)
    && ChainOk(r.objects, r.timestamps)
    && forall i :: 0 <= i < |r.timestamps| ==> TimeOk(r.timestamps[i], tsa)
  }

  /* ---------- building and renewing ---------- */

  function InitialEntry(objects: seq<string>, alg: Alg, time: Time, created: string): Entry {
    Entry(0, Initial, alg, Some(Leaves(objects, alg)), Some(Root(Leaves(objects, alg), alg)), None, None, time, created)
  }

  function TimestampEntry(prev: Entry, time: Time, created: string): Entry {
    Entry(prev.seqNo + 1, TimestampRenewal, prev.alg, None, None, Some(Digest(prev.alg, EntryText(prev))), None, time, created)
  }

  function HashTreeEntry(objects: seq<string>, es: seq<Entry>, alg: Alg, time: Time, created: string): Entry
    requires es != []
  {
    var leaves := RenewedLeaves(objects, es, alg);
    Entry(es[|es| - 1].seqNo + 1, HashTreeRenewal, alg, Some(leaves), Some(Root(leaves, alg)), None,
          Some(ChainBinding(es, alg)), time, created)
  }

  datatype Renewal =
    | OfTime(time: Time, created: string)
    | OfTree(packs: Option<seq<Option<string>>>, alg: Alg, time: Time, created: string)

  /** Whether a renewal is refused. */
  predicate Refused(r: Record, n: Renewal) {
    || r.timestamps == []
    || (n.OfTime? && !Supported(r.timestamps[|r.timestamps| - 1].alg))
    || (n.OfTree? && (!Supported(n.alg) || !BoundOk(r.objects, n.packs)))
  }

  function EntryFor(r: Record, n: Renewal): Entry
    requires !Refused(r, n)
  {
    match n
    case OfTime(time, created) => TimestampEntry(r.timestamps[|r.timestamps| - 1], time, created)
    case OfTree(_, alg, time, created) => HashTreeEntry(r.objects, r.timestamps, alg, time, created)
  }

  function Renewed(r: Record, n: Renewal): Record {
    if Refused(r, n) then r else Sealed(r.objects, r.timestamps + [EntryFor(r, n)])
  }

  function RenewedBy(r: Record, ns: seq<Renewal>): Record
    decreases |ns|
  {
    if ns == [] then r else RenewedBy(Renewed(r, ns[0]), ns[1..])
  }

  /** One entry more: the chain holds when it held and the entry renews it. */
  lemma ChainGrows(objects: seq<string>, es: seq<Entry>, e: Entry)
    requires es != []
    ensures ChainOk(objects, es + [e]) <==> ChainOk(objects, es) && LinkOk(objects, es, e)
  {
    var all := es + [e];
    assert all[..|es|] == es && all[|es|] == e && all[0] == es[0];
    forall i | 1 <= i < |es| ensures LinkAt(objects, all, i) <==> LinkAt(objects, es, i) {
      assert all[..i] == es[..i] && all[i] == es[i];
    }
    assert LinkAt(objects, all, |es|) <==> LinkOk(objects, es, e);
    if ChainOk(objects, all) {
      forall i | 1 <= i < |es| ensures LinkAt(objects, es, i) {
        assert LinkAt(objects, all, i);
      }
    }
  }

  /** After a renewal that is not refused, a record is valid exactly when its packs, its chain and its times were, and the new time is. */
  lemma RenewedIsValid(r: Record, n: Renewal, packs: Option<seq<Option<string>>>, tsa: Tsa)
    requires !Refused(r, n)
    ensures IsValid(Renewed(r, n), packs, tsa) <==>
            && BoundOk(r.objects, packs) && ChainOk(r.objects, r.timestamps) && TimeOk(EntryFor(r, n), tsa)
            && forall i :: 0 <= i < |r.timestamps| ==> TimeOk(r.timestamps[i], tsa)
  {
    var e, es := EntryFor(r, n), r.timestamps;
    ChainGrows(r.objects, es, e);
    assert LinkOk(r.objects, es, e);
    var all := es + [e];
    if IsValid(Renewed(r, n), packs, tsa) {
      assert TimeOk(all[|es|], tsa);
      forall i | 0 <= i < |es| ensures TimeOk(es[i], tsa) {
        assert all[i] == es[i] && TimeOk(all[i], tsa);
      }
    }
  }

  /** A built record stays valid under any renewals with asserted times, taken or refused. */
  lemma {:induction false} RenewalsStayValid(r: Record, ns: seq<Renewal>, packs: Option<seq<Option<string>>>, tsa: Tsa)
    requires IsValid(r, packs, tsa) && forall n <- ns :: n.time.Asserted?
    ensures IsValid(RenewedBy(r, ns), packs, tsa)
    decreases |ns|
  {
    if ns != [] {
      if !Refused(r, ns[0]) {
        RenewedIsValid(r, ns[0], packs, tsa);
      }
      RenewalsStayValid(Renewed(r, ns[0]), ns[1..], packs, tsa);
    }
  }

  /* ---------- the last entry ---------- */

  predicate IsRenewal(e: Entry) {
    e.kind.TimestampRenewal? || e.kind.HashTreeRenewal?
  }

  /** One entry at two places of two chains: the entries before it are one, too. */
  lemma AlikeBefore(x: seq<string>, a: seq<Entry>, i: nat, y: seq<string>, b: seq<Entry>, j: nat)
    requires 1 <= i < |a| && 1 <= j < |b| && LinkAt(x, a, i) && LinkAt(y, b, j) && a[i] == b[j]
    ensures a[i - 1] == b[j - 1]
  {
    if a[i].kind.HashTreeRenewal? {
      assert a[..i] == b[..j];
    }
    assert a[..i][i - 1] == b[..j][j - 1];
  }

  /** Two chains alike at their ends are alike further back, t entries from the end. */
  lemma {:induction false} AlikeBack(x: seq<string>, a: seq<Entry>, y: seq<string>, b: seq<Entry>, t: nat)
    requires ChainOk(x, a) && ChainOk(y, b) && a[|a| - 1] == b[|b| - 1]
    requires t < |a| <= |b|
    ensures a[|a| - 1 - t] == b[|b| - 1 - t]
    decreases t
  {
    if 0 < t {
      AlikeBack(x, a, y, b, t - 1);
      AlikeBefore(x, a, |a| - t, y, b, |b| - t);
    }
  }

  /** Two records with one last entry: equal when they have equally many, and otherwise the shorter is the end of the longer and begins with a renewal. */
  lemma LastEntryFixesAll(x: seq<string>, a: seq<Entry>, y: seq<string>, b: seq<Entry>)
    requires ChainOk(x, a) && ChainOk(y, b) && a[|a| - 1] == b[|b| - 1] && |a| <= |b|
    ensures a == b[|b| - |a|..]
    ensures |a| == |b| ==> a == b && x == y
    ensures |a| < |b| ==> IsRenewal(a[0])
  {
    var d := |b| - |a|;
    forall i | 0 <= i < |a| ensures a[i] == b[d + i] {
      AlikeBack(x, a, y, b, |a| - 1 - i);
    }
    if d == 0 {
      forall i | 0 <= i < |x| ensures |x| == |y| && x[i] == y[i] {
        assert Leaves(x, a[0].alg)[i] == Leaves(y, a[0].alg)[i];
      }
      assert |Leaves(x, a[0].alg)| == |Leaves(y, a[0].alg)|;
    } else {
      assert LinkAt(y, b, d);
    }
  }

  /** The number of an entry is not looked at: a renewal that also carries a root passes as a first entry, too. */
  lemma OneLastEntryOfTwoRecords(objects: seq<string>, time: Time, created: string)
    ensures var first := InitialEntry(objects, Sha256, time, created);
            var last := TimestampEntry(first, time, created).(leaves := first.leaves, root := first.root);
            ChainOk(objects, [last]) && ChainOk(objects, [first, last])
  {
    var first := InitialEntry(objects, Sha256, time, created);
    var last := TimestampEntry(first, time, created).(leaves := first.leaves, root := first.root);
    assert [first, last] == [first] + [last];
    ChainGrows(objects, [first], last);
  }

  /* ---------- the record as an object ---------- */

  datatype Status = Pass | Fail | Skip

  datatype Check = RecordSha3 | HasTimestamps | ObjectsBound | InitialRoot | RenewalOf(i: nat) | TimeOf(i: nat) | Malformed

  datatype Layer = Layer(check: Check, status: Status)

  predicate NoneFails(layers: seq<Layer>) {
    forall l <- layers :: l.status != Fail
  }

  function Judge(ok: bool): Status {
    if ok then Pass else Fail
  }

  method ReadPacks(packs: seq<Option<string>>) returns (objects: Option<seq<string>>)
    ensures objects.Some? <==> None !in packs
    ensures objects.Some? ==> |objects.value| == |packs| && forall i :: 0 <= i < |packs| ==> packs[i] == Some(objects.value[i])
  {
    var out: seq<string> := [];
    for k := 0 to |packs|
      invariant |out| == k && forall i :: 0 <= i < k ==> packs[i] == Some(out[i])
    {
      if packs[k] == None {
        return None;
      }
      out := out + [packs[k].value];
    }
    return Some(out);
  }

  method MatchPacks(objects: seq<string>, packs: seq<Option<string>>) returns (bound: bool)
    ensures bound <==> BoundOk(objects, Some(packs))
  {
    var read := ReadPacks(packs);
    if read == None {
      return false;
    }
    bound := read.value == objects;
    if bound {
      assert BoundOk(objects, Some(packs));
    }
  }

  class EvidenceRecord {
    var objects: seq<string>
    var timestamps: seq<Entry>
    var sha3: Digest

    ghost function View(): Record
      reads this
    {
      Record(objects, timestamps, sha3)
    }

    constructor (objects: seq<string>, timestamps: seq<Entry>, sha3: Digest)
      ensures View() == Record(objects, timestamps, sha3)
    {
      this.objects, this.timestamps, this.sha3 := objects, timestamps, sha3;
    }

    /** Seal packs into a record; an unreadable pack or an unknown algorithm is refused. */
    static method Build(packs: seq<Option<string>>, alg: Alg, time: Time, created: string) returns (r: Option<EvidenceRecord>)
      ensures r.Some? <==> Supported(alg) && None !in packs
      ensures r.Some? ==> fresh(r.value) && BoundOk(r.value.objects, Some(packs))
      ensures r.Some? ==> r.value.View() == Sealed(r.value.objects, [InitialEntry(r.value.objects, alg, time, created)])
    {
      var read := ReadPacks(packs);
      if read == None || !Supported(alg) {
        return None;
      }
      var leaves := Leaves(read.value, alg);
      var root := MerkleRoot(leaves, alg);
      var first := Entry(0, Initial, alg, Some(leaves), Some(root), None, None, time, created);
      var record := new EvidenceRecord(read.value, [first], Raw(""));
      record.Finalize();
      return Some(record);
    }

    method Finalize()
      modifies this`sha3
      ensures View() == Sealed(objects, timestamps)
    {
      sha3 := Digest(Sha3_256, RecordText(objects, timestamps));
    }

    method RenewTimestamp(time: Time, created: string) returns (ok: bool)
      modifies this`timestamps, this`sha3
      ensures ok <==> !Refused(old(View()), OfTime(time, created))
      ensures View() == Renewed(old(View()), OfTime(time, created))
    {
      if timestamps == [] {
        return false;
      }
      var prev := timestamps[|timestamps| - 1];
      if !Supported(prev.alg) {
        return false;
      }
      var binding := Digest(prev.alg, EntryText(prev));
      timestamps := timestamps +
        [Entry(prev.seqNo + 1, TimestampRenewal, prev.alg, None, None, Some(binding), None, time, created)];
      Finalize();
      return true;
    }

    method RenewHashTree(packs: Option<seq<Option<string>>>, alg: Alg, time: Time, created: string) returns (ok: bool)
      modifies this`timestamps, this`sha3
      ensures ok <==> !Refused(old(View()), OfTree(packs, alg, time, created))
      ensures View() == Renewed(old(View()), OfTree(packs, alg, time, created))
    {
      if !Supported(alg) || timestamps == [] {
        return false;
      }
      var prev := timestamps[|timestamps| - 1];
      if packs.Some? {
        var bound := MatchPacks(objects, packs.value);
        if !bound {
          return false;
        }
      }
      var chain := Digest(alg, ChainText(timestamps));
      var leaves := Leaves(objects, alg) + [chain];
      var root := MerkleRoot(leaves, alg);
      timestamps := timestamps +
        [Entry(prev.seqNo + 1, HashTreeRenewal, alg, Some(leaves), Some(root), None, Some(chain), time, created)];
      Finalize();
      return true;
    }

    /** One renewal against the entries before it; an unknown algorithm makes the whole record malformed. */
    method CheckRenewal(i: nat) returns (status: Option<Status>)
      requires 1 <= i < |timestamps|
      ensures status == Some(Pass) <==> LinkAt(objects, timestamps, i)
      ensures status != Some(Skip)
    {
      var cur, prev := timestamps[i], timestamps[i - 1];
      match cur.kind {
        case TimestampRenewal =>
          if !Supported(cur.alg) {
            return None;
          }
          return Some(Judge(cur.prevBinding == Some(Digest(cur.alg, EntryText(prev)))));
        case HashTreeRenewal =>
          if !Supported(cur.alg) {
            return None;
          }
          var chain := Digest(cur.alg, ChainText(timestamps[..i]));
          var leaves := Leaves(objects, cur.alg) + [chain];
          var root := MerkleRoot(leaves, cur.alg);
          return Some(Judge(cur.chainBinding == Some(chain) && cur.leaves == Some(leaves) && cur.root == Some(root)));
        case _ =>
          return Some(Fail);
      }
    }

    static method CheckTime(e: Entry, tsa: Tsa) returns (status: Status)
      ensures status != Fail <==> TimeOk(e, tsa)
      ensures status == Pass <==> e.time.Rfc3161? && e.time.token.Some? && tsa(e.time.token.value, Covered(e)) == Some(true)
    {
      match e.time {
        case Asserted(_) =>
          return Skip;
        case Rfc3161(None, _) =>
          return Fail;
        case Rfc3161(Some(token), _) =>
          match tsa(token, Covered(e)) {
            case None => return Skip;
            case Some(verified) => return Judge(verified);
          }
      }
    }

    /** The layers of the record as a whole. */
    method CheckHead(packs: Option<seq<Option<string>>>) returns (layers: seq<Layer>)
      ensures NoneFails(layers) <==> View() == Sealed(objects, timestamps) && timestamps != [] && BoundOk(objects, packs)
    {
      var sealed := Layer(RecordSha3, Judge(sha3 == Digest(Sha3_256, RecordText(objects, timestamps))));
      var some := Layer(HasTimestamps, Judge(timestamps != []));
      NoneFailsAppend([], sealed);
      NoneFailsAppend([sealed], some);
      layers := [sealed] + [some];
      if packs.Some? {
        var bound := MatchPacks(objects, packs.value);
        NoneFailsAppend(layers, Layer(ObjectsBound, Judge(bound)));
        layers := layers + [Layer(ObjectsBound, Judge(bound))];
      }
    }

    /** The first entry and every renewal, behind the layers already there; None for a malformed record. */
    method CheckChain(head: seq<Layer>) returns (layers: Option<seq<Layer>>)
      requires timestamps == [] ==> !NoneFails(head)
      ensures layers == None ==> !ChainOk(objects, timestamps)
      ensures layers.Some? ==> (NoneFails(layers.value) <==> NoneFails(head) && ChainOk(objects, timestamps))
    {
      if timestamps == [] {
        return Some(head);
      }
      var first := timestamps[0];
      if !Supported(first.alg) {
        return None;
      }
      var leaves := Leaves(objects, first.alg);
      var root := MerkleRoot(leaves, first.alg);
      var initial := Layer(InitialRoot, Judge(first.root == Some(root) && first.leaves == Some(leaves)));
      NoneFailsAppend(head, initial);
      var all := head + [initial];
      for i := 1 to |timestamps|
        invariant NoneFails(all) <==>
                    (NoneFails(head) && InitialOk(objects, timestamps[0]) && forall k :: 1 <= k < i ==> LinkAt(objects, timestamps, k))
      {
        var status := CheckRenewal(i);
        if status == None {
          return None;
        }
        NoneFailsAppend(all, Layer(RenewalOf(i), status.value));
        all := all + [Layer(RenewalOf(i), status.value)];
      }
      return Some(all);
    }

    /** Every layer of the record; it is valid exactly when the record is what it must be. */
    method Verify(packs: Option<seq<Option<string>>>, tsa: Tsa) returns (valid: bool, layers: seq<Layer>)
      ensures valid <==> IsValid(View(), packs, tsa)
      ensures valid <==> NoneFails(layers)
    {
      var head := CheckHead(packs);
      var chain := CheckChain(head);
      if chain == None {
        return false, [Layer(Malformed, Fail)];
      }
      layers := chain.value;
      for k := 0 to |timestamps|
        invariant NoneFails(layers) <==> NoneFails(chain.value) && forall j :: 0 <= j < k ==> TimeOk(timestamps[j], tsa)
      {
        var status := CheckTime(timestamps[k], tsa);
        NoneFailsAppend(layers, Layer(TimeOf(k), status));
        layers := layers + [Layer(TimeOf(k), status)];
      }
      valid := NoneFails(layers);
    }
  }

  lemma NoneFailsAppend(layers: seq<Layer>, l: Layer)
    ensures NoneFails(layers + [l]) <==> NoneFails(layers) && l.status != Fail
  {
    assert l in layers + [l];
    assert forall m :: m in layers ==> m in layers + [l];
  }
}
