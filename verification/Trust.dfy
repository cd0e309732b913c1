/**
 The trust registry: signers bound to their keys on first use, the live state and the
 state replayed from the records in the ledger.
 */
module Trust {
  import opened Wrappers

  /* ---------- records ---------- */

  /** A member of a record: absent, present but no string, or a string. */
  datatype Field = Missing | NotString | Text(s: string)

  /** What an entry of the ledger carries as its data. */
  datatype Data =
    | NotObject
    | Record(action: Field, signer: Field, pubkey: Field, pq: Field, reason: Field)

  datatype Pin = Pin(pubkey: string, pq: Option<string>, revoked: bool, reason: Field)

  type State = map<string, Pin>

  predicate IsString(f: Field) {
    f.Text? && f.s != ""
  }

  function OptionOf(f: Field): Option<string> {
    if f.Text? then Some(f.s) else None
  }

  predicate IsAct(d: Data)
    requires d.Record?
  {
    d.action == Text("trust") || d.action == Text("rotate") || d.action == Text("revoke")
  }

  /** A record of one of the three actions with what that action needs, each as a string. */
  predicate WellMade(d: Data)
    requires d.Record? && IsAct(d)
  {
    && IsString(d.signer)
    && (d.action == Text("revoke") || IsString(d.pubkey))
    && (d.pq == Missing || IsString(d.pq))
  }

  /** The state behind one record; a malformed one breaks the store, one of no known action changes nothing. */
  function Apply(st: State, d: Data): Option<State> {
    if d.NotObject? then None
    else if !IsAct(d) then Some(st)
    else if !WellMade(d) then None
    else
      var id := d.signer.s;
      if d.action == Text("revoke") then
        Some(if id in st then st[id := st[id].(revoked := true, reason := d.reason)] else st)
      else if d.action == Text("trust") && id in st && st[id].revoked then Some(st)
      else Some(st[id := Pin(d.pubkey.s, OptionOf(d.pq), false, Missing)])
  }

  /** The state behind a series of records. */
  function Replayed(ds: seq<Data>): Option<State> {
    if ds == [] then Some(map[])
    else
      match Replayed(ds[..|ds| - 1])
      case None => None
      case Some(st) => Apply(st, ds[|ds| - 1])
  }

  /* ---------- the live registry ---------- */

  /** White space as strip() sees it. */
  predicate IsSpace(c: char) {
    || '\t' <= c <= '\r' || '\U{1C}' <= c <= '\U{20}' || c == '\U{85}' || c == '\U{A0}' || c == '\U{1680}'
    || '\U{2000}' <= c <= '\U{200A}' || c == '\U{2028}' || c == '\U{2029}' || c == '\U{202F}' || c == '\U{205F}' || c == '\U{3000}'
  }

  /** A name or key: not empty, no white space at either end. */
  predicate KeyOk(s: string) {
    s != "" && !IsSpace(s[0]) && !IsSpace(s[|s| - 1])
  }

  /** The characters strip() takes away. */
  const SPACES: string :=
    "\U{09}\U{0A}\U{0B}\U{0C}\U{0D}\U{1C}\U{1D}\U{1E}\U{1F}\U{20}\U{85}\U{A0}\U{1680}"
    + "\U{2000}\U{2001}\U{2002}\U{2003}\U{2004}\U{2005}\U{2006}\U{2007}\U{2008}\U{2009}\U{200A}"
    + "\U{2028}\U{2029}\U{202F}\U{205F}\U{3000}"

  function StrippedLeft(s: string): string {
    if s != "" && s[0] in SPACES then StrippedLeft(s[1..]) else s
  }

  function StrippedRight(s: string): string {
    if s != "" && s[|s| - 1] in SPACES then StrippedRight(s[..|s| - 1]) else s
  }

  lemma SpaceAt(k: nat)
    requires k < |SPACES|
    ensures IsSpace(SPACES[k])
  {
  }

  /** Where a blank stands among them. */
  lemma SpacePlace(c: char) returns (k: nat)
    requires IsSpace(c)
    ensures k < |SPACES| && SPACES[k] == c
  {
    var n := c as int;
    if n <= 0x20 {
      k := if n <= 0x0D then n - 9 else n - 0x1C + 5;
    } else if n <= 0x200A {
      k := if n == 0x85 then 10 else if n == 0xA0 then 11 else if n == 0x1680 then 12 else n - 0x2000 + 13;
    } else {
      k := if n <= 0x2029 then n - 0x2028 + 24 else if n == 0x202F then 26 else if n == 0x205F then 27 else 28;
    }
  }

  lemma SpacesAreThese(c: char)
    ensures IsSpace(c) <==> c in SPACES
  {
    if IsSpace(c) {
      var k := SpacePlace(c);
    }
    if c in SPACES {
      var k :| 0 <= k < |SPACES| && SPACES[k] == c;
      SpaceAt(k);
    }
  }

  lemma {:induction false} StripsLess(s: string)
    ensures |StrippedLeft(s)| <= |s| && (|StrippedLeft(s)| == |s| <==> s == "" || s[0] !in SPACES)
    ensures s != "" && s[0] !in SPACES ==> StrippedLeft(s) == s
    ensures |StrippedRight(s)| <= |s| && (|StrippedRight(s)| == |s| <==> s == "" || s[|s| - 1] !in SPACES)
    ensures s != "" && s[|s| - 1] !in SPACES ==> StrippedRight(s) == s
    decreases |s|
  {
    if s != "" {
      if s[0] in SPACES {
        StripsLess(s[1..]);
      }
      if s[|s| - 1] in SPACES {
        StripsLess(s[..|s| - 1]);
      }
    }
  }

  lemma StrippedIsSame(s: string)
    requires s != ""
    ensures StrippedRight(StrippedLeft(s)) == s <==> s[0] !in SPACES && s[|s| - 1] !in SPACES
  {
    StripsLess(s);
    StripsLess(StrippedLeft(s));
  }

  /** A name is one exactly when it is not empty and stripping blanks at both ends changes nothing. */
  lemma NameIsStripped(s: string)
    ensures KeyOk(s) <==> s != "" && StrippedRight(StrippedLeft(s)) == s
  {
    if s != "" {
      StrippedIsSame(s);
      SpacesAreThese(s[0]);
      SpacesAreThese(s[|s| - 1]);
    }
  }

  predicate PqOk(pq: Option<string>) {
    pq.Some? ==> KeyOk(pq.value)
  }

  datatype Op =
    | DoTrust(id: string, pubkey: string, pq: Option<string>)
    | DoRotate(id: string, pubkey: string, pq: Option<string>, dropPq: bool)
    | DoRevoke(id: string, reason: string)

  datatype Registry = Registry(state: State, ledger: seq<Data>)

  function FieldOf(o: Option<string>): Field {
    match o
    case None => Missing
    case Some(s) => Text(s)
  }

  /** Whether a call goes as far as writing a record. */
  predicate Writes(st: State, op: Op) {
    match op
    case DoTrust(id, pubkey, pq) =>
      && KeyOk(id) && KeyOk(pubkey) && PqOk(pq)
      && (id in st ==> !st[id].revoked && st[id].pubkey == pubkey && st[id].pq == None && pq.Some?)
    case DoRotate(id, pubkey, pq, dropPq) =>
      && KeyOk(id) && KeyOk(pubkey) && PqOk(pq) && !(pq.Some? && dropPq)
      && (id in st && st[id].revoked && st[id].pq.Some? ==> pq.Some? || dropPq)
    case DoRevoke(id, _) => id in st
  }

  /** The post-quantum key a rotation leaves pinned. */
  function Kept(st: State, op: Op): Option<string>
    requires op.DoRotate?
  {
    if op.dropPq then None
    else if op.pq.Some? then op.pq
    else if op.id in st then st[op.id].pq
    else None
  }

  function RecordOf(st: State, op: Op): Data {
    match op
    case DoTrust(id, pubkey, pq) => Record(Text("trust"), Text(id), Text(pubkey), FieldOf(pq), Missing)
    case DoRotate(id, pubkey, _, _) => Record(Text("rotate"), Text(id), Text(pubkey), FieldOf(Kept(st, op)), Missing)
    case DoRevoke(id, reason) => Record(Text("revoke"), Text(id), Missing, Missing, Text(reason))
  }

  /** The pin a call leaves. */
  function PinOf(st: State, op: Op): Pin
    requires op.DoRevoke? ==> op.id in st
  {
    match op
    case DoTrust(_, pubkey, pq) => Pin(pubkey, pq, false, Missing)
    case DoRotate(_, pubkey, _, _) => Pin(pubkey, Kept(st, op), false, Missing)
    case DoRevoke(id, reason) => st[id].(revoked := true, reason := Text(reason))
  }

  /** One call; accepted says whether the ledger takes the record, if there is one. */
  function After(r: Registry, op: Op, accepted: bool): Registry {
    if Writes(r.state, op) && accepted then
      Registry(r.state[op.id := PinOf(r.state, op)], r.ledger + [RecordOf(r.state, op)])
    else r
  }

  predicate IsTrusted(st: State, id: string, pubkey: string) {
    id in st && !st[id].revoked && st[id].pubkey == pubkey
  }

  /** Every pin was made from non-empty strings. */
  ghost predicate Sound(st: State) {
    forall id <- st :: id != "" && st[id].pubkey != "" && st[id].pq != Some("")
  }

  /** Replaying the ledger gives the live state. */
  ghost predicate Consistent(r: Registry) {
    Replayed(r.ledger) == Some(r.state) && Sound(r.state)
  }

  /** A record with its three parts in order is well made. */
  lemma RecordIsWellMade(act: string, id: string, pubkey: Field, pq: Field, reason: Field)
    requires act == "trust" || act == "rotate" || act == "revoke"
    requires id != "" && (pq == Missing || IsString(pq)) && (act == "revoke" || IsString(pubkey))
    ensures var d := Record(Text(act), Text(id), pubkey, pq, reason);
            IsAct(d) && WellMade(d)
  {
  }

  lemma TrustReplays(st: State, id: string, pubkey: string, pq: Option<string>)
    requires Writes(st, DoTrust(id, pubkey, pq))
    ensures Apply(st, RecordOf(st, DoTrust(id, pubkey, pq))) == Some(st[id := Pin(pubkey, pq, false, Missing)])
  {
    RecordIsWellMade("trust", id, Text(pubkey), FieldOf(pq), Missing);
  }

  lemma RotateReplays(st: State, op: Op)
    requires op.DoRotate? && Writes(st, op) && Kept(st, op) != Some("")
    ensures Apply(st, RecordOf(st, op)) == Some(st[op.id := Pin(op.pubkey, Kept(st, op), false, Missing)])
  {
    RecordIsWellMade("rotate", op.id, Text(op.pubkey), FieldOf(Kept(st, op)), Missing);
  }

  lemma RevokeReplays(st: State, id: string, reason: string)
    requires id in st && id != ""
    ensures Apply(st, RecordOf(st, DoRevoke(id, reason))) == Some(st[id := st[id].(revoked := true, reason := Text(reason))])
  {
    RecordIsWellMade("revoke", id, Missing, Missing, Text(reason));
  }

  /** The record a call writes is replayed to the pin the call leaves. */
  lemma RecordReplays(st: State, op: Op)
    requires Sound(st) && Writes(st, op)
    ensures Apply(st, RecordOf(st, op)) == Some(st[op.id := PinOf(st, op)]) && Sound(st[op.id := PinOf(st, op)])
  {
    match op
    case DoTrust(id, pubkey, pq) => TrustReplays(st, id, pubkey, pq);
    case DoRotate(_, _, _, _) => RotateReplays(st, op);
    case DoRevoke(id, reason) => RevokeReplays(st, id, reason);
  }

  lemma AfterKeeps(r: Registry, op: Op, accepted: bool)
    requires Consistent(r)
    ensures Consistent(After(r, op, accepted))
  {
    if Writes(r.state, op) && accepted {
      var d := RecordOf(r.state, op);
      RecordReplays(r.state, op);
      ReplayedMore(r.ledger, d);
    }
  }

  lemma ReplayedMore(ds: seq<Data>, d: Data)
    requires Replayed(ds).Some?
    ensures Replayed(ds + [d]) == Apply(Replayed(ds).value, d)
  {
    assert (ds + [d])[..|ds|] == ds;
  }

  /* ---------- what holds over every history ---------- */

  datatype Call = Call(op: Op, accepted: bool)

  const EMPTY := Registry(map[], [])

  function Run(r: Registry, calls: seq<Call>): Registry {
    if calls == [] then r
    else
      var last := calls[|calls| - 1];
      After(Run(r, calls[..|calls| - 1]), last.op, last.accepted)
  }

  /** A call that writes its record. */
  predicate Taken(r: Registry, calls: seq<Call>, k: nat)
    requires k < |calls|
  {
    calls[k].accepted && Writes(Run(r, calls[..k]).state, calls[k].op)
  }

  /** After any calls, taken or refused, replaying the ledger gives the live state. */
  lemma {:induction false} LiveIsReplayed(r: Registry, calls: seq<Call>)
    requires Consistent(r)
    ensures Consistent(Run(r, calls))
  {
    if calls != [] {
      var n := |calls| - 1;
      LiveIsReplayed(r, calls[..n]);
      AfterKeeps(Run(r, calls[..n]), calls[n].op, calls[n].accepted);
    }
  }

  predicate IsRotateOf(c: Call, id: string) {
    c.op.DoRotate? && c.op.id == id
  }

  /** Calls none of which rotates the signer. */
  ghost predicate NoRotateOf(calls: seq<Call>, id: string) {
    forall c <- calls :: !IsRotateOf(c, id)
  }

  /** Without a rotation a signer's classical key stays what it is, and a revoked signer stays revoked. */
  lemma {:induction false} KeyChangesOnlyByRotate(r: Registry, calls: seq<Call>, id: string)
    requires id in r.state && NoRotateOf(calls, id)
    ensures id in Run(r, calls).state
    ensures Run(r, calls).state[id].pubkey == r.state[id].pubkey
    ensures r.state[id].revoked ==> Run(r, calls).state[id].revoked
  {
    if calls != [] {
      var n := |calls| - 1;
      assert !IsRotateOf(calls[n], id);
      KeyChangesOnlyByRotate(r, calls[..n], id);
    }
  }

  /** A revoked signer is trusted under no key until a rotation. */
  lemma RevokedIsUntrusted(r: Registry, before: seq<Call>, after: seq<Call>, id: string, reason: string, pubkey: string)
    requires id in Run(r, before).state && NoRotateOf(after, id)
    ensures var w := Run(After(Run(r, before), DoRevoke(id, reason), true), after);
            !IsTrusted(w.state, id, pubkey)
  {
    var w := After(Run(r, before), DoRevoke(id, reason), true);
    KeyChangesOnlyByRotate(w, after, id);
  }

  predicate DropsPq(c: Call, id: string) {
    c.op.DoRotate? && c.op.id == id && c.op.dropPq
  }

  /** A pinned post-quantum key goes only by a rotation that drops it, and is replaced only by a rotation. */
  lemma {:induction false} PqGoesOnlyByDropping(r: Registry, calls: seq<Call>, id: string)
    requires id in r.state && r.state[id].pq.Some? && forall c <- calls :: !DropsPq(c, id)
    ensures id in Run(r, calls).state && Run(r, calls).state[id].pq.Some?
    ensures NoRotateOf(calls, id) ==> Run(r, calls).state[id].pq == r.state[id].pq
  {
    if calls != [] {
      var n := |calls| - 1;
      assert !DropsPq(calls[n], id);
      assert NoRotateOf(calls, id) ==> !IsRotateOf(calls[n], id) && NoRotateOf(calls[..n], id);
      PqGoesOnlyByDropping(r, calls[..n], id);
    }
  }

  /** A signer once known stays known, and the ledger only grows. */
  lemma {:induction false} NothingForgotten(r: Registry, calls: seq<Call>, id: string)
    requires id in r.state
    ensures id in Run(r, calls).state && r.ledger <= Run(r, calls).ledger
  {
    if calls != [] {
      NothingForgotten(r, calls[..|calls| - 1], id);
    }
  }

  /* ---------- which ledgers a replay takes ---------- */

  /** A record that breaks a store: no object, or one of the three actions without a signer, without the key it needs, or with a post-quantum key that is none. */
  predicate Breaks(d: Data) {
    || d.NotObject?
    || ((d.action == Text("trust") || d.action == Text("rotate") || d.action == Text("revoke"))
        && (!(d.signer.Text? && d.signer.s != "")
            || (d.action != Text("revoke") && !(d.pubkey.Text? && d.pubkey.s != ""))
            || (d.pq != Missing && !(d.pq.Text? && d.pq.s != ""))))
  }

  /** A ledger is replayed if and only if none of its records breaks the store; a record of any other action is passed over. */
  lemma {:induction false} ReplayedUnlessBroken(ds: seq<Data>)
    ensures Replayed(ds).Some? <==> forall d <- ds :: !Breaks(d)
    ensures ds != [] && Replayed(ds).Some? && ds[|ds| - 1].action !in {Text("trust"), Text("rotate"), Text("revoke")} ==>
              Replayed(ds) == Replayed(ds[..|ds| - 1])
  {
    if ds != [] {
      var n := |ds| - 1;
      ReplayedUnlessBroken(ds[..n]);
      assert ds == ds[..n] + [ds[n]];
      BreaksIs(ds[n]);
    }
  }

  lemma BreaksIs(d: Data)
    ensures Breaks(d) <==> d.NotObject? || (IsAct(d) && !WellMade(d))
  {
  }

  /* ---------- which call a binding comes from ---------- */

  /** The k-th call is taken, is about the signer and does what is asked. */
  predicate Does(r: Registry, calls: seq<Call>, k: nat, id: string, what: Op -> bool)
    requires k < |calls|
  {
    Taken(r, calls, k) && calls[k].op.id == id && what(calls[k].op)
  }

  /** From the k-th call on every taken call about the signer leaves things as they are. */
  ghost predicate KeptFrom(r: Registry, calls: seq<Call>, k: nat, id: string, keeps: Op -> bool) {
    forall j :: k <= j < |calls| && Taken(r, calls, j) && calls[j].op.id == id ==> keeps(calls[j].op)
  }

  /** Some taken call about the signer set it, and none behind it undid it. */
  ghost predicate SetLast(r: Registry, calls: seq<Call>, id: string, sets: Op -> bool, keeps: Op -> bool) {
    exists k :: 0 <= k < |calls| && Does(r, calls, k, id, sets) && KeptFrom(r, calls, k + 1, id, keeps)
  }

  lemma SameTaken(r: Registry, calls: seq<Call>, k: nat)
    requires k + 1 < |calls|
    ensures Taken(r, calls[..|calls| - 1], k) == Taken(r, calls, k)
  {
    assert calls[..|calls| - 1][..k] == calls[..k];
  }

  lemma KeptOneMore(r: Registry, calls: seq<Call>, k: nat, id: string, keeps: Op -> bool)
    requires k < |calls|
    ensures KeptFrom(r, calls, k, id, keeps) <==>
            var n := |calls| - 1;
            KeptFrom(r, calls[..n], k, id, keeps) && (Taken(r, calls, n) && calls[n].op.id == id ==> keeps(calls[n].op))
  {
    var n := |calls| - 1;
    forall j: nat | j < n ensures Taken(r, calls[..n], j) == Taken(r, calls, j) {
      SameTaken(r, calls, j);
    }
    if KeptFrom(r, calls, k, id, keeps) {
      forall j: nat | k <= j < n && Taken(r, calls[..n], j) && calls[j].op.id == id ensures keeps(calls[j].op) {
        assert Taken(r, calls, j);
      }
    }
  }

  lemma SetOneMore(r: Registry, calls: seq<Call>, id: string, sets: Op -> bool, keeps: Op -> bool)
    requires calls != []
    ensures SetLast(r, calls, id, sets, keeps) <==>
            var n := |calls| - 1;
            if Taken(r, calls, n) && calls[n].op.id == id then
              sets(calls[n].op) || (keeps(calls[n].op) && SetLast(r, calls[..n], id, sets, keeps))
            else SetLast(r, calls[..n], id, sets, keeps)
  {
    var n := |calls| - 1;
    forall k: nat | k < n
      ensures Does(r, calls[..n], k, id, sets) == Does(r, calls, k, id, sets)
      ensures KeptFrom(r, calls, k + 1, id, keeps) <==>
              KeptFrom(r, calls[..n], k + 1, id, keeps)
              && (Taken(r, calls, n) && calls[n].op.id == id ==> keeps(calls[n].op))
    {
      SameTaken(r, calls, k);
      KeptOneMore(r, calls, k + 1, id, keeps);
    }
    if Does(r, calls, n, id, sets) {
      assert KeptFrom(r, calls, n + 1, id, keeps);
    }
  }

  /**
   Whoever is trusted under a key was bound to it by a taken trust or rotate call behind which
   no taken call about that signer revokes it or binds another key, and the other way round.
   */
  lemma {:induction false} TrustedWasBound(calls: seq<Call>, id: string, pubkey: string)
    ensures var binds := (op: Op) => !op.DoRevoke? && op.pubkey == pubkey;
            IsTrusted(Run(EMPTY, calls).state, id, pubkey) <==> SetLast(EMPTY, calls, id, binds, binds)
  {
    if calls != [] {
      var binds := (op: Op) => !op.DoRevoke? && op.pubkey == pubkey;
      TrustedWasBound(calls[..|calls| - 1], id, pubkey);
      SetOneMore(EMPTY, calls, id, binds, binds);
    }
  }

  /** The post-quantum key a caller is told: the pinned one of a signer that is not revoked. */
  function PqOf(st: State, id: string): Option<string> {
    if id in st && !st[id].revoked then st[id].pq else None
  }

  /**
   A post-quantum key is the pinned one exactly when a taken trust or rotate call named it
   and every taken call about that signer since then either named it again or is a rotation
   that names none and drops none.
   */
  lemma {:induction false} PqWasPinned(calls: seq<Call>, id: string, key: string)
    ensures var names := (op: Op) => !op.DoRevoke? && op.pq == Some(key);
            var keeps := (op: Op) => names(op) || (op.DoRotate? && op.pq == None && !op.dropPq);
            PqOf(Run(EMPTY, calls).state, id) == Some(key) <==> SetLast(EMPTY, calls, id, names, keeps)
  {
    if calls != [] {
      var names := (op: Op) => !op.DoRevoke? && op.pq == Some(key);
      var keeps := (op: Op) => names(op) || (op.DoRotate? && op.pq == None && !op.dropPq);
      PqWasPinned(calls[..|calls| - 1], id, key);
      SetOneMore(EMPTY, calls, id, names, keeps);
    }
  }

  /* ---------- which ledgers the live registry writes ---------- */

  predicate IsKey(f: Field) {
    f.Text? && KeyOk(f.s)
  }

  /**
   What a record must satisfy for some call to write it: names and keys without blanks at
   either end, a trust record only for a new signer or to add a post-quantum key to the key
   already bound, a rotation's post-quantum key given or kept, a revocation of a known signer.
   */
  predicate Writable(st: State, d: Data) {
    && d.Record? && d.signer.Text?
    && var id := d.signer.s;
       match d.action
       case Text(act) =>
         if act == "trust" then
           && KeyOk(id) && IsKey(d.pubkey) && (d.pq == Missing || IsKey(d.pq)) && d.reason == Missing
           && (id in st ==> !st[id].revoked && Text(st[id].pubkey) == d.pubkey && st[id].pq == None && d.pq != Missing)
         else if act == "rotate" then
           && KeyOk(id) && IsKey(d.pubkey) && d.reason == Missing
           && (d.pq == Missing || IsKey(d.pq) || (id in st && !st[id].revoked && st[id].pq.Some? && d.pq == Text(st[id].pq.value)))
         else
           act == "revoke" && id in st && d.pubkey == Missing && d.pq == Missing && d.reason.Text?
       case _ => false
  }

  /** A call that writes the record. */
  function CallFor(st: State, d: Data): Op
    requires Writable(st, d)
  {
    if d.action == Text("trust") then DoTrust(d.signer.s, d.pubkey.s, OptionOf(d.pq))
    else if d.action == Text("rotate") then
      if d.pq == Missing then DoRotate(d.signer.s, d.pubkey.s, None, true)
      else if KeyOk(d.pq.s) then DoRotate(d.signer.s, d.pubkey.s, OptionOf(d.pq), false)
      else DoRotate(d.signer.s, d.pubkey.s, None, false)
    else DoRevoke(d.signer.s, d.reason.s)
  }

  /** A record is one that some call on this state writes if and only if it is writable. */
  lemma WrittenIsWritable(st: State, d: Data)
    ensures (exists op :: Writes(st, op) && RecordOf(st, op) == d) <==> Writable(st, d)
    ensures Writable(st, d) ==> Writes(st, CallFor(st, d)) && RecordOf(st, CallFor(st, d)) == d
  {
    forall op | Writes(st, op) ensures Writable(st, RecordOf(st, op)) {
    }
    if Writable(st, d) {
      var op := CallFor(st, d);
      assert Writes(st, op);
      assert RecordOf(st, op) == d;
    }
  }

  /** Every record is replayed, and is writable on the state before it. */
  predicate LiveLedger(ds: seq<Data>) {
    if ds == [] then true
    else
      var front, last := ds[..|ds| - 1], ds[|ds| - 1];
      match Replayed(front)
      case None => false
      case Some(st) => LiveLedger(front) && Writable(st, last) && Apply(st, last).Some?
  }

  lemma {:induction false} RunIsLive(calls: seq<Call>)
    ensures LiveLedger(Run(EMPTY, calls).ledger)
  {
    if calls != [] {
      var n := |calls| - 1;
      var r := Run(EMPTY, calls[..n]);
      RunIsLive(calls[..n]);
      LiveIsReplayed(EMPTY, calls[..n]);
      LiveIsReplayed(EMPTY, calls);
      if Taken(EMPTY, calls, n) {
        var ds := Run(EMPTY, calls).ledger;
        assert ds[..|ds| - 1] == r.ledger;
        WrittenIsWritable(r.state, ds[|ds| - 1]);
      }
    }
  }

  lemma {:induction false} LiveIsRun(ds: seq<Data>) returns (calls: seq<Call>)
    requires LiveLedger(ds)
    ensures Run(EMPTY, calls).ledger == ds
  {
    calls := [];
    if ds != [] {
      var n := |ds| - 1;
      var front := LiveIsRun(ds[..n]);
      LiveIsReplayed(EMPTY, front);
      var st := Replayed(ds[..n]).value;
      WrittenIsWritable(st, ds[n]);
      calls := front + [Call(CallFor(st, ds[n]), true)];
      assert calls[..|calls| - 1] == front;
      assert ds == ds[..n] + [ds[n]];
    }
  }

  /** A ledger is one that some history of a live registry writes if and only if each of its records is writable where it stands. */
  lemma LiveLedgers(ds: seq<Data>)
    ensures (exists calls :: Run(EMPTY, calls).ledger == ds) <==> LiveLedger(ds)
  {
    if LiveLedger(ds) {
      var calls := LiveIsRun(ds);
    }
    forall calls | Run(EMPTY, calls).ledger == ds ensures LiveLedger(ds) {
      RunIsLive(calls);
    }
  }

  /* ---------- what a replay keeps, on any ledger ---------- */

  /** The states a replay passes through, one before each record and one behind the last. */
  ghost predicate IsReplay(ds: seq<Data>, sts: seq<State>) {
    && |sts| == |ds| + 1 && sts[0] == map[]
    && forall k :: 0 <= k < |ds| ==> Apply(sts[k], ds[k]) == Some(sts[k + 1])
  }

  lemma {:induction false} ReplayPasses(ds: seq<Data>) returns (sts: seq<State>)
    requires Replayed(ds).Some?
    ensures IsReplay(ds, sts) && sts[|ds|] == Replayed(ds).value
  {
    if ds == [] {
      sts := [map[]];
    } else {
      var n := |ds| - 1;
      var front := ReplayPasses(ds[..n]);
      sts := front + [Replayed(ds).value];
      forall k | 0 <= k < |ds| ensures Apply(sts[k], ds[k]) == Some(sts[k + 1]) {
        if k < n {
          assert ds[..n][k] == ds[k];
        }
      }
    }
  }

  lemma {:induction false} PassedIsReplay(ds: seq<Data>, sts: seq<State>)
    requires IsReplay(ds, sts)
    ensures Replayed(ds) == Some(sts[|ds|])
    decreases |ds|
  {
    if ds != [] {
      var n := |ds| - 1;
      forall k | 0 <= k < n ensures Apply(sts[..|ds|][k], ds[..n][k]) == Some(sts[..|ds|][k + 1]) {
        assert Apply(sts[k], ds[k]) == Some(sts[k + 1]);
      }
      PassedIsReplay(ds[..n], sts[..|ds|]);
      assert Apply(sts[n], ds[n]) == Some(sts[n + 1]);
    }
  }

  /** A ledger is replayed if and only if there are such states, and the last of them is the outcome. */
  lemma ReplayedByStates(ds: seq<Data>, st: State)
    ensures Replayed(ds) == Some(st) <==> exists sts :: IsReplay(ds, sts) && sts[|ds|] == st
  {
    if Replayed(ds) == Some(st) {
      var sts := ReplayPasses(ds);
    }
    forall sts | IsReplay(ds, sts) ensures Replayed(ds) == Some(sts[|ds|]) {
      PassedIsReplay(ds, sts);
    }
  }

  /** A record that binds the signer when it is replayed: a rotation, or a trust record while it is not revoked. */
  predicate Binds(st: State, d: Data, id: string) {
    && d.Record? && d.signer == Text(id)
    && (d.action == Text("rotate") || (d.action == Text("trust") && !(id in st && st[id].revoked)))
  }

  predicate BindsKey(st: State, d: Data, id: string, pubkey: string) {
    Binds(st, d, id) ==> d.pubkey == Text(pubkey)
  }

  predicate BindsPq(st: State, d: Data, id: string, pq: Option<string>) {
    Binds(st, d, id) ==> OptionOf(d.pq) == pq
  }

  predicate Rotates(d: Data, id: string) {
    d.Record? && d.action == Text("rotate") && d.signer == Text(id)
  }

  predicate KeyIs(st: State, id: string, pubkey: string) {
    id in st && st[id].pubkey == pubkey
  }

  predicate PqIs(st: State, id: string, pq: Option<string>) {
    id in st && st[id].pq == pq
  }

  predicate RevokedIn(st: State, id: string) {
    id in st && st[id].revoked
  }

  /** What one record does to the keys and the revocation of a known signer. */
  lemma OneRecord(st: State, d: Data, next: State, id: string, pubkey: string, pq: Option<string>)
    requires Apply(st, d) == Some(next)
    ensures KeyIs(st, id, pubkey) ==> (KeyIs(next, id, pubkey) <==> BindsKey(st, d, id, pubkey))
    ensures PqIs(st, id, pq) ==> (PqIs(next, id, pq) <==> BindsPq(st, d, id, pq))
    ensures RevokedIn(st, id) ==> (RevokedIn(next, id) <==> !Rotates(d, id))
  {
  }

  /**
   On any ledger that is replayed: between two places a signer's classical key stays what it
   is exactly when no record in between binds the signer to another.
   */
  lemma {:induction false} ReplayKeepsKey(ds: seq<Data>, sts: seq<State>, i: nat, j: nat, id: string, pubkey: string)
    requires IsReplay(ds, sts) && i <= j <= |ds| && KeyIs(sts[i], id, pubkey)
    ensures (forall k :: i <= k <= j ==> KeyIs(sts[k], id, pubkey)) <==> forall k :: i <= k < j ==> BindsKey(sts[k], ds[k], id, pubkey)
    decreases j
  {
    if i < j {
      ReplayKeepsKey(ds, sts, i, j - 1, id, pubkey);
      OneRecord(sts[j - 1], ds[j - 1], sts[j], id, pubkey, None);
    }
  }

  /** And its post-quantum key, pinned or absent, exactly when none binds the signer to another or to none. */
  lemma {:induction false} ReplayKeepsPq(ds: seq<Data>, sts: seq<State>, i: nat, j: nat, id: string, pq: Option<string>)
    requires IsReplay(ds, sts) && i <= j <= |ds| && PqIs(sts[i], id, pq)
    ensures (forall k :: i <= k <= j ==> PqIs(sts[k], id, pq)) <==> forall k :: i <= k < j ==> BindsPq(sts[k], ds[k], id, pq)
    decreases j
  {
    if i < j {
      ReplayKeepsPq(ds, sts, i, j - 1, id, pq);
      OneRecord(sts[j - 1], ds[j - 1], sts[j], id, "", pq);
    }
  }

  /** A signer that is revoked in a replay stays so exactly as long as no record rotates it. */
  lemma {:induction false} ReplayKeepsRevoked(ds: seq<Data>, sts: seq<State>, i: nat, j: nat, id: string)
    requires IsReplay(ds, sts) && i <= j <= |ds| && RevokedIn(sts[i], id)
    ensures (forall k :: i <= k <= j ==> RevokedIn(sts[k], id)) <==> forall k :: i <= k < j ==> !Rotates(ds[k], id)
    decreases j
  {
    if i < j {
      ReplayKeepsRevoked(ds, sts, i, j - 1, id);
      OneRecord(sts[j - 1], ds[j - 1], sts[j], id, "", None);
    }
  }

  /**
   What that costs on a ledger no live registry writes: a second trust record rebinds a
   signer, or takes its post-quantum key away, which no history of calls without a rotation
   can do.
   */
  lemma ReplayRebinds(id: string, pubkey: string, other: string, pq: string)
    requires id != "" && pubkey != "" && other != "" && pq != ""
    ensures var ds := [Record(Text("trust"), Text(id), Text(pubkey), Text(pq), Missing),
                       Record(Text("trust"), Text(id), Text(other), Missing, Missing)];
            && Replayed(ds) == Some(map[id := Pin(other, None, false, Missing)])
            && !exists calls :: Run(EMPTY, calls).ledger == ds
  {
    var first := Record(Text("trust"), Text(id), Text(pubkey), Text(pq), Missing);
    var second := Record(Text("trust"), Text(id), Text(other), Missing, Missing);
    var ds := [first, second];
    assert ds[..1] == [first] && [first][..0] == [];
    assert Replayed([]) == Some(map[]) && WellMade(first) && WellMade(second);
    var one := map[id := Pin(pubkey, Some(pq), false, Missing)];
    assert Apply(map[], first) == Some(one);
    assert Replayed([first]) == Some(one);
    assert one[id := Pin(other, None, false, Missing)] == map[id := Pin(other, None, false, Missing)];
    assert Apply(one, second) == Some(map[id := Pin(other, None, false, Missing)]);
    LiveLedgers(ds);
    assert !Writable(one, ds[1]);
  }

  /* ---------- the registry as an object ---------- */

  datatype Outcome = Refused | Idempotent | Recorded

  class TrustRegistry {
    var state: State
    var ledger: seq<Data>

    ghost function View(): Registry
      reads this
    {
      Registry(state, ledger)
    }

    ghost predicate Valid()
      reads this
    {
      Consistent(View())
    }

    constructor ()
      ensures Valid() && View() == EMPTY
    {
      state, ledger := map[], [];
    }

    /** One record of the ledger into the state. */
    method ApplyRecord(d: Data) returns (ok: bool)
      modifies this`state
      ensures ok <==> Apply(old(state), d).Some?
      ensures state == if ok then Apply(old(state), d).value else old(state)
    {
      if d.NotObject? {
        return false;
      }
      if !IsAct(d) {
        return true;
      }
      if !IsString(d.signer) {
        return false;
      }
      if d.action != Text("revoke") && !IsString(d.pubkey) {
        return false;
      }
      if d.pq != Missing && !IsString(d.pq) {
        return false;
      }
      var id := d.signer.s;
      if d.action == Text("trust") {
        if id in state && state[id].revoked {
          return true;
        }
        state := state[id := Pin(d.pubkey.s, OptionOf(d.pq), false, Missing)];
      } else if d.action == Text("rotate") {
        state := state[id := Pin(d.pubkey.s, OptionOf(d.pq), false, Missing)];
      } else if id in state {
        state := state[id := state[id].(revoked := true, reason := d.reason)];
      }
      return true;
    }

    /** The state of a ledger that is already there; a malformed record breaks the store. */
    method Load(ds: seq<Data>) returns (ok: bool)
      modifies this
      ensures ok <==> Replayed(ds).Some?
      ensures ok ==> state == Replayed(ds).value && ledger == ds
    {
      state, ledger := map[], ds;
      ok := true;
      for k := 0 to |ds|
        invariant ledger == ds && Replayed(ds[..k]) == Some(state)
      {
        assert ds[..k + 1][..k] == ds[..k];
        ok := ApplyRecord(ds[k]);
        if !ok {
          BrokenStays(ds, k + 1);
          return;
        }
      }
      assert ds[..|ds|] == ds;
    }

    method Trust(id: string, pubkey: string, pq: Option<string>, accepted: bool) returns (r: Outcome)
      requires Valid()
      modifies this
      ensures Valid() && View() == After(old(View()), DoTrust(id, pubkey, pq), accepted)
      ensures r.Recorded? <==> accepted && Writes(old(state), DoTrust(id, pubkey, pq))
      ensures r.Idempotent? <==> && KeyOk(id) && KeyOk(pubkey) && PqOk(pq)
                                 && IsTrusted(old(state), id, pubkey) && (pq == None || old(state)[id].pq == pq)
    {
      if !KeyOk(id) || !KeyOk(pubkey) || !PqOk(pq) {
        return Refused;
      }
      if id in state {
        var cur := state[id];
        if cur.revoked || cur.pubkey != pubkey || (cur.pq.Some? && pq.Some? && cur.pq != pq) {
          return Refused;
        }
        if pq == None || cur.pq == pq {
          return Idempotent;
        }
      }
      if !accepted {
        return Refused;
      }
      AfterKeeps(View(), DoTrust(id, pubkey, pq), accepted);
      ledger := ledger + [Record(Text("trust"), Text(id), Text(pubkey), FieldOf(pq), Missing)];
      // With no key given the source falls back on the pinned one; a known signer never gets this far without one.
      assert id in state ==> pq.Some?;
      state := state[id := Pin(pubkey, pq, false, Missing)];
      return Recorded;
    }

    method Rotate(id: string, pubkey: string, pq: Option<string>, dropPq: bool, accepted: bool) returns (r: Outcome)
      requires Valid()
      modifies this
      ensures Valid() && View() == After(old(View()), DoRotate(id, pubkey, pq, dropPq), accepted)
      ensures r == if accepted && Writes(old(state), DoRotate(id, pubkey, pq, dropPq)) then Recorded else Refused
    {
      if !KeyOk(id) || !KeyOk(pubkey) || !PqOk(pq) || (pq.Some? && dropPq) {
        return Refused;
      }
      if id in state && state[id].revoked && state[id].pq.Some? && pq == None && !dropPq {
        return Refused;
      }
      var kept: Option<string> := None;
      if !dropPq {
        kept := if pq.Some? then pq else if id in state then state[id].pq else None;
      }
      if !accepted {
        return Refused;
      }
      AfterKeeps(View(), DoRotate(id, pubkey, pq, dropPq), accepted);
      ledger := ledger + [Record(Text("rotate"), Text(id), Text(pubkey), FieldOf(kept), Missing)];
      state := state[id := Pin(pubkey, kept, false, Missing)];
      return Recorded;
    }

    method Revoke(id: string, reason: string, accepted: bool) returns (r: Outcome)
      requires Valid()
      modifies this
      ensures Valid() && View() == After(old(View()), DoRevoke(id, reason), accepted)
      ensures r == if accepted && id in old(state) then Recorded else Refused
    {
      if id !in state || !accepted {
        return Refused;
      }
      AfterKeeps(View(), DoRevoke(id, reason), accepted);
      ledger := ledger + [Record(Text("revoke"), Text(id), Missing, Missing, Text(reason))];
      state := state[id := state[id].(revoked := true, reason := Text(reason))];
      return Recorded;
    }

    /** The pinned post-quantum key of a signer that is not revoked. */
    method PqPubkey(id: string) returns (pq: Option<string>)
      ensures pq == PqOf(state, id)
    {
      if id in state && !state[id].revoked {
        return state[id].pq;
      }
      return None;
    }
  }

  /** A broken store stays broken, whatever follows. */
  lemma {:induction false} BrokenStays(ds: seq<Data>, k: nat)
    requires k <= |ds| && Replayed(ds[..k]) == None
    ensures Replayed(ds) == None
    decreases |ds| - k
  {
    if k == |ds| {
      assert ds[..k] == ds;
    } else {
      assert ds[..k + 1][..k] == ds[..k];
      BrokenStays(ds, k + 1);
    }
  }

  /* ---------- the replay of the second verifier ---------- */

  /** Its pins: an absent post-quantum key is an empty string. */
  datatype GoPin = GoPin(pubkey: string, pq: string, revoked: bool)

  function GoView(p: Pin): GoPin {
    GoPin(p.pubkey, if p.pq.Some? then p.pq.value else "", p.revoked)
  }

  ghost predicate Agree(st: State, go: map<string, GoPin>) {
    st.Keys == go.Keys && forall id <- st :: go[id] == GoView(st[id])
  }

  function StringOr(f: Field): string {
    if f.Text? then f.s else ""
  }

  /** One record into the second verifier's map. */
  method GoApply(st: map<string, GoPin>, d: Data, ghost live: State) returns (next: map<string, GoPin>, ok: bool)
    requires Agree(live, st)
    ensures ok <==> Apply(live, d).Some?
    ensures ok ==> Agree(Apply(live, d).value, next)
  {
    next := st;
    if d.NotObject? {
      return next, false;
    }
    var act := StringOr(d.action);
    if act != "trust" && act != "rotate" && act != "revoke" {
      return next, true;
    }
    var sid, pk, pq := StringOr(d.signer), StringOr(d.pubkey), StringOr(d.pq);
    if sid == "" || (act != "revoke" && pk == "") || (d.pq != Missing && pq == "") {
      return next, false;
    }
    if act == "revoke" {
      if sid in st {
        next := st[sid := st[sid].(revoked := true)];
      }
    } else if !(act == "trust" && sid in st && st[sid].revoked) {
      next := st[sid := GoPin(pk, pq, false)];
    }
    return next, true;
  }

  /** The whole replay: it accepts the same ledgers and pins the same keys. */
  method GoTrustState(ds: seq<Data>) returns (st: map<string, GoPin>, ok: bool)
    ensures ok <==> Replayed(ds).Some?
    ensures ok ==> Agree(Replayed(ds).value, st)
  {
    st, ok := map[], true;
    for k := 0 to |ds|
      invariant Replayed(ds[..k]).Some? && Agree(Replayed(ds[..k]).value, st)
      invariant ok
    {
      assert ds[..k + 1][..k] == ds[..k];
      st, ok := GoApply(st, ds[k], Replayed(ds[..k]).value);
      if !ok {
        BrokenStays(ds, k + 1);
        return;
      }
    }
    assert ds[..|ds|] == ds;
  }
}
