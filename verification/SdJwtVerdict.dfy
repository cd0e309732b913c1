/**
 What a verdict on a token says of the token itself, field by field.
 */
module SdJwtVerdict {
  import opened Wrappers
  import opened SdJwtProcess
  import opened SdJwt

  /* ---------- who signed ---------- */

  /** A verified token carries the signature its key makes over exactly its two segments, under the one algorithm and digest there are. */
  lemma VerifiedIsSigned(h: Hash, t: Token, key: string, now: real)
    requires Verify(h, t, key, now).Verified?
    ensures t.jws.Jws? && t.jws.sig == Some(Signed(key, t.jws.header, t.jws.body))
    ensures t.jws.header.Part? && t.jws.header.content.Obj? && Depth(t.jws.header.content) <= 512
    ensures Get(t.jws.header.content.members, "alg") == Some(Str("EdDSA"))
    ensures t.jws.body.Part? && t.jws.body.content.Obj? && Depth(t.jws.body.content) <= 512
    ensures var alg := Get(t.jws.body.content.members, "_sd_alg");
            alg == None || alg == Some(Str("sha-256"))
  {
    SignedBodyIs(t.jws, key);
  }

  lemma SignedBodyIs(jws: Jws, key: string)
    requires SignedBody(jws, key).Some?
    ensures jws.Jws? && jws.sig == Some(Signed(key, jws.header, jws.body))
    ensures jws.header.Part? && jws.header.content.Obj? && Depth(jws.header.content) <= 512
    ensures Get(jws.header.content.members, "alg") == Some(Str("EdDSA"))
    ensures jws.body.Part? && jws.body.content == Obj(SignedBody(jws, key).value) && Depth(jws.body.content) <= 512
    ensures var alg := Get(jws.body.content.members, "_sd_alg");
            alg == None || alg == Some(Str("sha-256"))
  {
  }

  /** No token verifies under a key that did not sign it, without a signature, or with one of the signed segments changed. */
  lemma OthersTokenIsRefused(h: Hash, t: Token, signer: string, header: Part, body: Part, key: string, now: real)
    requires t.jws.Jws? && (t.jws.sig == Some(Signed(signer, header, body)) || t.jws.sig == Some(NoSignature) || t.jws.sig == None)
    requires signer != key || header != t.jws.header || body != t.jws.body || t.jws.sig != Some(Signed(signer, header, body))
    ensures Verify(h, t, key, now) == NotVerified
  {
    if Verify(h, t, key, now).Verified? {
      VerifiedIsSigned(h, t, key, now);
    }
  }

  /* ---------- values as a JSON reader gives them ---------- */

  function Names(ms: seq<Member>): (ks: seq<string>)
    ensures |ks| == |ms| && forall i :: 0 <= i < |ks| ==> ks[i] == ms[i].key
  {
    seq(|ms|, i requires 0 <= i < |ms| => ms[i].key)
  }

  /** Every object has each of its names once and, where bare is set, lists no digests. */
  ghost predicate Neat(j: Json, bare: bool)
    decreases j, 1
  {
    match j
    case Obj(ms) => NoRepeat(Names(ms)) && (bare ==> "_sd" !in Names(ms)) && MembersNeat(ms, bare)
    case Arr(items) => ItemsNeat(items, bare)
    case _ => true
  }

  ghost predicate MembersNeat(ms: seq<Member>, bare: bool)
    decreases ms, 0
  {
    ms == [] || (Neat(ms[0].value, bare) && MembersNeat(ms[1..], bare))
  }

  ghost predicate ItemsNeat(js: seq<Json>, bare: bool)
    decreases js, 0
  {
    js == [] || (Neat(js[0], bare) && ItemsNeat(js[1..], bare))
  }

  lemma {:induction false} MembersNeatJoin(a: seq<Member>, m: Member, bare: bool)
    ensures MembersNeat(a + [m], bare) <==> MembersNeat(a, bare) && Neat(m.value, bare)
    decreases |a|
  {
    if a == [] {
      assert a + [m] == [m];
    } else {
      assert (a + [m])[1..] == a[1..] + [m];
      MembersNeatJoin(a[1..], m, bare);
    }
  }

  lemma {:induction false} ItemsNeatJoin(a: seq<Json>, j: Json, bare: bool)
    ensures ItemsNeat(a + [j], bare) <==> ItemsNeat(a, bare) && Neat(j, bare)
    decreases |a|
  {
    if a == [] {
      assert a + [j] == [j];
    } else {
      assert (a + [j])[1..] == a[1..] + [j];
      ItemsNeatJoin(a[1..], j, bare);
    }
  }

  lemma {:induction false} ItemIsNeat(js: seq<Json>, bare: bool, i: nat)
    requires ItemsNeat(js, bare) && i < |js|
    ensures Neat(js[i], bare)
    decreases i
  {
    if 0 < i {
      ItemIsNeat(js[1..], bare, i - 1);
    }
  }

  lemma {:induction false} HasIsNamed(ms: seq<Member>, key: string)
    ensures Has(ms, key) <==> key in Names(ms)
    decreases |ms|
  {
    if ms != [] {
      HasIsNamed(ms[1..], key);
      assert Names(ms) == [ms[0].key] + Names(ms[1..]);
    }
  }

  /* ---------- what processing leaves ---------- */

  /** A Disclosure of a claim or of an array element: its salt a string, in an array of three or two; the claim's name neither of the two that hold digests. */
  predicate Shaped(p: Part) {
    && p.Part? && Depth(p.content) <= 512 && p.content.Arr? && (|p.content.items| == 2 || |p.content.items| == 3)
    && p.content.items[0].Str?
    && (|p.content.items| == 3 ==> p.content.items[1].Str? && p.content.items[1].s != "_sd" && p.content.items[1].s != "...")
  }

  ghost predicate NeatMap(dis: Map) {
    forall d <- dis :: dis[d].Part? ==> Neat(dis[d].content, false)
  }

  ghost predicate UsedShaped(dis: Map, log: Log) {
    forall d <- log.used :: d in dis && Shaped(dis[d])
  }

  lemma TakenIsShaped(dis: Map, d: string, n: nat, log: Log)
    requires n == 2 || n == 3
    requires UsedShaped(dis, log) && !Take(dis, d, n, log).Rejected?
    requires n == 3 && Take(dis, d, n, log).Content? ==>
               var name := Take(dis, d, n, log).items[1];
               name.Str? && name.s != "_sd" && name.s != "..."
    ensures UsedShaped(dis, Take(dis, d, n, log).log)
    ensures Take(dis, d, n, log).Content? && NeatMap(dis) ==> Neat(Take(dis, d, n, log).items[n - 1], false)
  {
    if Take(dis, d, n, log).Content? && NeatMap(dis) {
      ItemIsNeat(Take(dis, d, n, log).items, false, n - 1);
    }
  }

  /** The names gathered so far and those still to come are all different, and none of those gathered lists digests. */
  ghost predicate Gathered(out: seq<Member>, ms: seq<Member>) {
    NoRepeat(Names(out) + Names(ms)) && "_sd" !in Names(out) && MembersNeat(out, true)
  }

  lemma GatheredOne(out: seq<Member>, m: Member, v: Json, rest: seq<Member>)
    requires Gathered(out, [m] + rest) && Neat(v, true)
    ensures Gathered(out, rest)
    ensures m.key != "_sd" ==> Gathered(out + [Member(m.key, v)], rest)
  {
    var all := Names(out) + Names([m] + rest);
    assert Names([m] + rest) == [m.key] + Names(rest);
    assert all == Names(out) + [m.key] + Names(rest);
    var n := |out|;
    forall i, j | 0 <= i < j < n + |rest| ensures (Names(out) + Names(rest))[i] != (Names(out) + Names(rest))[j] {
      assert (Names(out) + Names(rest))[i] == all[if i < n then i else i + 1];
      assert (Names(out) + Names(rest))[j] == all[if j < n then j else j + 1];
    }
    assert Names(out + [Member(m.key, v)]) == Names(out) + [m.key];
    MembersNeatJoin(out, Member(m.key, v), true);
  }

  lemma GatheredAll(out: seq<Member>)
    ensures Gathered(out, []) <==> NoRepeat(Names(out)) && "_sd" !in Names(out) && MembersNeat(out, true)
  {
    assert Names(out) + Names([]) == Names(out);
  }

  lemma GatheredMore(out: seq<Member>, key: string, v: Json)
    requires Gathered(out, []) && !Has(out, key) && key != "_sd" && Neat(v, true)
    ensures Gathered(out + [Member(key, v)], [])
  {
    GatheredAll(out);
    HasIsNamed(out, key);
    assert Names(out + [Member(key, v)]) == Names(out) + [key];
    MembersNeatJoin(out, Member(key, v), true);
    GatheredAll(out + [Member(key, v)]);
  }

  /** What comes out has each name once in every object and no list of digests anywhere, and every Disclosure used is one. */
  lemma {:induction false} ProcessedIsBare(dis: Map, node: Json, log: Log)
    requires Neat(node, false) && NeatMap(dis) && UsedShaped(dis, log) && Process(dis, node, log).Some?
    ensures Neat(Process(dis, node, log).value.0, true) && UsedShaped(dis, Process(dis, node, log).value.1)
    decreases dis.Keys - Seen(log), true, node, 1
  {
    match node
    case Obj(ms) =>
      var (out, next) := ProcessMembers(dis, ms, [], log).value;
      assert Names([]) + Names(ms) == Names(ms);
      MembersAreBare(dis, ms, [], log);
      DigestsAreBare(dis, SdOf(ms), out, next);
      GatheredAll(ProcessDigests(dis, SdOf(ms), out, next).value.0);
    case Arr(items) => ItemsAreBare(dis, items, [], log);
    case _ =>
  }

  lemma {:induction false} MembersAreBare(dis: Map, ms: seq<Member>, out: seq<Member>, log: Log)
    requires MembersNeat(ms, false) && Gathered(out, ms) && NeatMap(dis) && UsedShaped(dis, log)
    requires ProcessMembers(dis, ms, out, log).Some?
    ensures Gathered(ProcessMembers(dis, ms, out, log).value.0, []) && UsedShaped(dis, ProcessMembers(dis, ms, out, log).value.1)
    decreases dis.Keys - Seen(log), true, ms, 0
  {
    if ms != [] {
      assert ms == [ms[0]] + ms[1..];
      if ms[0].key == SD {
        GatheredOne(out, ms[0], Null, ms[1..]);
        MembersAreBare(dis, ms[1..], out, log);
      } else {
        var (v, next) := Process(dis, ms[0].value, log).value;
        ProcessedIsBare(dis, ms[0].value, log);
        GatheredOne(out, ms[0], v, ms[1..]);
        MembersAreBare(dis, ms[1..], out + [Member(ms[0].key, v)], next);
      }
    }
  }

  lemma {:induction false} DigestsAreBare(dis: Map, ds: seq<string>, out: seq<Member>, log: Log)
    requires Gathered(out, []) && NeatMap(dis) && UsedShaped(dis, log)
    requires ProcessDigests(dis, ds, out, log).Some?
    ensures Gathered(ProcessDigests(dis, ds, out, log).value.0, []) && UsedShaped(dis, ProcessDigests(dis, ds, out, log).value.1)
    decreases dis.Keys - Seen(log), false, |ds|
  {
    if ds != [] {
      TakenIsShaped(dis, ds[0], 3, log);
      match Take(dis, ds[0], 3, log)
      case Unknown(next) => DigestsAreBare(dis, ds[1..], out, next);
      case Content(items, next) =>
        var (v, end) := Process(dis, items[2], next).value;
        ProcessedIsBare(dis, items[2], next);
        GatheredMore(out, items[1].s, v);
        DigestsAreBare(dis, ds[1..], out + [Member(items[1].s, v)], end);
    }
  }

  lemma {:induction false} ItemsAreBare(dis: Map, js: seq<Json>, res: seq<Json>, log: Log)
    requires ItemsNeat(js, false) && ItemsNeat(res, true) && NeatMap(dis) && UsedShaped(dis, log)
    requires ProcessItems(dis, js, res, log).Some?
    ensures ItemsNeat(ProcessItems(dis, js, res, log).value.0, true) && UsedShaped(dis, ProcessItems(dis, js, res, log).value.1)
    decreases dis.Keys - Seen(log), true, js, 0
  {
    if js != [] {
      match Marker(js[0])
      case Some(d) =>
        TakenIsShaped(dis, d, 2, log);
        match Take(dis, d, 2, log) {
          case Unknown(next) => ItemsAreBare(dis, js[1..], res, next);
          case Content(items, next) =>
            var (v, end) := Process(dis, items[1], next).value;
            ProcessedIsBare(dis, items[1], next);
            ItemsNeatJoin(res, v, true);
            ItemsAreBare(dis, js[1..], res + [v], end);
        }
      case None =>
        var (v, next) := Process(dis, js[0], log).value;
        ProcessedIsBare(dis, js[0], log);
        ItemsNeatJoin(res, v, true);
        ItemsAreBare(dis, js[1..], res + [v], next);
    }
  }

  /* ---------- the elements of an array ---------- */

  /** An array element as an issuer makes it: in clear, or behind a digest. */
  datatype Slot = Clear(value: Json) | Hidden(digest: string)

  /** The array an issuer signs. */
  function Markers(slots: seq<Slot>): (js: seq<Json>)
    ensures |js| == |slots|
    ensures forall i :: 0 <= i < |js| ==>
              js[i] == match slots[i] case Clear(v) => v case Hidden(d) => Obj([Member("...", Str(d))])
  {
    seq(|slots|, i requires 0 <= i < |slots| => match slots[i] case Clear(v) => v case Hidden(d) => Obj([Member("...", Str(d))]))
  }

  /** The array a verifier reads: an element behind a digest stands in its place when its Disclosure is there, and is left out when not. */
  function Opened(dis: Map, slots: seq<Slot>): seq<Json> {
    if slots == [] then []
    else
      (match slots[0]
       case Clear(v) => [v]
       case Hidden(d) => if d in dis && dis[d].Part? && dis[d].content.Arr? && |dis[d].content.items| == 2 then [dis[d].content.items[1]] else [])
      + Opened(dis, slots[1..])
  }

  function SlotDigests(slots: seq<Slot>): seq<string> {
    if slots == [] then []
    else (match slots[0] case Clear(_) => [] case Hidden(d) => [d]) + SlotDigests(slots[1..])
  }

  /** Elements of plain values, each Disclosure a salt and a plain value. */
  ghost predicate PlainSlots(dis: Map, slots: seq<Slot>) {
    forall s <- slots :: match s
      case Clear(v) => NamesOk(v)
      case Hidden(d) => d in dis ==> Shaped(dis[d]) && |dis[d].content.items| == 2 && NamesOk(dis[d].content.items[1])
  }

  lemma ClearIsKept(dis: Map, v: Json, rest: seq<Slot>, res: seq<Json>, log: Log)
    requires NamesOk(v)
    ensures ProcessItems(dis, Markers([Clear(v)] + rest), res, log) == ProcessItems(dis, Markers(rest), res + [v], log)
    ensures Opened(dis, [Clear(v)] + rest) == [v] + Opened(dis, rest) && SlotDigests([Clear(v)] + rest) == SlotDigests(rest)
  {
    var slots := [Clear(v)] + rest;
    assert slots[1..] == rest && Markers(slots)[1..] == Markers(rest);
    NoMarker(v);
    PlainIsKept(dis, v, log);
  }

  lemma HiddenIsTaken(dis: Map, d: string, rest: seq<Slot>, res: seq<Json>, log: Log)
    requires d in dis ==> Shaped(dis[d]) && |dis[d].content.items| == 2 && NamesOk(dis[d].content.items[1])
    ensures ProcessItems(dis, Markers([Hidden(d)] + rest), res, log) ==
            if d in log.met then None
            else if d in dis then ProcessItems(dis, Markers(rest), res + [dis[d].content.items[1]], Log(log.met + [d], log.used + [d]))
            else ProcessItems(dis, Markers(rest), res, Log(log.met + [d], log.used))
  {
    var slots := [Hidden(d)] + rest;
    assert slots[1..] == rest && Markers(slots)[1..] == Markers(rest) && Marker(Markers(slots)[0]) == Some(d);
    if d in dis {
      PlainIsKept(dis, dis[d].content.items[1], Log(log.met + [d], log.used + [d]));
    }
  }

  lemma HiddenOpens(dis: Map, d: string, rest: seq<Slot>)
    requires d in dis ==> Shaped(dis[d]) && |dis[d].content.items| == 2
    ensures Opened(dis, [Hidden(d)] + rest) == if d in dis then [dis[d].content.items[1]] + Opened(dis, rest) else Opened(dis, rest)
    ensures SlotDigests([Hidden(d)] + rest) == [d] + SlotDigests(rest)
  {
    assert ([Hidden(d)] + rest)[1..] == rest;
  }

  lemma PlainRest(dis: Map, slots: seq<Slot>)
    requires slots != [] && PlainSlots(dis, slots)
    ensures PlainSlots(dis, slots[1..])
    ensures match slots[0]
            case Clear(v) => NamesOk(v)
            case Hidden(d) => d in dis ==> Shaped(dis[d]) && |dis[d].content.items| == 2 && NamesOk(dis[d].content.items[1])
  {
    assert slots[0] in slots && forall s <- slots[1..] :: s in slots;
  }

  /** Every element comes out in its place, whichever Disclosures are there; a digest that stands twice is refused. */
  lemma {:induction false} ArrayIsOpened(dis: Map, slots: seq<Slot>, res: seq<Json>, log: Log)
    requires PlainSlots(dis, slots) && NoRepeat(log.met)
    ensures var r := ProcessItems(dis, Markers(slots), res, log);
            if NoRepeat(log.met + SlotDigests(slots))
            then r.Some? && r.value.0 == res + Opened(dis, slots) && r.value.1.met == log.met + SlotDigests(slots)
            else r == None
    decreases |slots|
  {
    if slots == [] {
      assert res + [] == res && log.met + [] == log.met;
    } else {
      var rest := slots[1..];
      assert slots == [slots[0]] + rest;
      PlainRest(dis, slots);
      match slots[0]
      case Clear(v) =>
        ClearIsKept(dis, v, rest, res, log);
        ArrayIsOpened(dis, rest, res + [v], log);
        Regroup(res, v, Opened(dis, rest));
      case Hidden(d) =>
        HiddenIsTaken(dis, d, rest, res, log);
        HiddenOpens(dis, d, rest);
        MetJoin(log.met, d, SlotDigests(rest));
        if d !in log.met {
          MetOnceMore(log.met, d);
          if d in dis {
            ArrayIsOpened(dis, rest, res + [dis[d].content.items[1]], Log(log.met + [d], log.used + [d]));
            Regroup(res, dis[d].content.items[1], Opened(dis, rest));
          } else {
            ArrayIsOpened(dis, rest, res, Log(log.met + [d], log.used));
          }
        }
    }
  }

  lemma Regroup(res: seq<Json>, v: Json, more: seq<Json>)
    ensures res + [v] + more == res + ([v] + more)
  {
  }

  lemma MetJoin(met: seq<string>, d: string, more: seq<string>)
    ensures met + ([d] + more) == met + [d] + more
    ensures d in met ==> !NoRepeat(met + ([d] + more))
  {
    var all := met + ([d] + more);
    assert all[|met|] == d;
    if d in met {
      var i :| 0 <= i < |met| && met[i] == d;
      assert all[i] == d;
    }
  }

  lemma MetOnceMore(met: seq<string>, d: string)
    requires d !in met
    ensures NoRepeat(met) ==> NoRepeat(met + [d])
  {
  }

  /* ---------- the verdict ---------- */

  lemma {:induction false} GetDrop(ms: seq<Member>, key: string, k: string)
    ensures Get(Drop(ms, key), k) == if k == key then None else Get(ms, k)
    decreases |ms|
  {
    if ms != [] {
      GetDrop(ms[1..], key, k);
    }
  }

  lemma {:induction false} NotEmptyIs(ss: seq<Option<Part>>)
    ensures forall p :: p in NotEmpty(ss) <==> Some(p) in ss
    decreases |ss|
  {
    if ss != [] {
      NotEmptyIs(ss[1..]);
      assert ss == [ss[0]] + ss[1..];
    }
  }

  /** The digest strings an object lists under _sd. */
  ghost predicate Lists(ms: seq<Member>, d: string) {
    match Get(ms, "_sd")
    case Some(Arr(items)) => Str(d) in items
    case _ => false
  }

  lemma ListsIs(ms: seq<Member>, d: string)
    requires SdOk(ms)
    ensures Lists(ms, d) <==> d in SdOf(ms)
  {
    if Get(ms, SD).Some? {
      var items := Get(ms, SD).value.items;
      if Str(d) in items {
        var i :| 0 <= i < |items| && items[i] == Str(d);
        assert Strings(items)[i] == d;
      }
      if d in Strings(items) {
        var i :| 0 <= i < |items| && Strings(items)[i] == d;
        assert items[i] == Str(d);
      }
    }
  }

  /** What the parts of a verdict are: the plain claims, the disclosed ones, the digests nothing was presented for, all read off token and processed payload; and the time limits hold. */
  lemma VerdictIs(h: Hash, t: Token, key: string, now: real)
    requires Verify(h, t, key, now).Verified?
    ensures t.jws.Jws? && t.jws.body.Part? && t.jws.body.content.Obj?
    ensures var v, body := Verify(h, t, key, now), t.jws.body.content.members;
            && (forall k :: Get(v.plain, k) == if k == "_sd" || k == "_sd_alg" then None else Get(body, k))
            && (forall k :: Get(v.disclosed, k) == if Has(body, k) then None else Get(v.processed, k))
            && (forall d :: d in v.undisclosed <==> Lists(body, d) && forall p :: Some(p) in t.segments ==> h(p) != d)
            && Get(v.processed, "_sd_alg") == None
            && (Has(v.processed, "exp") ==> exists n :: Get(v.processed, "exp") == Some(Num(n)) && now < n)
            && (Has(v.processed, "nbf") ==> exists n :: Get(v.processed, "nbf") == Some(Num(n)) && n <= now)
  {
    VerifiedIsSigned(h, t, key, now);
    SignedBodyIs(t.jws, key);
    var v, body := Verify(h, t, key, now), t.jws.body.content.members;
    var dis := ByDigest(h, NotEmpty(t.segments)).value;
    var (out, log) := Process(dis, Obj(body), START).value;
    forall k ensures Get(v.plain, k) == if k == "_sd" || k == "_sd_alg" then None else Get(body, k) {
      GetDrop(body, SD, k);
      GetDrop(Drop(body, SD), SD_ALG, k);
    }
    forall k ensures Get(v.disclosed, k) == if Has(body, k) then None else Get(v.processed, k) {
      GetDropAll(v.processed, body, k);
    }
    GetDrop(out.members, SD_ALG, SD_ALG);
    UndisclosedIs(h, t, body, dis, log, v.undisclosed);
    if Has(v.processed, "exp") {
      assert Get(v.processed, "exp") == Some(Num(Get(v.processed, "exp").value.n));
    }
    if Has(v.processed, "nbf") {
      assert Get(v.processed, "nbf") == Some(Num(Get(v.processed, "nbf").value.n));
    }
  }

  lemma UndisclosedIs(h: Hash, t: Token, body: seq<Member>, dis: Map, log: Log, undisclosed: set<string>)
    requires ByDigest(h, NotEmpty(t.segments)) == Some(dis) && Accepts(dis, Obj(body)) && Process(dis, Obj(body), START).value.1 == log
    requires undisclosed == (set d | d in SdOf(body)) - (set d | d in log.used)
    ensures forall d :: d in undisclosed <==> Lists(body, d) && forall p :: Some(p) in t.segments ==> h(p) != d
  {
    EveryDisclosureOnce(dis, Obj(body));
    UsedAreThere(dis, log);
    forall d ensures d in undisclosed <==> Lists(body, d) && forall p :: Some(p) in t.segments ==> h(p) != d {
      ListsIs(body, d);
      PresentedDigest(h, t.segments, dis, d);
    }
  }

  lemma UsedAreThere(dis: Map, log: Log)
    requires multiset(log.used) == multiset(dis.Keys)
    ensures forall d :: d in log.used <==> d in dis
  {
    forall d ensures d in log.used <==> d in dis {
      assert d in multiset(log.used) <==> d in multiset(dis.Keys);
    }
  }

  lemma PresentedDigest(h: Hash, ss: seq<Option<Part>>, dis: Map, d: string)
    requires ByDigest(h, NotEmpty(ss)) == Some(dis)
    ensures d in dis <==> exists p :: Some(p) in ss && h(p) == d
  {
    ByDigestMaps(h, NotEmpty(ss));
    NotEmptyIs(ss);
    if d in dis {
      assert Some(dis[d]) in ss && h(dis[d]) == d;
    }
  }

  /**
   What a verifier accepts: the token ends in an empty segment and has no other, no two
   segments are one Disclosure, each is a salt with a claim or an element, and the processed
   payload names nothing twice and lists no digest, at any depth. Objects are as a JSON
   reader gives them, each name once.
   */
  lemma AcceptedIsBare(h: Hash, t: Token, key: string, now: real)
    requires Verify(h, t, key, now).Verified?
    requires t.jws.Jws? && t.jws.body.Part? && Neat(t.jws.body.content, false)
    requires forall p :: Some(p) in t.segments && p.Part? ==> Neat(p.content, false)
    ensures t.segments != [] && t.segments[|t.segments| - 1] == None && None !in t.segments[..|t.segments| - 1]
    ensures forall i, j :: 0 <= i < j < |t.segments| - 1 ==> t.segments[i] != t.segments[j]
    ensures forall p :: Some(p) in t.segments ==> Shaped(p)
    ensures Neat(Obj(Verify(h, t, key, now).processed), true)
  {
    var dis := VerifiedFrom(h, t, key, now);
    SegmentsDiffer(h, t.segments);
    NeatParts(h, t.segments, dis);
    ProcessedIsBare(dis, t.jws.body.content, START);
    var (out, log) := Process(dis, t.jws.body.content, START).value;
    NeatDrop(out.members, SD_ALG);
    AllShaped(h, t.segments, dis, log);
  }

  /** The Disclosures by digest a token was verified with, and how the processed payload came about. */
  lemma VerifiedFrom(h: Hash, t: Token, key: string, now: real) returns (dis: Map)
    requires Verify(h, t, key, now).Verified?
    ensures Presented(t.segments) == Some(NotEmpty(t.segments)) && ByDigest(h, NotEmpty(t.segments)) == Some(dis)
    ensures MapOf(h, NotEmpty(t.segments), dis)
    ensures t.jws.Jws? && t.jws.body.Part? && t.jws.body.content.Obj? && Accepts(dis, t.jws.body.content)
    ensures Obj(Verify(h, t, key, now).processed) == Obj(Drop(Process(dis, t.jws.body.content, START).value.0.members, SD_ALG))
  {
    SignedBodyIs(t.jws, key);
    dis := ByDigest(h, NotEmpty(t.segments)).value;
    ByDigestMaps(h, NotEmpty(t.segments));
  }

  lemma NeatParts(h: Hash, ss: seq<Option<Part>>, dis: Map)
    requires MapOf(h, NotEmpty(ss), dis) && forall p :: Some(p) in ss && p.Part? ==> Neat(p.content, false)
    ensures NeatMap(dis)
  {
    NotEmptyIs(ss);
  }

  lemma AllShaped(h: Hash, ss: seq<Option<Part>>, dis: Map, log: Log)
    requires MapOf(h, NotEmpty(ss), dis) && UsedShaped(dis, log) && dis.Keys <= set d | d in log.used
    ensures forall p :: Some(p) in ss ==> Shaped(p)
  {
    NotEmptyIs(ss);
    forall p | Some(p) in ss ensures Shaped(p) {
      assert p in NotEmpty(ss) && h(p) in dis && h(p) in log.used;
    }
  }

  lemma {:induction false} NeatDrop(ms: seq<Member>, key: string)
    requires Neat(Obj(ms), true)
    ensures Neat(Obj(Drop(ms, key)), true) && forall k :: k in Names(Drop(ms, key)) ==> k in Names(ms)
    decreases |ms|
  {
    if ms != [] {
      var rest := ms[1..];
      assert Names(ms) == [ms[0].key] + Names(rest);
      assert NoRepeat(Names(rest)) by {
        forall i, j | 0 <= i < j < |rest| ensures Names(rest)[i] != Names(rest)[j] {
          assert Names(ms)[i + 1] != Names(ms)[j + 1];
        }
      }
      NeatDrop(rest, key);
      if ms[0].key != key {
        var kept := Drop(rest, key);
        assert Drop(ms, key) == [ms[0]] + kept && Names([ms[0]] + kept) == [ms[0].key] + Names(kept);
        FirstApart(ms, kept);
      }
    }
  }

  lemma FirstApart(ms: seq<Member>, kept: seq<Member>)
    requires ms != [] && NoRepeat(Names(ms)) && NoRepeat(Names(kept)) && forall k :: k in Names(kept) ==> k in Names(ms[1..])
    ensures NoRepeat([ms[0].key] + Names(kept))
  {
    forall j | 0 <= j < |kept| ensures Names(kept)[j] != ms[0].key {
      assert Names(kept)[j] in Names(ms[1..]);
      var i :| 0 <= i < |ms[1..]| && Names(ms[1..])[i] == Names(kept)[j];
      assert Names(ms)[0] != Names(ms)[i + 1];
    }
  }

  lemma SegmentsDiffer(h: Hash, ss: seq<Option<Part>>)
    requires Presented(ss).Some? && ByDigest(h, Presented(ss).value).Some?
    ensures forall i, j :: 0 <= i < j < |ss| - 1 ==> ss[i] != ss[j]
  {
    var ps := NotEmpty(ss);
    FullSegments(ss[..|ss| - 1]);
    assert ss == ss[..|ss| - 1] + [None];
    NothingBehind(ss[..|ss| - 1]);
    ByDigestDiffer(h, ps);
    forall i, j | 0 <= i < j < |ss| - 1 ensures ss[i] != ss[j] {
      assert ss[i] == ss[..|ss| - 1][i] && ss[j] == ss[..|ss| - 1][j];
    }
  }

  lemma {:induction false} FullSegments(ss: seq<Option<Part>>)
    requires None !in ss
    ensures |NotEmpty(ss)| == |ss| && forall i :: 0 <= i < |ss| ==> ss[i] == Some(NotEmpty(ss)[i])
    decreases |ss|
  {
    if ss != [] {
      assert ss == [ss[0]] + ss[1..] && ss[0] in ss;
      FullSegments(ss[1..]);
    }
  }

  lemma {:induction false} NothingBehind(ss: seq<Option<Part>>)
    ensures NotEmpty(ss + [None]) == NotEmpty(ss)
    decreases |ss|
  {
    if ss == [] {
      assert ss + [None] == [None] && (ss + [None])[1..] == [];
    } else {
      assert (ss + [None])[1..] == ss[1..] + [None];
      NothingBehind(ss[1..]);
    }
  }

  lemma {:induction false} ByDigestDiffer(h: Hash, ps: seq<Part>)
    requires ByDigest(h, ps).Some?
    ensures forall i, j :: 0 <= i < j < |ps| ==> ps[i] != ps[j]
    decreases |ps|
  {
    if ps != [] {
      var n := |ps| - 1;
      ByDigestDiffer(h, ps[..n]);
      ByDigestMaps(h, ps[..n]);
      forall i, j | 0 <= i < j < |ps| ensures ps[i] != ps[j] {
        assert ps[..n][i] == ps[i];
        assert ps[i] in ps[..n];
        assert j < n ==> ps[..n][j] == ps[j];
      }
    }
  }

  /* ---------- what is no digest, and what needs none ---------- */

  /** Every member's value is plain, and none lists digests. */
  ghost predicate PlainMembers(ms: seq<Member>) {
    forall m <- ms :: m.key != "_sd" && NamesOk(m.value)
  }

  lemma {:induction false} PlainMembersProcess(dis: Map, ms: seq<Member>, out: seq<Member>, log: Log)
    requires PlainMembers(ms)
    ensures ProcessMembers(dis, ms, out, log) == Some((out + ms, log)) && Get(ms, "_sd") == None
    decreases |ms|
  {
    if ms == [] {
      assert out + ms == out;
    } else {
      assert ms == [ms[0]] + ms[1..] && ms[0] in ms;
      PlainIsKept(dis, ms[0].value, log);
      PlainMembersProcess(dis, ms[1..], out + [ms[0]], log);
      assert out + [ms[0]] + ms[1..] == out + ms;
    }
  }

  /** An element of an array that names a digest beside something else, or names no string, stands for no digest: it is kept. */
  lemma NoMarkerIsKept(dis: Map, ms: seq<Member>, rest: seq<Json>, res: seq<Json>, log: Log)
    requires PlainMembers(ms)
    requires |ms| != 1 || ms[0].key != "..." || !ms[0].value.Str?
    ensures ProcessItems(dis, [Obj(ms)] + rest, res, log) == ProcessItems(dis, rest, res + [Obj(ms)], log)
  {
    assert ([Obj(ms)] + rest)[1..] == rest;
    PlainObjectProcess(dis, ms, log);
    assert Marker(Obj(ms)) == None;
  }

  lemma PlainObjectProcess(dis: Map, ms: seq<Member>, log: Log)
    requires PlainMembers(ms)
    ensures Process(dis, Obj(ms), log) == Some((Obj(ms), log)) && SdOk(ms) && SdOf(ms) == []
  {
    PlainMembersProcess(dis, ms, [], log);
    assert [] + ms == ms;
    assert SdOf(ms) == [];
    assert ProcessDigests(dis, [], ms, log) == Some((ms, log));
  }

  /**
   A token without Disclosures and digests is verified exactly when it carries its key's
   signature and the one algorithm, is not nested too deep, and holds in time; with or
   without the member that names the digest algorithm, and what is read is its payload.
   */
  lemma PlainTokenVerifies(h: Hash, header: seq<Member>, body: seq<Member>, spelling: string, other: string, sig: Option<Signature>, key: string, now: real)
    requires PlainMembers(body)
    requires Get(body, "_sd_alg") == None || Get(body, "_sd_alg") == Some(Str("sha-256"))
    ensures var head, load := Part(Obj(header), spelling), Part(Obj(body), other);
            var v := Verify(h, Token(Jws(head, load, sig), [None]), key, now);
            && (v.Verified? <==>
                  && sig == Some(Signed(key, head, load)) && Get(header, "alg") == Some(Str("EdDSA"))
                  && Depth(Obj(header)) <= 512 && Depth(Obj(body)) <= 512
                  && (Has(body, "exp") ==> Get(body, "exp").value.Num? && now < Get(body, "exp").value.n)
                  && (Has(body, "nbf") ==> Get(body, "nbf").value.Num? && Get(body, "nbf").value.n <= now))
            && (v.Verified? ==> forall k :: Get(v.processed, k) == if k == "_sd_alg" then None else Get(body, k))
  {
    var head, load := Part(Obj(header), spelling), Part(Obj(body), other);
    var jws := Jws(head, load, sig);
    SignedPlain(jws, header, body, key);
    VerifiedAlone(h, jws, body, key, now);
    PlainJudged(body, now);
    GetDrop(body, SD_ALG, "exp");
    GetDrop(body, SD_ALG, "nbf");
    forall k ensures Get(Drop(body, SD_ALG), k) == if k == "_sd_alg" then None else Get(body, k) {
      GetDrop(body, SD_ALG, k);
    }
  }

  lemma VerifiedAlone(h: Hash, jws: Jws, body: seq<Member>, key: string, now: real)
    requires PlainMembers(body) && (SignedBody(jws, key) == None || SignedBody(jws, key) == Some(body))
    ensures Accepts(map[], Obj(body))
    ensures Verify(h, Token(jws, [None]), key, now) == if SignedBody(jws, key) == None then NotVerified else Judge(map[], body, now)
  {
    NothingPresented(h);
    PlainJudged(body, now);
  }

  lemma NothingPresented(h: Hash)
    ensures Presented([None]) == Some([]) && ByDigest(h, []) == Some(map[])
  {
    var none: seq<Option<Part>> := [None];
    assert none[..0] == [] && none[1..] == [] && NotEmpty(none) == [];
  }

  lemma PlainJudged(body: seq<Member>, now: real)
    requires PlainMembers(body)
    ensures Accepts(map[], Obj(body))
    ensures var v, processed := Judge(map[], body, now), Drop(body, SD_ALG);
            && (v.Verified? <==> InTime(Get(processed, "exp"), Get(processed, "nbf"), now))
            && (v.Verified? ==> v.processed == processed)
  {
    PlainObjectProcess(map[], body, START);
  }

  lemma SignedPlain(jws: Jws, header: seq<Member>, body: seq<Member>, key: string)
    requires jws.Jws? && jws.header.Part? && jws.header.content == Obj(header) && jws.body.Part? && jws.body.content == Obj(body)
    requires Get(body, "_sd_alg") == None || Get(body, "_sd_alg") == Some(Str("sha-256"))
    ensures SignedBody(jws, key) ==
            if jws.sig == Some(Signed(key, jws.header, jws.body)) && Get(header, "alg") == Some(Str("EdDSA"))
               && Depth(Obj(header)) <= 512 && Depth(Obj(body)) <= 512
            then Some(body) else None
  {
  }

  /* ---------- what a holder keeps ---------- */

  /** A segment that has something at place 1: an array of two values or more, or a string of two characters or more. */
  predicate HasPlaceOne(p: Part) {
    && p.Part? && Depth(p.content) <= 512
    && ((p.content.Arr? && 1 < |p.content.items|) || (p.content.Str? && 1 < |p.content.s|))
  }

  /** What stands there is one of the names. */
  predicate NamedBy(p: Part, names: seq<string>)
    requires HasPlaceOne(p)
  {
    if p.content.Arr? then p.content.items[1].Str? && p.content.items[1].s in names
    else [p.content.s[1]] in names
  }

  /** A presentation fails exactly when some segment has nothing at place 1; otherwise it keeps exactly the segments with one of the names there, in their order. */
  lemma {:induction false} HolderKeeps(ps: seq<Part>, names: seq<string>)
    ensures AllNamed(ps) <==> forall p <- ps :: HasPlaceOne(p)
    ensures forall p :: p in KeepNamed(ps, names) <==> p in ps && HasPlaceOne(p) && NamedBy(p, names)
    ensures AllNamed(ps) && ps != [] ==>
              KeepNamed(ps, names) == (if NamedBy(ps[0], names) then [ps[0]] else []) + KeepNamed(ps[1..], names)
  {
    KeptIs(ps, names);
    forall p ensures NameIn(p).Some? <==> HasPlaceOne(p) {
    }
    forall p ensures IsNamed(p, names) <==> HasPlaceOne(p) && NamedBy(p, names) {
      if HasPlaceOne(p) && p.content.Arr? {
        assert NameIn(p) == Some(p.content.items[1]);
      }
    }
    if ps != [] {
      assert ps[0] in ps;
    }
  }

  /* ---------- what an issuer takes ---------- */

  /** A value and all values in it. */
  function Within(j: Json): set<Json>
    decreases j, 1
  {
    {j} + match j
          case Obj(ms) => WithinMembers(ms)
          case Arr(items) => WithinItems(items)
          case _ => {}
  }

  function WithinMembers(ms: seq<Member>): set<Json>
    decreases ms, 0
  {
    if ms == [] then {} else Within(ms[0].value) + WithinMembers(ms[1..])
  }

  function WithinItems(js: seq<Json>): set<Json>
    decreases js, 0
  {
    if js == [] then {} else Within(js[0]) + WithinItems(js[1..])
  }

  /** No member under one of the names the format reserves. */
  ghost predicate FreeNames(ms: seq<Member>) {
    forall m <- ms :: m.key != "_sd" && m.key != "..." && m.key != "_sd_alg"
  }

  ghost predicate FreeWithin(js: set<Json>) {
    forall j <- js :: j.Obj? ==> FreeNames(j.members)
  }

  lemma FreeFirst(ms: seq<Member>)
    requires ms != []
    ensures FreeNames(ms) <==> NameAllowed(ms[0].key) && FreeNames(ms[1..])
  {
    assert ms == [ms[0]] + ms[1..] && ms[0] in ms;
    assert forall m :: m in ms <==> m == ms[0] || m in ms[1..];
  }

  lemma {:induction false} ValueIsFree(j: Json)
    ensures NamesOk(j) <==> FreeWithin(Within(j))
    ensures Finite(j) <==> Infinite !in Within(j)
    decreases j, 1
  {
    match j
    case Obj(ms) =>
      MembersAreFree(ms);
      assert FreeWithin(Within(j)) <==> FreeNames(ms) && FreeWithin(WithinMembers(ms));
    case Arr(items) =>
      ItemsAreFree(items);
      assert FreeWithin(Within(j)) <==> FreeWithin(WithinItems(items));
    case _ =>
  }

  lemma {:induction false} MembersAreFree(ms: seq<Member>)
    ensures MembersNamesOk(ms) <==> FreeNames(ms) && FreeWithin(WithinMembers(ms))
    ensures MembersFinite(ms) <==> Infinite !in WithinMembers(ms)
    decreases ms, 0
  {
    if ms != [] {
      ValueIsFree(ms[0].value);
      MembersAreFree(ms[1..]);
      FreeFirst(ms);
    }
  }

  lemma {:induction false} ItemsAreFree(js: seq<Json>)
    ensures ItemsNamesOk(js) <==> FreeWithin(WithinItems(js))
    ensures ItemsFinite(js) <==> Infinite !in WithinItems(js)
    decreases js, 0
  {
    if js != [] {
      ValueIsFree(js[0]);
      ItemsAreFree(js[1..]);
    }
  }

  /** An issuer takes exactly claims in which no reserved name stands and no number is infinite, at any depth, and no name both plain and selective. */
  lemma IssueTakes(claims: seq<Member>, plain: seq<Member>)
    ensures IssueOk(claims, plain) <==>
            && FreeNames(claims) && FreeNames(plain)
            && FreeWithin(WithinMembers(claims)) && FreeWithin(WithinMembers(plain))
            && Infinite !in WithinMembers(claims) && Infinite !in WithinMembers(plain)
            && forall c, p :: c in claims && p in plain ==> c.key != p.key
  {
    MembersAreFree(claims);
    MembersAreFree(plain);
    forall c | c in claims ensures Has(plain, c.key) <==> exists p :: p in plain && c.key == p.key {
      HasIsNamed(plain, c.key);
      if c.key in Names(plain) {
        var i :| 0 <= i < |plain| && Names(plain)[i] == c.key;
        assert plain[i] in plain;
      }
      if p :| p in plain && c.key == p.key {
        var i :| 0 <= i < |plain| && plain[i] == p;
        assert Names(plain)[i] == c.key;
      }
    }
  }
}
