/**
 Issuing, presenting and verifying an SD-JWT: what a verifier reads off a presentation is
 the plain claims and the chosen ones, and nothing else.

 PresentationVerifies is the round trip: when an issued token, shown with any choice of its
 Disclosures, is accepted, and what is then read off it. HolderAddsNothing turns to a holder
 who puts together Disclosures of any origin in any order: what is accepted is one of those
 choices. The hash is a parameter of which nothing is assumed, so both say what a collision
 would do.
 */
module SdJwt {
  import opened Wrappers
  import opened SdJwtProcess

  /* ---------- tokens ---------- */

  /** A signature is what a key makes of the two signed segments. */
  datatype Signature = Signed(key: string, header: Part, body: Part) | NoSignature

  /** sig is None when its segment is not strict base64url. */
  datatype Jws = Jws(header: Part, body: Part, sig: Option<Signature>) | NotThreeSegments

  /** What stands before the first tilde, and between and behind the others; None is an empty segment. */
  datatype Token = Token(jws: Jws, segments: seq<Option<Part>>)

  type Hash = Part -> string

  const HEADER: Part := Part(Obj([Member("alg", Str("EdDSA")), Member("typ", Str("dc+sd-jwt"))]), "")

  predicate UniqueNames(ms: seq<Member>) {
    forall i, j :: 0 <= i < j < |ms| ==> ms[i].key != ms[j].key
  }

  lemma {:induction false} GetIs(ms: seq<Member>, key: string)
    ensures Get(ms, key).Some? ==> Member(key, Get(ms, key).value) in ms
    ensures Get(ms, key).None? ==> forall m <- ms :: m.key != key
    decreases |ms|
  {
    if ms != [] {
      GetIs(ms[1..], key);
      assert ms == [ms[0]] + ms[1..];
    }
  }

  lemma MemberIsGet(ms: seq<Member>, m: Member)
    requires UniqueNames(ms) && m in ms
    ensures Get(ms, m.key) == Some(m.value)
  {
    GetIs(ms, m.key);
  }

  /** No number too large for a double. */
  predicate Finite(j: Json)
    decreases j, 1
  {
    match j
    case Infinite => false
    case Obj(ms) => MembersFinite(ms)
    case Arr(items) => ItemsFinite(items)
    case _ => true
  }

  predicate MembersFinite(ms: seq<Member>)
    decreases ms, 0
  {
    ms == [] || (Finite(ms[0].value) && MembersFinite(ms[1..]))
  }

  predicate ItemsFinite(js: seq<Json>)
    decreases js, 0
  {
    js == [] || (Finite(js[0]) && ItemsFinite(js[1..]))
  }

  /* ---------- sorting digests ---------- */

  predicate AtMost(a: string, b: string) {
    a == [] || (b != [] && (a[0] < b[0] || (a[0] == b[0] && AtMost(a[1..], b[1..]))))
  }

  function Insert(d: string, ds: seq<string>): seq<string> {
    if ds == [] || AtMost(d, ds[0]) then [d] + ds else [ds[0]] + Insert(d, ds[1..])
  }

  function Sorted(ds: seq<string>): seq<string> {
    if ds == [] then [] else Insert(ds[0], Sorted(ds[1..]))
  }

  lemma {:induction false} InsertKeeps(d: string, ds: seq<string>)
    ensures multiset(Insert(d, ds)) == multiset{d} + multiset(ds)
    decreases |ds|
  {
    if ds != [] && !AtMost(d, ds[0]) {
      InsertKeeps(d, ds[1..]);
      assert ds == [ds[0]] + ds[1..];
    }
  }

  lemma {:induction false} SortedKeeps(ds: seq<string>)
    ensures multiset(Sorted(ds)) == multiset(ds)
    decreases |ds|
  {
    if ds != [] {
      SortedKeeps(ds[1..]);
      InsertKeeps(ds[0], Sorted(ds[1..]));
      assert ds == [ds[0]] + ds[1..];
    }
  }

  predicate InOrder(ds: seq<string>) {
    forall i, j :: 0 <= i < j < |ds| ==> AtMost(ds[i], ds[j])
  }

  lemma {:induction false} AtMostTotal(a: string, b: string)
    ensures AtMost(a, b) || AtMost(b, a)
    ensures AtMost(a, b) && AtMost(b, a) ==> a == b
    decreases |a|
  {
    if a != [] && b != [] && a[0] == b[0] {
      AtMostTotal(a[1..], b[1..]);
      assert a == [a[0]] + a[1..] && b == [b[0]] + b[1..];
    }
  }

  lemma {:induction false} AtMostTransitive(a: string, b: string, c: string)
    requires AtMost(a, b) && AtMost(b, c)
    ensures AtMost(a, c)
    decreases |a|
  {
    if a != [] && a[0] == b[0] == c[0] {
      AtMostTransitive(a[1..], b[1..], c[1..]);
    }
  }

  lemma {:induction false} InsertOrders(d: string, ds: seq<string>)
    requires InOrder(ds)
    ensures InOrder(Insert(d, ds))
    decreases |ds|
  {
    if ds == [] {
    } else if AtMost(d, ds[0]) {
      forall j | 0 <= j < |ds| ensures AtMost(d, ds[j]) {
        if 0 < j {
          AtMostTransitive(d, ds[0], ds[j]);
        }
      }
    } else {
      var rest := Insert(d, ds[1..]);
      AtMostTotal(d, ds[0]);
      InsertOrders(d, ds[1..]);
      InsertKeeps(d, ds[1..]);
      forall j | 0 <= j < |rest| ensures AtMost(ds[0], rest[j]) {
        assert rest[j] in multiset(rest);
        if rest[j] != d {
          assert rest[j] in ds[1..];
        }
      }
    }
  }

  lemma {:induction false} SortedInOrder(ds: seq<string>)
    ensures InOrder(Sorted(ds))
    decreases |ds|
  {
    if ds != [] {
      SortedInOrder(ds[1..]);
      InsertOrders(ds[0], Sorted(ds[1..]));
    }
  }

  lemma LeastIsFirst(a: seq<string>, b: seq<string>)
    requires InOrder(a) && InOrder(b) && multiset(a) == multiset(b) && a != []
    ensures b != [] && a[0] == b[0] && multiset(a[1..]) == multiset(b[1..])
  {
    assert a[0] in multiset(a) && (b != [] ==> b[0] in multiset(b));
    FirstIsLeast(a, b[0]);
    FirstIsLeast(b, a[0]);
    AtMostTotal(a[0], b[0]);
    FirstTaken(a);
    FirstTaken(b);
  }

  lemma FirstIsLeast(a: seq<string>, d: string)
    requires InOrder(a) && d in a
    ensures AtMost(a[0], d)
  {
    var i :| 0 <= i < |a| && a[i] == d;
    AtMostTotal(d, d);
  }

  lemma FirstTaken(a: seq<string>)
    requires a != []
    ensures multiset(a[1..]) == multiset(a) - multiset{a[0]}
  {
    assert a == [a[0]] + a[1..];
  }

  lemma {:induction false} OneOrder(a: seq<string>, b: seq<string>)
    requires InOrder(a) && InOrder(b) && multiset(a) == multiset(b)
    ensures a == b
    decreases |a|
  {
    if a == [] {
      assert |b| == |multiset(b)|;
    } else {
      LeastIsFirst(a, b);
      OneOrder(a[1..], b[1..]);
      assert a == [a[0]] + a[1..] && b == [b[0]] + b[1..];
    }
  }

  /** The sorted list is in order, holds what was given, and tells nothing of the order it was given in. */
  lemma SortedHidesOrder(a: seq<string>, b: seq<string>)
    ensures InOrder(Sorted(a)) && multiset(Sorted(a)) == multiset(a)
    ensures Sorted(a) == Sorted(b) <==> multiset(a) == multiset(b)
  {
    SortedInOrder(a);
    SortedInOrder(b);
    SortedKeeps(a);
    SortedKeeps(b);
    if multiset(a) == multiset(b) {
      OneOrder(Sorted(a), Sorted(b));
    }
  }

  /* ---------- issuing ---------- */

  /** The claims an issuer may be given: names that are allowed, finite numbers, and no claim both plain and selective. */
  predicate IssueOk(claims: seq<Member>, plain: seq<Member>) {
    && MembersNamesOk(plain) && MembersNamesOk(claims)
    && MembersFinite(plain) && MembersFinite(claims)
    && forall c <- claims :: !Has(plain, c.key)
  }

  function DisclosureOf(salt: string, claim: Member): Part {
    Part(Arr([Str(salt), Str(claim.key), claim.value]), "")
  }

  function Disclosures(claims: seq<Member>, salts: seq<string>): (ps: seq<Part>)
    requires |claims| == |salts|
    ensures |ps| == |claims| && forall i :: 0 <= i < |ps| ==> ps[i] == DisclosureOf(salts[i], claims[i])
  {
    seq(|claims|, i requires 0 <= i < |claims| => DisclosureOf(salts[i], claims[i]))
  }

  function Digests(h: Hash, ps: seq<Part>): (ds: seq<string>)
    ensures |ds| == |ps| && forall i :: 0 <= i < |ds| ==> ds[i] == h(ps[i])
  {
    seq(|ps|, i requires 0 <= i < |ps| => h(ps[i]))
  }

  function AsStrings(ds: seq<string>): (js: seq<Json>)
    ensures |js| == |ds| && forall i :: 0 <= i < |js| ==> js[i] == Str(ds[i])
  {
    seq(|ds|, i requires 0 <= i < |ds| => Str(ds[i]))
  }

  function BodyOf(plain: seq<Member>, ds: seq<string>): seq<Member> {
    plain + [Member(SD, Arr(AsStrings(Sorted(ds)))), Member(SD_ALG, Str("sha-256"))]
  }

  function Segments(ps: seq<Part>): (ss: seq<Option<Part>>)
    ensures |ss| == |ps| + 1 && ss[|ps|] == None && forall i :: 0 <= i < |ps| ==> ss[i] == Some(ps[i])
  {
    seq(|ps|, i requires 0 <= i < |ps| => Some(ps[i])) + [None]
  }

  /** The token an issuer makes. */
  function Issued(h: Hash, claims: seq<Member>, salts: seq<string>, plain: seq<Member>, key: string): Token
    requires |claims| == |salts|
  {
    var ps := Disclosures(claims, salts);
    var body := Part(Obj(BodyOf(plain, Digests(h, ps))), "");
    Token(Jws(HEADER, body, Some(Signed(key, HEADER, body))), Segments(ps))
  }

  predicate ClaimOk(c: Member, plain: seq<Member>) {
    NamesOk(c.value) && NameAllowed(c.key) && !Has(plain, c.key)
  }

  lemma {:induction false} ClaimsOkEach(claims: seq<Member>, plain: seq<Member>)
    ensures MembersNamesOk(claims) && (forall c <- claims :: !Has(plain, c.key)) <==> forall c <- claims :: ClaimOk(c, plain)
    decreases |claims|
  {
    if claims != [] {
      ClaimsOkEach(claims[1..], plain);
      assert claims == [claims[0]] + claims[1..];
      assert claims[0] in claims && forall c :: c in claims <==> c == claims[0] || c in claims[1..];
    }
  }

  method ClaimsOk(claims: seq<Member>, plain: seq<Member>) returns (ok: bool)
    ensures ok <==> forall c <- claims :: ClaimOk(c, plain)
  {
    for k := 0 to |claims|
      invariant forall j :: 0 <= j < k ==> ClaimOk(claims[j], plain)
    {
      if !ClaimOk(claims[k], plain) {
        return false;
      }
    }
    return true;
  }

  method MakeDisclosures(h: Hash, claims: seq<Member>, salts: seq<string>) returns (disclosures: seq<Part>, digests: seq<string>)
    requires |claims| == |salts|
    ensures disclosures == Disclosures(claims, salts) && digests == Digests(h, disclosures)
  {
    disclosures, digests := [], [];
    for k := 0 to |claims|
      invariant |disclosures| == |digests| == k
      invariant forall j :: 0 <= j < k ==> disclosures[j] == DisclosureOf(salts[j], claims[j]) && digests[j] == h(disclosures[j])
    {
      var d := DisclosureOf(salts[k], claims[k]);
      disclosures := disclosures + [d];
      digests := digests + [h(d)];
    }
  }

  lemma DigestsJoin(h: Hash, ps: seq<Part>, qs: seq<Part>)
    ensures Digests(h, ps + qs) == Digests(h, ps) + Digests(h, qs)
  {
  }

  lemma DigestsTakeOut(h: Hash, a: seq<Part>, p: Part, b: seq<Part>)
    ensures multiset(Digests(h, a + ([p] + b))) == multiset{h(p)} + multiset(Digests(h, a + b))
  {
    DigestsJoin(h, a, [p] + b);
    DigestsJoin(h, [p], b);
    DigestsJoin(h, a, b);
    assert Digests(h, [p]) == [h(p)];
  }

  lemma TakeOut(a: seq<Part>, p: Part, b: seq<Part>)
    ensures multiset(a + b) == multiset(a + ([p] + b)) - multiset{p}
  {
  }

  /** A sequence that holds an element, without it. */
  lemma WithoutOne(h: Hash, qs: seq<Part>, p: Part) returns (rest: seq<Part>)
    requires p in qs
    ensures multiset(rest) == multiset(qs) - multiset{p}
    ensures multiset(Digests(h, qs)) == multiset{h(p)} + multiset(Digests(h, rest))
  {
    var i :| 0 <= i < |qs| && qs[i] == p;
    var a, b := qs[..i], qs[i + 1..];
    assert qs == a + ([p] + b);
    TakeOut(a, p, b);
    DigestsTakeOut(h, a, p, b);
    rest := a + b;
  }

  lemma FirstOut(h: Hash, p: Part, rest: seq<Part>)
    ensures multiset(rest) == multiset([p] + rest) - multiset{p}
    ensures multiset(Digests(h, [p] + rest)) == multiset{h(p)} + multiset(Digests(h, rest))
  {
    assert [] + ([p] + rest) == [p] + rest && [] + rest == rest;
    DigestsTakeOut(h, [], p, rest);
  }

  lemma {:induction false} DigestsOfSame(h: Hash, ps: seq<Part>, qs: seq<Part>)
    requires multiset(ps) == multiset(qs)
    ensures multiset(Digests(h, ps)) == multiset(Digests(h, qs))
    decreases |ps|
  {
    if ps == [] {
      assert |qs| == |multiset(qs)|;
    } else {
      var p, rest := ps[0], ps[1..];
      assert ps == [p] + rest;
      assert p in multiset(qs);
      var others := WithoutOne(h, qs, p);
      FirstOut(h, p, rest);
      DigestsOfSame(h, rest, others);
    }
  }

  /** The signed part does not depend on the order in which the claims were given. */
  lemma IssuedHidesOrder(h: Hash, claims: seq<Member>, salts: seq<string>, other: seq<Member>, others: seq<string>, plain: seq<Member>, key: string)
    requires |claims| == |salts| && |other| == |others|
    requires multiset(Disclosures(claims, salts)) == multiset(Disclosures(other, others))
    ensures Issued(h, claims, salts, plain, key).jws == Issued(h, other, others, plain, key).jws
  {
    var ps, qs := Disclosures(claims, salts), Disclosures(other, others);
    DigestsOfSame(h, ps, qs);
    SortedHidesOrder(Digests(h, ps), Digests(h, qs));
  }

  method Issue(h: Hash, claims: seq<Member>, salts: seq<string>, plain: seq<Member>, key: string) returns (t: Option<Token>)
    requires |claims| == |salts|
    ensures t == if IssueOk(claims, plain) then Some(Issued(h, claims, salts, plain, key)) else None
  {
    var ok := ClaimsOk(claims, plain);
    ClaimsOkEach(claims, plain);
    if !MembersNamesOk(plain) || !ok || !MembersFinite(claims) || !MembersFinite(plain) {
      return None;
    }
    var disclosures, digests := MakeDisclosures(h, claims, salts);
    var body := Part(Obj(BodyOf(plain, digests)), "");
    return Some(Token(Jws(HEADER, body, Some(Signed(key, HEADER, body))), Segments(disclosures)));
  }

  /* ---------- presenting ---------- */

  /** What stands at index 1 of a Disclosure's content, if anything does. */
  function NameIn(p: Part): Option<Json> {
    match Load(p)
    case Some(Arr(items)) => if 1 < |items| then Some(items[1]) else None
    case Some(Str(s)) => if 1 < |s| then Some(Str([s[1]])) else None
    case _ => None
  }

  predicate IsNamed(p: Part, names: seq<string>) {
    match NameIn(p)
    case Some(Str(s)) => s in names
    case _ => false
  }

  /** The segments that hold something. */
  function NotEmpty(ss: seq<Option<Part>>): seq<Part> {
    if ss == [] then []
    else (if ss[0].Some? then [ss[0].value] else []) + NotEmpty(ss[1..])
  }

  function KeepNamed(ps: seq<Part>, names: seq<string>): seq<Part> {
    if ps == [] then []
    else (if IsNamed(ps[0], names) then [ps[0]] else []) + KeepNamed(ps[1..], names)
  }

  predicate AllNamed(ps: seq<Part>) {
    forall p <- ps :: NameIn(p).Some?
  }

  lemma KeepOneMore(keep: seq<Part>, p: Part, rest: seq<Part>, names: seq<string>)
    ensures keep + KeepNamed([p] + rest, names) == (if IsNamed(p, names) then keep + [p] else keep) + KeepNamed(rest, names)
  {
    assert ([p] + rest)[1..] == rest;
  }

  /** Whether one Disclosure is kept; None when it cannot be read. */
  method ReadOne(p: Part, names: seq<string>) returns (keep: Option<bool>)
    ensures keep == if NameIn(p).Some? then Some(IsNamed(p, names)) else None
  {
    var name := NameIn(p);
    if name == None {
      return None;
    }
    return Some(name.value.Str? && name.value.s in names);
  }

  /** The Disclosures of the named claims, in their order; one that cannot be read fails them all. */
  method KeepDisclosures(ps: seq<Part>, names: seq<string>) returns (kept: Option<seq<Part>>)
    ensures kept.Some? <==> AllNamed(ps)
    ensures kept.Some? ==> kept.value == KeepNamed(ps, names)
  {
    var keep: seq<Part> := [];
    for k := 0 to |ps|
      invariant AllNamed(ps[..k])
      invariant keep + KeepNamed(ps[k..], names) == KeepNamed(ps, names)
    {
      var keepIt := ReadOne(ps[k], names);
      NamedOneMore(ps, k);
      if keepIt == None {
        return None;
      }
      assert ps[k..] == [ps[k]] + ps[k + 1..];
      KeepOneMore(keep, ps[k], ps[k + 1..], names);
      if keepIt.value {
        keep := keep + [ps[k]];
      }
    }
    assert ps[..|ps|] == ps && keep + [] == keep;
    return Some(keep);
  }

  lemma NamedOneMore(ps: seq<Part>, k: nat)
    requires k < |ps| && AllNamed(ps[..k])
    ensures AllNamed(ps[..k + 1]) <==> NameIn(ps[k]).Some?
    ensures AllNamed(ps) ==> NameIn(ps[k]).Some?
  {
    assert ps[..k + 1] == ps[..k] + [ps[k]] && ps[k] in ps[..k + 1] && ps[k] in ps;
  }

  /** Keep the Disclosures of the named claims; the signed part stays as it is. */
  method Present(t: Token, names: seq<string>) returns (r: Option<Token>)
    ensures r == if AllNamed(NotEmpty(t.segments)) then Some(Token(t.jws, Segments(KeepNamed(NotEmpty(t.segments), names)))) else None
  {
    var kept := KeepDisclosures(NotEmpty(t.segments), names);
    return if kept == None then None else Some(Token(t.jws, Segments(kept.value)));
  }

  /* ---------- verifying ---------- */

  datatype Verdict =
    | NotVerified
    | Verified(plain: seq<Member>, disclosed: seq<Member>, undisclosed: set<string>, processed: seq<Member>)

  /** The Disclosures presented, by digest, when no digest stands for two. */
  function ByDigest(h: Hash, ps: seq<Part>): Option<Map> {
    if ps == [] then Some(map[])
    else
      match ByDigest(h, ps[..|ps| - 1])
      case None => None
      case Some(dis) =>
        var p := ps[|ps| - 1];
        if h(p) in dis then None else Some(dis[h(p) := p])
  }

  function Drop(ms: seq<Member>, key: string): seq<Member> {
    if ms == [] then []
    else if ms[0].key == key then Drop(ms[1..], key)
    else [ms[0]] + Drop(ms[1..], key)
  }

  function DropAll(ms: seq<Member>, keys: seq<Member>): seq<Member> {
    if ms == [] then []
    else if Has(keys, ms[0].key) then DropAll(ms[1..], keys)
    else [ms[0]] + DropAll(ms[1..], keys)
  }

  /** The time limits, where given: finite numbers, not yet expired, already valid. */
  predicate InTime(exp: Option<Json>, nbf: Option<Json>, now: real) {
    && (exp.Some? ==> exp.value.Num? && now < exp.value.n)
    && (nbf.Some? ==> nbf.value.Num? && nbf.value.n <= now)
  }

  predicate TimesOk(ms: seq<Member>, now: real) {
    InTime(Get(ms, "exp"), Get(ms, "nbf"), now)
  }

  /** The segments between the first and the last tilde, when the token ends in a tilde and none of them is empty. */
  function Presented(ss: seq<Option<Part>>): Option<seq<Part>> {
    if ss == [] || ss[|ss| - 1] != None || None in ss[..|ss| - 1] then None
    else Some(NotEmpty(ss))
  }

  /** The signed payload, when header, signature and digest algorithm are as they must be. */
  function SignedBody(jws: Jws, key: string): Option<seq<Member>> {
    if jws.NotThreeSegments? then None
    else
      match (Load(jws.header), Load(jws.body))
      case (Some(Obj(header)), Some(Obj(body))) =>
        if Get(header, "alg") != Some(Str("EdDSA")) then None
        else if jws.sig != Some(Signed(key, jws.header, jws.body)) then None
        else if Has(body, SD_ALG) && Get(body, SD_ALG) != Some(Str("sha-256")) then None
        else Some(body)
      case _ => None
  }

  /** The whole verification. */
  function Verify(h: Hash, t: Token, key: string, now: real): Verdict {
    match (Presented(t.segments), SignedBody(t.jws, key))
    case (Some(ps), Some(body)) =>
      (match ByDigest(h, ps)
       case None => NotVerified
       case Some(dis) =>
         if !Accepts(dis, Obj(body)) then NotVerified
         else Judge(dis, body, now))
    case _ => NotVerified
  }

  function Judge(dis: Map, body: seq<Member>, now: real): Verdict
    requires Accepts(dis, Obj(body))
  {
    var (out, log) := Process(dis, Obj(body), START).value;
    var processed := Drop(out.members, SD_ALG);
    if !TimesOk(processed, now) then NotVerified
    else Verified(Drop(Drop(body, SD), SD_ALG), DropAll(processed, body),
                  (set d | d in SdOf(body)) - (set d | d in log.used), processed)
  }

  lemma {:induction false} ClashStays(h: Hash, ps: seq<Part>, k: nat)
    requires k <= |ps| && ByDigest(h, ps[..k]) == None
    ensures ByDigest(h, ps) == None
    decreases |ps| - k
  {
    if k == |ps| {
      assert ps[..k] == ps;
    } else {
      assert ps[..k + 1][..k] == ps[..k];
      ClashStays(h, ps, k + 1);
    }
  }

  method CollectByDigest(h: Hash, ps: seq<Part>) returns (dis: Option<Map>)
    ensures dis == ByDigest(h, ps)
  {
    var found: Map := map[];
    for k := 0 to |ps|
      invariant ByDigest(h, ps[..k]) == Some(found)
    {
      assert ps[..k + 1][..k] == ps[..k];
      var d := h(ps[k]);
      if d in found {
        ClashStays(h, ps, k + 1);
        return None;
      }
      found := found[d := ps[k]];
    }
    assert ps[..|ps|] == ps;
    return Some(found);
  }

  /** The verification, with the digests met and used kept in sets. */
  method VerifyToken(h: Hash, t: Token, key: string, now: real) returns (v: Verdict)
    ensures v == Verify(h, t, key, now)
    ensures v.Verified? ==> t.jws.Jws? && t.jws.sig == Some(Signed(key, t.jws.header, t.jws.body))
  {
    var ps, body := Presented(t.segments), SignedBody(t.jws, key);
    if ps == None || body == None {
      return NotVerified;
    }
    var dis := CollectByDigest(h, ps.value);
    if dis == None {
      return NotVerified;
    }
    var p := new Processor(dis.value);
    var out := p.ProcessNode(Obj(body.value));
    if out == None {
      return NotVerified;
    }
    if !(dis.value.Keys <= p.used) {
      return NotVerified;
    }
    assert Accepts(dis.value, Obj(body.value));
    var processed := Drop(out.value.members, SD_ALG);
    if !TimesOk(processed, now) {
      return NotVerified;
    }
    return Verified(Drop(Drop(body.value, SD), SD_ALG), DropAll(processed, body.value),
                    (set d | d in SdOf(body.value)) - p.used, processed);
  }

  /* ---------- what a presentation tells ---------- */

  /** The claim under a name that a presentation shows. */
  function Shown(claims: seq<Member>, plain: seq<Member>, names: seq<string>, key: string): Option<Json> {
    if Has(plain, key) then Get(plain, key)
    else if key in names then Get(claims, key)
    else None
  }

  lemma {:induction false} NotEmptySegments(ps: seq<Part>)
    ensures NotEmpty(Segments(ps)) == ps
    decreases |ps|
  {
    if ps != [] {
      NotEmptySegments(ps[1..]);
      assert Segments(ps)[1..] == Segments(ps[1..]);
      assert ps == [ps[0]] + ps[1..];
    } else {
      assert Segments(ps)[1..] == [];
    }
  }

  lemma DisclosureDepth(salt: string, claim: Member)
    ensures Load(DisclosureOf(salt, claim)) == if Depth(claim.value) < MAX_DEPTH then Some(DisclosureOf(salt, claim).content) else None
  {
    var last: seq<Json> := [claim.value];
    assert last == [claim.value] + [] && DisclosureOf(salt, claim).content.items == [Str(salt)] + ([Str(claim.key)] + last);
    FirstDepth(claim.value, []);
    FirstDepth(Str(claim.key), last);
    FirstDepth(Str(salt), [Str(claim.key)] + last);
  }

  lemma FirstDepth(j: Json, rest: seq<Json>)
    ensures ItemsDepth([j] + rest) == Max(Depth(j), ItemsDepth(rest))
  {
    assert ([j] + rest)[1..] == rest;
  }

  /** A holder can present an issued token exactly when no claim is nested too deep to be read back. */
  lemma IssuedIsPresented(h: Hash, claims: seq<Member>, salts: seq<string>, plain: seq<Member>, key: string)
    requires |claims| == |salts|
    ensures var ps := Disclosures(claims, salts);
            && NotEmpty(Issued(h, claims, salts, plain, key).segments) == ps
            && (AllNamed(ps) <==> forall c <- claims :: Depth(c.value) < MAX_DEPTH)
  {
    var ps := Disclosures(claims, salts);
    NotEmptySegments(ps);
    forall i | 0 <= i < |claims|
      ensures NameIn(ps[i]).Some? <==> Depth(claims[i].value) < MAX_DEPTH
    {
      DisclosureDepth(salts[i], claims[i]);
    }
    if AllNamed(ps) {
      forall c | c in claims ensures Depth(c.value) < MAX_DEPTH {
        var i :| 0 <= i < |claims| && claims[i] == c;
        assert ps[i] in ps;
      }
    }
  }

  lemma {:induction false} KeptIs(ps: seq<Part>, names: seq<string>)
    ensures forall p :: p in KeepNamed(ps, names) <==> p in ps && IsNamed(p, names)
    decreases |ps|
  {
    if ps != [] {
      KeptIs(ps[1..], names);
      assert ps == [ps[0]] + ps[1..];
    }
  }

  /* ---------- processing an issued payload ---------- */

  /** A Disclosure as an issuer makes it. */
  predicate IsClaim(p: Part) {
    && Load(p).Some? && p.content.Arr? && |p.content.items| == 3
    && p.content.items[0].Str? && p.content.items[1].Str?
    && NameAllowed(p.content.items[1].s) && NamesOk(p.content.items[2])
  }

  function ClaimIn(p: Part): Member
    requires IsClaim(p)
  {
    Member(p.content.items[1].s, p.content.items[2])
  }

  /** Claims only, under names of their own. */
  ghost predicate AllClaims(dis: Map) {
    && (forall d <- dis :: IsClaim(dis[d]))
    && (forall d, e :: d in dis && e in dis && d != e ==> ClaimIn(dis[d]).key != ClaimIn(dis[e]).key)
  }

  /** The claims a series of digests adds. */
  ghost function Picks(dis: Map, ds: seq<string>): seq<Member>
    requires AllClaims(dis)
  {
    if ds == [] then []
    else (if ds[0] in dis then [ClaimIn(dis[ds[0]])] else []) + Picks(dis, ds[1..])
  }

  ghost function Known(dis: Map, ds: seq<string>): seq<string> {
    if ds == [] then []
    else (if ds[0] in dis then [ds[0]] else []) + Known(dis, ds[1..])
  }

  lemma {:induction false} KnownIs(dis: Map, ds: seq<string>)
    ensures forall d :: d in Known(dis, ds) <==> d in ds && d in dis
    decreases |ds|
  {
    if ds != [] {
      KnownIs(dis, ds[1..]);
      assert ds == [ds[0]] + ds[1..];
    }
  }

  lemma {:induction false} PicksIs(dis: Map, ds: seq<string>, m: Member)
    requires AllClaims(dis)
    ensures m in Picks(dis, ds) <==> exists d :: d in ds && d in dis && ClaimIn(dis[d]) == m
    decreases |ds|
  {
    if ds != [] {
      PicksIs(dis, ds[1..], m);
      assert ds == [ds[0]] + ds[1..];
    }
  }

  lemma {:induction false} GetJoin(a: seq<Member>, b: seq<Member>, key: string)
    ensures Get(a + b, key) == if Has(a, key) then Get(a, key) else Get(b, key)
    decreases |a|
  {
    if a == [] {
      assert a + b == b;
    } else {
      assert (a + b)[1..] == a[1..] + b;
      GetJoin(a[1..], b, key);
    }
  }

  /** Digests of claims are each replaced by their claim, and the unknown ones passed over. */
  lemma {:induction false} DigestsPick(dis: Map, ds: seq<string>, out: seq<Member>, log: Log)
    requires AllClaims(dis) && NoRepeat(ds) && forall d <- ds :: d !in log.met
    requires forall d :: d in ds && d in dis ==> !Has(out, ClaimIn(dis[d]).key)
    ensures ProcessDigests(dis, ds, out, log) == Some((out + Picks(dis, ds), Log(log.met + ds, log.used + Known(dis, ds))))
    decreases |ds|
  {
    if ds == [] {
      assert out + [] == out && log.met + [] == log.met && log.used + [] == log.used;
    } else {
      var d, rest := ds[0], ds[1..];
      var met := log.met + [d];
      assert met + rest == log.met + ds;
      assert d !in rest;
      if d in dis {
        var c := ClaimIn(dis[d]);
        PickStep(dis, ds, out, log);
        StillNew(dis, rest, out, d);
        DigestsPick(dis, rest, out + [c], Log(met, log.used + [d]));
        PickOne(out, c, Picks(dis, rest), log.used, d, Known(dis, rest));
      } else {
        DigestsPick(dis, rest, out, Log(met, log.used));
        assert [] + Picks(dis, rest) == Picks(dis, rest) && [] + Known(dis, rest) == Known(dis, rest);
      }
    }
  }

  /** A digest of a claim adds the claim. */
  lemma PickStep(dis: Map, ds: seq<string>, out: seq<Member>, log: Log)
    requires AllClaims(dis) && ds != [] && ds[0] in dis && ds[0] !in log.met && !Has(out, ClaimIn(dis[ds[0]]).key)
    ensures ProcessDigests(dis, ds, out, log) ==
            ProcessDigests(dis, ds[1..], out + [ClaimIn(dis[ds[0]])], Log(log.met + [ds[0]], log.used + [ds[0]]))
  {
    PlainIsKept(dis, ClaimIn(dis[ds[0]]).value, Log(log.met + [ds[0]], log.used + [ds[0]]));
  }

  lemma StillNew(dis: Map, rest: seq<string>, out: seq<Member>, d: string)
    requires AllClaims(dis) && d in dis && d !in rest
    requires forall e :: e in rest && e in dis ==> !Has(out, ClaimIn(dis[e]).key)
    ensures forall e :: e in rest && e in dis ==> !Has(out + [ClaimIn(dis[d])], ClaimIn(dis[e]).key)
  {
    forall e | e in rest && e in dis ensures !Has(out + [ClaimIn(dis[d])], ClaimIn(dis[e]).key) {
      GetJoin(out, [ClaimIn(dis[d])], ClaimIn(dis[e]).key);
    }
  }

  lemma PickOne(out: seq<Member>, c: Member, more: seq<Member>, used: seq<string>, d: string, rest: seq<string>)
    ensures out + [c] + more == out + ([c] + more) && used + [d] + rest == used + ([d] + rest)
  {
  }

  lemma {:induction false} MembersAfterPlain(dis: Map, plain: seq<Member>, rest: seq<Member>, out: seq<Member>, log: Log)
    requires MembersNamesOk(plain)
    ensures ProcessMembers(dis, plain + rest, out, log) == ProcessMembers(dis, rest, out + plain, log)
    decreases |plain|
  {
    if plain == [] {
      assert plain + rest == rest && out + plain == out;
    } else {
      assert (plain + rest)[1..] == plain[1..] + rest;
      PlainIsKept(dis, plain[0].value, log);
      MembersAfterPlain(dis, plain[1..], rest, out + [plain[0]], log);
      assert out + [plain[0]] + plain[1..] == out + plain;
    }
  }

  const ALG_MEMBER: Member := Member(SD_ALG, Str("sha-256"))

  lemma BodyMembers(dis: Map, plain: seq<Member>, ds: seq<string>, log: Log)
    requires MembersNamesOk(plain)
    ensures ProcessMembers(dis, BodyOf(plain, ds), [], log) == Some((plain + [ALG_MEMBER], log))
  {
    var sd, alg := Member(SD, Arr(AsStrings(Sorted(ds)))), ALG_MEMBER;
    var rest := [sd, alg];
    MembersAfterPlain(dis, plain, rest, [], log);
    assert [] + plain == plain && rest == [sd] + ([alg] + []);
    assert SD != SD_ALG by {
      assert |SD| == 3 && |SD_ALG| == 7;
    }
    MembersStep(dis, sd, [alg] + [], plain, log);
    MembersStep(dis, alg, [], plain, log);
  }

  lemma MembersStep(dis: Map, m: Member, rest: seq<Member>, out: seq<Member>, log: Log)
    ensures m.key == SD ==> ProcessMembers(dis, [m] + rest, out, log) == ProcessMembers(dis, rest, out, log)
    ensures m.key != SD && m.value.Str? ==> ProcessMembers(dis, [m] + rest, out, log) == ProcessMembers(dis, rest, out + [m], log)
  {
    assert ([m] + rest)[1..] == rest;
  }

  lemma BodyGet(plain: seq<Member>, ds: seq<string>)
    requires MembersNamesOk(plain)
    ensures var body := BodyOf(plain, ds);
            && SdOk(body) && SdOf(body) == Sorted(ds)
            && Get(body, SD_ALG) == Some(Str("sha-256"))
  {
    var sd := Member(SD, Arr(AsStrings(Sorted(ds))));
    var rest := [sd, ALG_MEMBER];
    assert |SD| == 3 && |SD_ALG| == 7;
    NotReserved(plain, SD);
    NotReserved(plain, SD_ALG);
    GetJoin(plain, rest, SD);
    GetJoin(plain, rest, SD_ALG);
    assert rest[1..] == [ALG_MEMBER];
    assert Strings(AsStrings(Sorted(ds))) == Sorted(ds);
  }

  lemma ObjectProcessed(dis: Map, ms: seq<Member>, out: seq<Member>, all: seq<Member>, log: Log, next: Log, end: Log)
    requires SdOk(ms) && ProcessMembers(dis, ms, [], log) == Some((out, next))
    requires ProcessDigests(dis, SdOf(ms), out, next) == Some((all, end))
    ensures Process(dis, Obj(ms), log) == Some((Obj(all), end))
  {
  }

  /** An issued payload is processed to its plain claims and the claims whose Disclosures are there. */
  lemma IssuedIsProcessed(dis: Map, plain: seq<Member>, ds: seq<string>)
    requires MembersNamesOk(plain) && AllClaims(dis) && NoRepeat(Sorted(ds))
    requires forall d :: d in Sorted(ds) && d in dis ==> !Has(plain, ClaimIn(dis[d]).key)
    ensures Process(dis, Obj(BodyOf(plain, ds)), START) ==
            Some((Obj(plain + [ALG_MEMBER] + Picks(dis, Sorted(ds))), Log(Sorted(ds), Known(dis, Sorted(ds)))))
  {
    var s, out := Sorted(ds), plain + [ALG_MEMBER];
    BodyGet(plain, ds);
    BodyMembers(dis, plain, ds, START);
    SdPicked(dis, plain, s);
    ObjectProcessed(dis, BodyOf(plain, ds), out, out + Picks(dis, s), START, START, Log(s, Known(dis, s)));
  }

  lemma SdPicked(dis: Map, plain: seq<Member>, s: seq<string>)
    requires AllClaims(dis) && NoRepeat(s)
    requires forall d :: d in s && d in dis ==> !Has(plain, ClaimIn(dis[d]).key)
    ensures ProcessDigests(dis, s, plain + [ALG_MEMBER], START) ==
            Some((plain + [ALG_MEMBER] + Picks(dis, s), Log(s, Known(dis, s))))
  {
    var out := plain + [ALG_MEMBER];
    forall d | d in s && d in dis ensures !Has(out, ClaimIn(dis[d]).key) {
      GetJoin(plain, [ALG_MEMBER], ClaimIn(dis[d]).key);
    }
    DigestsPick(dis, s, out, START);
    assert [] + s == s && [] + Known(dis, s) == Known(dis, s);
  }

  /* ---------- the Disclosures a holder keeps ---------- */

  /** The map takes exactly the digests of these segments to them. */
  ghost predicate MapOf(h: Hash, ps: seq<Part>, dis: Map) {
    && (forall p <- ps :: h(p) in dis && dis[h(p)] == p)
    && (forall d <- dis :: exists p :: p in ps && h(p) == d)
  }

  lemma MapGrows(h: Hash, front: seq<Part>, p: Part, dis: Map)
    requires MapOf(h, front, dis) && h(p) !in dis
    ensures MapOf(h, front + [p], dis[h(p) := p])
  {
    var all, more := front + [p], dis[h(p) := p];
    assert p in all && forall q :: q in front ==> q in all;
    forall d | d in more ensures exists q :: q in all && h(q) == d {
      if d != h(p) {
        var q :| q in front && h(q) == d;
        assert q in all;
      }
    }
  }

  lemma {:induction false} ByDigestIs(h: Hash, ps: seq<Part>)
    requires NoRepeat(Digests(h, ps))
    ensures ByDigest(h, ps).Some? && MapOf(h, ps, ByDigest(h, ps).value)
    decreases |ps|
  {
    if ps != [] {
      var front, p := ps[..|ps| - 1], ps[|ps| - 1];
      assert ps == front + [p];
      FrontNoRepeat(h, front, p);
      ByDigestIs(h, front);
      NotYetThere(h, front, p, ByDigest(h, front).value);
      MapGrows(h, front, p, ByDigest(h, front).value);
    }
  }

  lemma FrontNoRepeat(h: Hash, front: seq<Part>, p: Part)
    requires NoRepeat(Digests(h, front + [p]))
    ensures NoRepeat(Digests(h, front))
  {
    var ds, all := Digests(h, front), Digests(h, front + [p]);
    forall i, j | 0 <= i < j < |front| ensures ds[i] != ds[j] {
      assert all[i] == ds[i] && all[j] == ds[j];
    }
  }

  lemma NotYetThere(h: Hash, front: seq<Part>, p: Part, dis: Map)
    requires MapOf(h, front, dis) && NoRepeat(Digests(h, front + [p]))
    ensures h(p) !in dis
  {
    var ds := Digests(h, front + [p]);
    forall q | q in front ensures h(q) != h(p) {
      var i :| 0 <= i < |front| && front[i] == q;
      assert ds[i] == h(q) && ds[|front|] == h(p);
    }
  }

  lemma {:induction false} KeptDigests(h: Hash, ps: seq<Part>, names: seq<string>)
    requires NoRepeat(Digests(h, ps))
    ensures NoRepeat(Digests(h, KeepNamed(ps, names)))
    decreases |ps|
  {
    if ps != [] {
      var p, rest := ps[0], ps[1..];
      assert Digests(h, rest) == Digests(h, ps)[1..];
      KeptDigests(h, rest, names);
      KeptIs(rest, names);
      var kept := KeepNamed(rest, names);
      forall q | q in kept ensures h(q) != h(p) {
        var i :| 0 <= i < |rest| && rest[i] == q;
        assert Digests(h, ps)[i + 1] == h(q) && Digests(h, ps)[0] == h(p);
      }
      if IsNamed(p, names) {
        var all := Digests(h, [p] + kept);
        forall j | 0 < j < |all| ensures all[j] != all[0] && all[j] == Digests(h, kept)[j - 1] {
          assert ([p] + kept)[j] == kept[j - 1] && kept[j - 1] in kept;
        }
      }
    }
  }

  /** What an issuer may be given, and what can be read back of it. */
  predicate CanIssue(claims: seq<Member>, salts: seq<string>, plain: seq<Member>) {
    && |claims| == |salts| && IssueOk(claims, plain) && UniqueNames(claims)
    && forall c <- claims :: Depth(c.value) < MAX_DEPTH
  }

  lemma {:induction false} EachNamesOk(ms: seq<Member>, i: nat)
    requires MembersNamesOk(ms) && i < |ms|
    ensures NameAllowed(ms[i].key) && NamesOk(ms[i].value)
    decreases i
  {
    if 0 < i {
      EachNamesOk(ms[1..], i - 1);
    }
  }

  lemma DisclosureIsClaim(claims: seq<Member>, salts: seq<string>, plain: seq<Member>, names: seq<string>, i: nat)
    requires CanIssue(claims, salts, plain) && i < |claims|
    ensures var p := Disclosures(claims, salts)[i];
            IsClaim(p) && ClaimIn(p) == claims[i] && (IsNamed(p, names) <==> claims[i].key in names)
  {
    DisclosureDepth(salts[i], claims[i]);
    EachNamesOk(claims, i);
    assert claims[i] in claims;
  }

  /** The map a verifier builds of the Disclosures kept: exactly those of the shown claims. */
  ghost predicate MapIs(h: Hash, claims: seq<Member>, salts: seq<string>, names: seq<string>, dis: Map)
    requires |claims| == |salts|
  {
    var ps := Disclosures(claims, salts);
    && (forall i {:trigger ps[i]} :: 0 <= i < |ps| ==>
          (h(ps[i]) in dis <==> claims[i].key in names) && (h(ps[i]) in dis ==> dis[h(ps[i])] == ps[i]))
    && (forall d <- dis :: exists i {:trigger ps[i]} :: 0 <= i < |ps| && h(ps[i]) == d)
  }

  lemma KeptMap(h: Hash, claims: seq<Member>, salts: seq<string>, plain: seq<Member>, names: seq<string>) returns (dis: Map)
    requires CanIssue(claims, salts, plain) && NoRepeat(Digests(h, Disclosures(claims, salts)))
    ensures ByDigest(h, KeepNamed(Disclosures(claims, salts), names)) == Some(dis)
    ensures MapIs(h, claims, salts, names, dis)
  {
    var ps := Disclosures(claims, salts);
    var kept := KeepNamed(ps, names);
    KeptDigests(h, ps, names);
    ByDigestIs(h, kept);
    KeptIs(ps, names);
    dis := ByDigest(h, kept).value;
    forall i | 0 <= i < |ps|
      ensures (h(ps[i]) in dis <==> claims[i].key in names) && (h(ps[i]) in dis ==> dis[h(ps[i])] == ps[i])
    {
      KeptAt(h, claims, salts, plain, names, dis, i);
    }
    forall d | d in dis ensures exists i {:trigger ps[i]} :: 0 <= i < |ps| && h(ps[i]) == d {
      var p :| p in kept && h(p) == d;
      var i :| 0 <= i < |ps| && ps[i] == p;
    }
  }

  lemma KeptAt(h: Hash, claims: seq<Member>, salts: seq<string>, plain: seq<Member>, names: seq<string>, dis: Map, i: nat)
    requires CanIssue(claims, salts, plain) && NoRepeat(Digests(h, Disclosures(claims, salts))) && i < |claims|
    requires var kept := KeepNamed(Disclosures(claims, salts), names);
             && (forall p <- kept :: h(p) in dis && dis[h(p)] == p)
             && (forall d <- dis :: exists p :: p in kept && h(p) == d)
             && (forall p :: p in kept <==> p in Disclosures(claims, salts) && IsNamed(p, names))
    ensures var p := Disclosures(claims, salts)[i];
            (h(p) in dis <==> claims[i].key in names) && (h(p) in dis ==> dis[h(p)] == p)
  {
    var ps := Disclosures(claims, salts);
    var kept := KeepNamed(ps, names);
    DisclosureIsClaim(claims, salts, plain, names, i);
    assert ps[i] in ps;
    if h(ps[i]) in dis {
      var p :| p in kept && h(p) == h(ps[i]);
      var j :| 0 <= j < |ps| && ps[j] == p;
      assert Digests(h, ps)[i] == Digests(h, ps)[j];
      assert i == j;
    }
  }

  lemma MapHoldsClaims(h: Hash, claims: seq<Member>, salts: seq<string>, plain: seq<Member>, names: seq<string>, dis: Map)
    requires CanIssue(claims, salts, plain) && MapIs(h, claims, salts, names, dis)
    ensures AllClaims(dis)
    ensures forall d <- dis :: !Has(plain, ClaimIn(dis[d]).key)
  {
    var ps := Disclosures(claims, salts);
    forall d | d in dis
      ensures exists i :: 0 <= i < |claims| && d == h(ps[i]) && IsClaim(dis[d]) && ClaimIn(dis[d]) == claims[i]
    {
      var i :| 0 <= i < |ps| && h(ps[i]) == d;
      DisclosureIsClaim(claims, salts, plain, names, i);
    }
    forall d, e | d in dis && e in dis && d != e ensures ClaimIn(dis[d]).key != ClaimIn(dis[e]).key {
      var i :| 0 <= i < |claims| && d == h(ps[i]) && ClaimIn(dis[d]) == claims[i];
      var j :| 0 <= j < |claims| && e == h(ps[j]) && ClaimIn(dis[e]) == claims[j];
    }
    forall d | d in dis ensures !Has(plain, ClaimIn(dis[d]).key) {
      var i :| 0 <= i < |claims| && d == h(ps[i]) && ClaimIn(dis[d]) == claims[i];
      assert claims[i] in claims;
    }
  }

  /** The picked claims are those shown. */
  lemma PickedIsShown(h: Hash, claims: seq<Member>, salts: seq<string>, plain: seq<Member>, names: seq<string>, dis: Map, s: seq<string>, key: string)
    requires CanIssue(claims, salts, plain) && MapIs(h, claims, salts, names, dis) && AllClaims(dis)
    requires forall i :: 0 <= i < |claims| ==> h(Disclosures(claims, salts)[i]) in s
    ensures Get(Picks(dis, s), key) == if key in names then Get(claims, key) else None
  {
    var ps, picks := Disclosures(claims, salts), Picks(dis, s);
    GetIs(picks, key);
    GetIs(claims, key);
    if Get(picks, key).Some? {
      var m := Member(key, Get(picks, key).value);
      PicksIs(dis, s, m);
      var d :| d in s && d in dis && ClaimIn(dis[d]) == m;
      var i :| 0 <= i < |ps| && h(ps[i]) == d;
      DisclosureIsClaim(claims, salts, plain, names, i);
      MemberIsGet(claims, m);
    }
    if key in names && Get(claims, key).Some? {
      var m := Member(key, Get(claims, key).value);
      var i :| 0 <= i < |claims| && claims[i] == m;
      DisclosureIsClaim(claims, salts, plain, names, i);
      assert h(ps[i]) in dis && dis[h(ps[i])] == ps[i];
      PicksIs(dis, s, m);
    }
  }

  /* ---------- issue, present, verify ---------- */

  lemma {:induction false} DropNone(ms: seq<Member>, key: string)
    requires !Has(ms, key)
    ensures Drop(ms, key) == ms
    decreases |ms|
  {
    if ms != [] {
      DropNone(ms[1..], key);
    }
  }

  lemma {:induction false} DropJoin(a: seq<Member>, b: seq<Member>, key: string)
    ensures Drop(a + b, key) == Drop(a, key) + Drop(b, key)
    decreases |a|
  {
    if a == [] {
      assert a + b == b;
    } else {
      assert (a + b)[1..] == a[1..] + b;
      DropJoin(a[1..], b, key);
    }
  }

  lemma {:induction false} GetDropAll(ms: seq<Member>, keys: seq<Member>, key: string)
    ensures Get(DropAll(ms, keys), key) == if Has(keys, key) then None else Get(ms, key)
    decreases |ms|
  {
    if ms != [] {
      GetDropAll(ms[1..], keys, key);
    }
  }

  lemma {:induction false} DepthJoin(a: seq<Member>, b: seq<Member>)
    ensures MembersDepth(a + b) == Max(MembersDepth(a), MembersDepth(b))
    decreases |a|
  {
    if a == [] {
      assert a + b == b;
    } else {
      assert (a + b)[1..] == a[1..] + b;
      DepthJoin(a[1..], b);
    }
  }

  lemma {:induction false} StringsAreFlat(ds: seq<string>)
    ensures ItemsDepth(AsStrings(ds)) == 0
    decreases |ds|
  {
    if ds != [] {
      StringsAreFlat(ds[1..]);
      assert AsStrings(ds)[1..] == AsStrings(ds[1..]);
    }
  }

  /** The two members an issuer adds are flat. */
  lemma BodyDepth(plain: seq<Member>, ds: seq<string>)
    ensures MembersDepth(BodyOf(plain, ds)) == Max(MembersDepth(plain), 1)
  {
    var sd := Member(SD, Arr(AsStrings(Sorted(ds))));
    StringsAreFlat(Sorted(ds));
    OneDepth(sd);
    OneDepth(ALG_MEMBER);
    assert [sd, ALG_MEMBER] == [sd] + [ALG_MEMBER];
    DepthJoin([sd], [ALG_MEMBER]);
    DepthJoin(plain, [sd, ALG_MEMBER]);
  }

  lemma OneDepth(m: Member)
    ensures MembersDepth([m]) == Depth(m.value)
  {
    assert [m][1..] == [];
  }

  lemma BodySigned(jws: Jws, key: string, header: seq<Member>, body: seq<Member>)
    requires jws.Jws? && Load(jws.header) == Some(Obj(header)) && Get(header, "alg") == Some(Str("EdDSA"))
    requires jws.sig == Some(Signed(key, jws.header, jws.body)) && jws.body == Part(Obj(body), "")
    requires Get(body, SD_ALG) == Some(Str("sha-256"))
    ensures SignedBody(jws, key) == if MembersDepth(body) < MAX_DEPTH then Some(body) else None
  {
  }

  /** An issued payload is read back exactly when its plain claims are not nested too deep. */
  lemma IssuedBody(h: Hash, claims: seq<Member>, salts: seq<string>, plain: seq<Member>, key: string)
    requires |claims| == |salts| && MembersNamesOk(plain)
    ensures SignedBody(Issued(h, claims, salts, plain, key).jws, key) ==
            if MembersDepth(plain) < MAX_DEPTH then Some(BodyOf(plain, Digests(h, Disclosures(claims, salts)))) else None
  {
    var ds := Digests(h, Disclosures(claims, salts));
    BodyDepth(plain, ds);
    BodyGet(plain, ds);
    HeaderIsRead();
    BodySigned(Issued(h, claims, salts, plain, key).jws, key, HEADER.content.members, BodyOf(plain, ds));
  }

  lemma HeaderIsRead()
    ensures Load(HEADER) == Some(HEADER.content) && Get(HEADER.content.members, "alg") == Some(Str("EdDSA"))
  {
    var typ := Member("typ", Str("dc+sd-jwt"));
    assert HEADER.content.members[1..] == [typ] && [typ][1..] == [];
  }

  lemma SegmentsPresented(ps: seq<Part>)
    ensures Presented(Segments(ps)) == Some(ps)
  {
    NotEmptySegments(ps);
    var ss := Segments(ps);
    assert None !in ss[..|ss| - 1];
  }

  lemma AcceptedAtMostOnce(dis: Map, body: Json, d: string)
    requires Accepts(dis, body)
    ensures DigestsIn(body)[d] <= 1
  {
    EveryDisclosureOnce(dis, body);
    var held := Held(dis, Process(dis, body, START).value.1.used);
    assert (DigestsIn(body) + held)[d] <= 1;
  }

  lemma CountedTwice(ds: seq<string>, i: nat, j: nat)
    requires i < j < |ds| && ds[i] == ds[j]
    ensures multiset(ds)[ds[i]] >= 2
  {
    assert ds == ds[..j] + [ds[j]] + ds[j + 1..] && ds[..j][i] == ds[i];
    assert ds[i] in ds[..j];
  }

  /** A digest issued twice is never accepted. */
  lemma RepeatedIsRefused(dis: Map, plain: seq<Member>, ds: seq<string>)
    requires MembersNamesOk(plain) && !NoRepeat(ds)
    ensures !Accepts(dis, Obj(BodyOf(plain, ds)))
  {
    var body := BodyOf(plain, ds);
    BodyGet(plain, ds);
    SortedKeeps(ds);
    var i, j :| 0 <= i < j < |ds| && ds[i] == ds[j];
    var d := ds[i];
    CountedTwice(ds, i, j);
    assert multiset(SdOf(body))[d] >= 2;
    assert DigestsIn(Obj(body))[d] >= 2;
    if Accepts(dis, Obj(body)) {
      AcceptedAtMostOnce(dis, Obj(body), d);
    }
  }

  /** Distinct elements are those counted at most once. */
  lemma NoRepeatByCount(ds: seq<string>)
    requires forall d :: multiset(ds)[d] <= 1
    ensures NoRepeat(ds)
  {
    forall i, j | 0 <= i < j < |ds| ensures ds[i] != ds[j] {
      var d := ds[i];
      assert ds == ds[..j] + [ds[j]] + ds[j + 1..] && ds[..j][i] == d;
      assert multiset(ds)[d] >= 1 + if ds[j] == d then 1 else 0;
    }
  }

  lemma SortedNoRepeat(ds: seq<string>)
    requires NoRepeat(ds)
    ensures NoRepeat(Sorted(ds)) && forall d :: d in Sorted(ds) <==> d in ds
  {
    SortedKeeps(ds);
    var s := Sorted(ds);
    forall d ensures (d in s <==> d in ds) && multiset(s)[d] <= 1 {
      CountsOnce(ds, d);
      assert d in s <==> d in multiset(s);
    }
    NoRepeatByCount(s);
  }

  lemma JudgedAs(dis: Map, body: seq<Member>, out: seq<Member>, log: Log, now: real)
    requires SdOk(body) && Process(dis, Obj(body), START) == Some((Obj(out), log)) && dis.Keys <= set d | d in log.used
    ensures Accepts(dis, Obj(body))
    ensures var processed := Drop(out, SD_ALG);
            Judge(dis, body, now) ==
            if TimesOk(processed, now) then
              Verified(Drop(Drop(body, SD), SD_ALG), DropAll(processed, body),
                       (set d | d in SdOf(body)) - (set d | d in log.used), processed)
            else NotVerified
  {
  }

  /** What processing an issued payload uses and leaves, when the map holds the Disclosures of the named claims. */
  lemma KeptProcessed(h: Hash, claims: seq<Member>, salts: seq<string>, plain: seq<Member>, names: seq<string>, dis: Map)
    requires CanIssue(claims, salts, plain) && NoRepeat(Digests(h, Disclosures(claims, salts)))
    requires MapIs(h, claims, salts, names, dis) && AllClaims(dis)
    ensures var ds := Digests(h, Disclosures(claims, salts));
            Process(dis, Obj(BodyOf(plain, ds)), START) ==
            Some((Obj(plain + [ALG_MEMBER] + Picks(dis, Sorted(ds))), Log(Sorted(ds), Known(dis, Sorted(ds)))))
  {
    var ds := Digests(h, Disclosures(claims, salts));
    SortedNoRepeat(ds);
    MapHoldsClaims(h, claims, salts, plain, names, dis);
    IssuedIsProcessed(dis, plain, ds);
  }

  lemma KnownAreAll(h: Hash, claims: seq<Member>, salts: seq<string>, names: seq<string>, dis: Map)
    requires |claims| == |salts| && NoRepeat(Digests(h, Disclosures(claims, salts))) && MapIs(h, claims, salts, names, dis)
    ensures var ds := Digests(h, Disclosures(claims, salts));
            && (set d | d in Known(dis, Sorted(ds))) == dis.Keys
            && (set d | d in Sorted(ds)) == (set d | d in ds)
  {
    var ps := Disclosures(claims, salts);
    var ds := Digests(h, ps);
    SortedNoRepeat(ds);
    KnownIs(dis, Sorted(ds));
    forall d | d in dis ensures d in ds {
      var i :| 0 <= i < |ps| && h(ps[i]) == d;
      assert ds[i] == d;
    }
  }

  /** How an issued payload is judged, when the map holds the Disclosures of the named claims. */
  lemma KeptJudged(h: Hash, claims: seq<Member>, salts: seq<string>, plain: seq<Member>, names: seq<string>, dis: Map, now: real)
    requires CanIssue(claims, salts, plain) && NoRepeat(Digests(h, Disclosures(claims, salts)))
    requires MapIs(h, claims, salts, names, dis) && AllClaims(dis)
    ensures var ds := Digests(h, Disclosures(claims, salts));
            var body, processed := BodyOf(plain, ds), plain + Picks(dis, Sorted(ds));
            && Accepts(dis, Obj(body))
            && Judge(dis, body, now) ==
               if TimesOk(processed, now) then
                 Verified(plain, DropAll(processed, body), (set d | d in ds) - dis.Keys, processed)
               else NotVerified
  {
    var ds := Digests(h, Disclosures(claims, salts));
    var s := Sorted(ds);
    KeptProcessed(h, claims, salts, plain, names, dis);
    KnownAreAll(h, claims, salts, names, dis);
    BodyGet(plain, ds);
    PlainOfBody(plain, ds);
    ProcessedOf(dis, plain, s);
    JudgedAs(dis, BodyOf(plain, ds), plain + [ALG_MEMBER] + Picks(dis, s), Log(s, Known(dis, s)), now);
  }

  /** The verdict on a presentation whose digests are all different. */
  lemma KeptVerdict(h: Hash, claims: seq<Member>, salts: seq<string>, plain: seq<Member>, names: seq<string>, dis: Map, now: real)
    requires CanIssue(claims, salts, plain) && NoRepeat(Digests(h, Disclosures(claims, salts)))
    requires MapIs(h, claims, salts, names, dis)
    ensures var body := BodyOf(plain, Digests(h, Disclosures(claims, salts)));
            Accepts(dis, Obj(body)) &&
            var v := Judge(dis, body, now);
            && (v.Verified? <==> InTime(Shown(claims, plain, names, "exp"), Shown(claims, plain, names, "nbf"), now))
            && (v.Verified? ==>
                  && v.plain == plain
                  && (forall key :: Get(v.processed, key) == Shown(claims, plain, names, key))
                  && v.disclosed == DropAll(v.processed, body)
                  && (forall i :: 0 <= i < |claims| ==>
                        (h(Disclosures(claims, salts)[i]) in v.undisclosed <==> claims[i].key !in names))
                  && (forall d <- v.undisclosed :: d in Digests(h, Disclosures(claims, salts))))
  {
    var ps := Disclosures(claims, salts);
    var ds := Digests(h, ps);
    MapHoldsClaims(h, claims, salts, plain, names, dis);
    SortedNoRepeat(ds);
    DigestsThere(h, ps, ds);
    DigestsThere(h, ps, Sorted(ds));
    forall key ensures Get(plain + Picks(dis, Sorted(ds)), key) == Shown(claims, plain, names, key) {
      PickedIsShown(h, claims, salts, plain, names, dis, Sorted(ds), key);
      GetJoin(plain, Picks(dis, Sorted(ds)), key);
    }
    KeptJudged(h, claims, salts, plain, names, dis, now);
  }

  lemma DigestsThere(h: Hash, ps: seq<Part>, s: seq<string>)
    requires forall d :: d in s <==> d in Digests(h, ps)
    ensures forall i :: 0 <= i < |ps| ==> h(ps[i]) in s
  {
    forall i | 0 <= i < |ps| ensures h(ps[i]) in s {
      assert Digests(h, ps)[i] in Digests(h, ps);
    }
  }

  lemma DropSd(sd: Member)
    requires sd.key == SD
    ensures Drop([sd, ALG_MEMBER], SD) == [ALG_MEMBER]
  {
    assert |SD| == 3 && |SD_ALG| == 7;
    assert SD != SD_ALG;
    assert [sd, ALG_MEMBER] == [sd] + [ALG_MEMBER];
    DropJoin([sd], [ALG_MEMBER], SD);
    assert [sd][1..] == [];
    assert ALG_MEMBER.key != SD && Get([ALG_MEMBER], SD) == None;
    DropNone([ALG_MEMBER], SD);
  }

  lemma PlainOfBody(plain: seq<Member>, ds: seq<string>)
    requires MembersNamesOk(plain)
    ensures Drop(Drop(BodyOf(plain, ds), SD), SD_ALG) == plain
  {
    var sd := Member(SD, Arr(AsStrings(Sorted(ds))));
    var rest := [sd, ALG_MEMBER];
    NotReserved(plain, SD);
    NotReserved(plain, SD_ALG);
    DropJoin(plain, rest, SD);
    DropNone(plain, SD);
    DropSd(sd);
    DropJoin(plain, [ALG_MEMBER], SD_ALG);
    DropNone(plain, SD_ALG);
    assert Drop([ALG_MEMBER], SD_ALG) == [] && plain + [] == plain;
  }

  lemma ProcessedOf(dis: Map, plain: seq<Member>, s: seq<string>)
    requires MembersNamesOk(plain) && AllClaims(dis)
    ensures Drop(plain + [ALG_MEMBER] + Picks(dis, s), SD_ALG) == plain + Picks(dis, s)
  {
    var picks := Picks(dis, s);
    NotReserved(plain, SD_ALG);
    DropNone(plain, SD_ALG);
    DropJoin(plain, [ALG_MEMBER], SD_ALG);
    assert [ALG_MEMBER][1..] == [] && plain + [] == plain;
    DropJoin(plain + [ALG_MEMBER], picks, SD_ALG);
    GetIs(picks, SD_ALG);
    if Has(picks, SD_ALG) {
      PicksIs(dis, s, Member(SD_ALG, Get(picks, SD_ALG).value));
    }
    DropNone(picks, SD_ALG);
  }

  /** Issue, keep the Disclosures of any names, verify: accepted exactly when the payload can be read back, no two digests
      are one and the time is right; and then what is read is the plain claims and the named ones, and nothing else. */
  lemma PresentationVerifies(h: Hash, claims: seq<Member>, salts: seq<string>, plain: seq<Member>, key: string, names: seq<string>, now: real)
    requires CanIssue(claims, salts, plain)
    ensures var ps := Disclosures(claims, salts);
            var t := Issued(h, claims, salts, plain, key);
            var v := Verify(h, Token(t.jws, Segments(KeepNamed(ps, names))), key, now);
            && (v.Verified? <==>
                  && MembersDepth(plain) < MAX_DEPTH
                  && NoRepeat(Digests(h, ps))
                  && InTime(Shown(claims, plain, names, "exp"), Shown(claims, plain, names, "nbf"), now))
            && (v.Verified? ==>
                  && v.plain == plain
                  && (forall k :: Get(v.processed, k) == Shown(claims, plain, names, k))
                  && (forall k :: NameAllowed(k) ==> Get(v.disclosed, k) == if Has(plain, k) then None else Shown(claims, plain, names, k))
                  && (forall i :: 0 <= i < |claims| ==> (h(ps[i]) in v.undisclosed <==> claims[i].key !in names))
                  && (forall d <- v.undisclosed :: d in Digests(h, ps)))
  {
    var ps := Disclosures(claims, salts);
    var ds := Digests(h, ps);
    var kept := KeepNamed(ps, names);
    var body := BodyOf(plain, ds);
    SegmentsPresented(kept);
    IssuedBody(h, claims, salts, plain, key);
    if MembersDepth(plain) < MAX_DEPTH {
      if NoRepeat(ds) {
        var dis := KeptMap(h, claims, salts, plain, names);
        KeptVerdict(h, claims, salts, plain, names, dis, now);
        var v := Judge(dis, body, now);
        if v.Verified? {
          DisclosedOfBody(plain, ds, v.processed);
        }
      } else if ByDigest(h, kept).Some? {
        RepeatedIsRefused(ByDigest(h, kept).value, plain, ds);
      }
    }
  }

  lemma DisclosedOfBody(plain: seq<Member>, ds: seq<string>, processed: seq<Member>)
    ensures forall k :: NameAllowed(k) ==>
              Get(DropAll(processed, BodyOf(plain, ds)), k) == if Has(plain, k) then None else Get(processed, k)
  {
    forall k | NameAllowed(k)
      ensures Get(DropAll(processed, BodyOf(plain, ds)), k) == if Has(plain, k) then None else Get(processed, k)
    {
      GetDropAll(processed, BodyOf(plain, ds), k);
      NamesOfBody(plain, ds, k);
    }
  }

  lemma NamesOfBody(plain: seq<Member>, ds: seq<string>, key: string)
    requires NameAllowed(key)
    ensures Has(BodyOf(plain, ds), key) <==> Has(plain, key)
  {
    var sd := Member(SD, Arr(AsStrings(Sorted(ds))));
    GetJoin(plain, [sd, ALG_MEMBER], key);
    assert [sd, ALG_MEMBER] == [sd] + [ALG_MEMBER];
    GetJoin([sd], [ALG_MEMBER], key);
  }

  /* ---------- what a holder cannot do ---------- */

  /** Two different Disclosures with one digest, one of them issued and the other presented. */
  ghost predicate Collides(h: Hash, issued: seq<Part>, presented: seq<Part>) {
    exists p, q :: p in issued && q in presented && p != q && h(p) == h(q)
  }

  lemma {:induction false} ByDigestMaps(h: Hash, ps: seq<Part>)
    requires ByDigest(h, ps).Some?
    ensures MapOf(h, ps, ByDigest(h, ps).value)
    decreases |ps|
  {
    if ps != [] {
      var front, p := ps[..|ps| - 1], ps[|ps| - 1];
      assert ps == front + [p];
      ByDigestMaps(h, front);
      MapGrows(h, front, p, ByDigest(h, front).value);
    }
  }

  /** Disclosures nobody refers to make no difference. */
  lemma {:induction false} OthersUnread(dis: Map, few: Map, ds: seq<string>, out: seq<Member>, log: Log)
    requires AllClaims(few) && forall d <- ds :: (d in dis <==> d in few) && (d in few ==> dis[d] == few[d])
    ensures ProcessDigests(dis, ds, out, log) == ProcessDigests(few, ds, out, log)
    decreases |ds|
  {
    if ds != [] && ds[0] !in log.met {
      var d, rest, met := ds[0], ds[1..], log.met + [ds[0]];
      if d in few {
        var c := ClaimIn(few[d]);
        var next := Log(met, log.used + [d]);
        PlainIsKept(dis, c.value, next);
        PlainIsKept(few, c.value, next);
        OthersUnread(dis, few, rest, out + [c], next);
      } else {
        OthersUnread(dis, few, rest, out, Log(met, log.used));
      }
    }
  }

  /** The issued Disclosures among those a verifier has. */
  ghost function IssuedAmong(dis: Map, s: seq<string>): Map {
    map d | d in dis && d in s :: dis[d]
  }

  /** The names of the claims whose Disclosure is there. */
  function NamesThere(h: Hash, claims: seq<Member>, salts: seq<string>, dis: Map): (names: seq<string>)
    requires |claims| == |salts|
    ensures forall k :: k in names <==>
                        exists i :: 0 <= i < |claims| && h(DisclosureOf(salts[i], claims[i])) in dis && claims[i].key == k
  {
    if claims == [] then []
    else
      var n := |claims| - 1;
      NamesThere(h, claims[..n], salts[..n], dis)
      + if h(DisclosureOf(salts[n], claims[n])) in dis then [claims[n].key] else []
  }

  /** Without a collision, what stands under an issued digest is the issued Disclosure. */
  lemma IssuedMap(h: Hash, claims: seq<Member>, salts: seq<string>, plain: seq<Member>, presented: seq<Part>, dis: Map)
    requires CanIssue(claims, salts, plain) && MapOf(h, presented, dis) && !Collides(h, Disclosures(claims, salts), presented)
    ensures var few := IssuedAmong(dis, Digests(h, Disclosures(claims, salts)));
            MapIs(h, claims, salts, NamesThere(h, claims, salts, dis), few)
  {
    var ps := Disclosures(claims, salts);
    var names, ds := NamesThere(h, claims, salts, dis), Digests(h, ps);
    forall i | 0 <= i < |ps|
      ensures h(ps[i]) in dis <==> claims[i].key in names
      ensures h(ps[i]) in dis ==> dis[h(ps[i])] == ps[i]
    {
      if h(ps[i]) in dis {
        var p :| p in presented && h(p) == h(ps[i]);
        assert ps[i] in ps;
      }
    }
    forall i | 0 <= i < |ps| ensures h(ps[i]) in ds {
      assert ds[i] == h(ps[i]);
    }
    forall d | d in IssuedAmong(dis, ds) ensures exists i {:trigger ps[i]} :: 0 <= i < |ps| && h(ps[i]) == d {
      var i :| 0 <= i < |ds| && ds[i] == d;
      assert h(ps[i]) == d;
    }
  }

  /** An accepted presentation holds issued Disclosures only. */
  lemma OnlyIssued(dis: Map, few: Map, plain: seq<Member>, ds: seq<string>)
    requires MembersNamesOk(plain) && NoRepeat(Sorted(ds)) && AllClaims(few) && few == IssuedAmong(dis, Sorted(ds))
    requires forall d <- few :: !Has(plain, ClaimIn(few[d]).key)
    requires Accepts(dis, Obj(BodyOf(plain, ds)))
    ensures dis == few
  {
    var s, body := Sorted(ds), BodyOf(plain, ds);
    BodyGet(plain, ds);
    BodyMembers(dis, plain, ds, START);
    OthersUnread(dis, few, s, plain + [ALG_MEMBER], START);
    SdPicked(few, plain, s);
    ObjectProcessed(dis, body, plain + [ALG_MEMBER], plain + [ALG_MEMBER] + Picks(few, s), START, START, Log(s, Known(few, s)));
    KnownIs(few, s);
  }

  lemma MapIsOne(h: Hash, claims: seq<Member>, salts: seq<string>, names: seq<string>, a: Map, b: Map)
    requires |claims| == |salts| && MapIs(h, claims, salts, names, a) && MapIs(h, claims, salts, names, b)
    ensures a == b
  {
    var ps := Disclosures(claims, salts);
    forall d | d in a ensures d in b && a[d] == b[d] {
      var i :| 0 <= i < |ps| && h(ps[i]) == d;
    }
    forall d | d in b ensures d in a {
      var i :| 0 <= i < |ps| && h(ps[i]) == d;
    }
  }

  lemma AcceptedIsPresented(h: Hash, claims: seq<Member>, salts: seq<string>, plain: seq<Member>, presented: seq<Part>, dis: Map)
    requires CanIssue(claims, salts, plain) && ByDigest(h, presented) == Some(dis)
    requires Accepts(dis, Obj(BodyOf(plain, Digests(h, Disclosures(claims, salts)))))
    requires !Collides(h, Disclosures(claims, salts), presented)
    ensures ByDigest(h, KeepNamed(Disclosures(claims, salts), NamesThere(h, claims, salts, dis))) == Some(dis)
  {
    var ps, names := Disclosures(claims, salts), NamesThere(h, claims, salts, dis);
    var ds := Digests(h, ps);
    if !NoRepeat(ds) {
      RepeatedIsRefused(dis, plain, ds);
    }
    SortedNoRepeat(ds);
    var few := IssuedAmong(dis, ds);
    assert few == IssuedAmong(dis, Sorted(ds));
    ByDigestMaps(h, presented);
    IssuedMap(h, claims, salts, plain, presented, dis);
    MapHoldsClaims(h, claims, salts, plain, names, few);
    OnlyIssued(dis, few, plain, ds);
    var kept := KeptMap(h, claims, salts, plain, names);
    MapIsOne(h, claims, salts, names, dis, kept);
  }

  /**
   Whatever Disclosures a holder puts behind an issued signed part, in any order: a verifier
   refuses them, or two different Disclosures have one digest, or the verdict is the one on
   the issued Disclosures of some of the claims.
   */
  lemma HolderAddsNothing(h: Hash, claims: seq<Member>, salts: seq<string>, plain: seq<Member>, key: string, segments: seq<Option<Part>>, now: real)
    requires CanIssue(claims, salts, plain)
    ensures var ps, jws := Disclosures(claims, salts), Issued(h, claims, salts, plain, key).jws;
            var v := Verify(h, Token(jws, segments), key, now);
            || v.NotVerified?
            || Collides(h, ps, NotEmpty(segments))
            || exists names :: v == Verify(h, Token(jws, Segments(KeepNamed(ps, names))), key, now)
  {
    var ps, jws := Disclosures(claims, salts), Issued(h, claims, salts, plain, key).jws;
    var presented := NotEmpty(segments);
    if Verify(h, Token(jws, segments), key, now).Verified? && !Collides(h, ps, presented) {
      IssuedBody(h, claims, salts, plain, key);
      var dis := ByDigest(h, presented).value;
      var names := NamesThere(h, claims, salts, dis);
      AcceptedIsPresented(h, claims, salts, plain, presented, dis);
      SegmentsPresented(KeepNamed(ps, names));
      assert Verify(h, Token(jws, segments), key, now) == Verify(h, Token(jws, Segments(KeepNamed(ps, names))), key, now);
    }
  }
}
