/**
 Selective disclosure: replacing digests by the Disclosures they name, in objects and in
 arrays, through Disclosures that hold digests themselves (section 7.1 of RFC 9901).
 */
module SdJwtProcess {
  import opened Wrappers

  /** Infinite is a number too large for a double. */
  datatype Json =
    | Null
    | Bool(b: bool)
    | Num(n: real)
    | Infinite
    | Str(s: string)
    | Arr(items: seq<Json>)
    | Obj(members: seq<Member>)

  datatype Member = Member(key: string, value: Json)

  /** A segment of a token: a spelling of some JSON text, or nothing of the kind. */
  datatype Part = Part(content: Json, spelling: string) | Garbled(text: string)

  const SD := "_sd"
  const DOTS := "..."
  const SD_ALG := "_sd_alg"

  const MAX_DEPTH := 512

  function Max(a: nat, b: nat): nat {
    if a < b then b else a
  }

  function Depth(j: Json): nat
    decreases j, 0
  {
    match j
    case Arr(items) => 1 + ItemsDepth(items)
    case Obj(members) => 1 + MembersDepth(members)
    case _ => 0
  }

  function ItemsDepth(js: seq<Json>): nat
    decreases js, 0
  {
    if js == [] then 0 else Max(Depth(js[0]), ItemsDepth(js[1..]))
  }

  function MembersDepth(ms: seq<Member>): nat
    decreases ms, 0
  {
    if ms == [] then 0 else Max(Depth(ms[0].value), MembersDepth(ms[1..]))
  }

  /** What a segment holds, when it is JSON of bounded depth. */
  function Load(p: Part): Option<Json> {
    if p.Part? && Depth(p.content) <= MAX_DEPTH then Some(p.content) else None
  }

  function Get(ms: seq<Member>, key: string): Option<Json> {
    if ms == [] then None
    else if ms[0].key == key then Some(ms[0].value)
    else Get(ms[1..], key)
  }

  predicate Has(ms: seq<Member>, key: string) {
    Get(ms, key).Some?
  }

  /** An array of strings. */
  predicate IsStrings(j: Json) {
    j.Arr? && forall i :: 0 <= i < |j.items| ==> j.items[i].Str?
  }

  function Strings(js: seq<Json>): (ss: seq<string>)
    requires forall i :: 0 <= i < |js| ==> js[i].Str?
    ensures |ss| == |js| && forall i :: 0 <= i < |js| ==> ss[i] == js[i].s
  {
    seq(|js|, i requires 0 <= i < |js| => js[i].s)
  }

  predicate SdOk(ms: seq<Member>) {
    match Get(ms, SD)
    case None => true
    case Some(j) => IsStrings(j)
  }

  /** The digests an object lists. */
  function SdOf(ms: seq<Member>): seq<string>
    requires SdOk(ms)
  {
    match Get(ms, SD)
    case None => []
    case Some(j) => Strings(j.items)
  }

  /** The digest an array element stands for, when it is nothing but a digest. */
  function Marker(j: Json): Option<string> {
    if j.Obj? && |j.members| == 1 && j.members[0].key == DOTS && j.members[0].value.Str? then Some(j.members[0].value.s)
    else None
  }

  /* ---------- processing ---------- */

  /** The digests met so far, and those among them whose Disclosure was used, in order. */
  datatype Log = Log(met: seq<string>, used: seq<string>)

  type Map = map<string, Part>

  function Seen(log: Log): set<string> {
    set d | d in log.met
  }

  datatype Taken = Rejected | Unknown(log: Log) | Content(items: seq<Json>, log: Log)

  /** Meet a digest: never twice, and with a Disclosure of n elements when there is one. */
  function Take(dis: Map, d: string, n: nat, log: Log): (t: Taken)
    requires 0 < n
    ensures !t.Rejected? ==> Seen(log) <= Seen(t.log)
    ensures t.Content? ==> |t.items| == n && dis.Keys - Seen(t.log) < dis.Keys - Seen(log)
  {
    if d in log.met then Rejected
    else
      var met := log.met + [d];
      if d !in dis then Unknown(Log(met, log.used))
      else
        match Load(dis[d])
        case Some(Arr(items)) =>
          if |items| == n && items[0].Str? then
            var next := Log(met, log.used + [d]);
            assert d in dis.Keys - Seen(log) && d in Seen(next);
            Content(items, next)
          else Rejected
        case _ => Rejected
  }

  function Process(dis: Map, node: Json, log: Log): (r: Option<(Json, Log)>)
    ensures r.Some? ==> Seen(log) <= Seen(r.value.1)
    decreases dis.Keys - Seen(log), true, node, 1
  {
    match node
    case Obj(ms) =>
      if !SdOk(ms) then None
      else
        (match ProcessMembers(dis, ms, [], log)
         case None => None
         case Some((out, next)) =>
           match ProcessDigests(dis, SdOf(ms), out, next)
           case None => None
           case Some((all, end)) => Some((Obj(all), end)))
    case Arr(items) =>
      (match ProcessItems(dis, items, [], log)
       case None => None
       case Some((res, end)) => Some((Arr(res), end)))
    case _ => Some((node, log))
  }

  /** The members but for the digests, each value processed. */
  function ProcessMembers(dis: Map, ms: seq<Member>, out: seq<Member>, log: Log): (r: Option<(seq<Member>, Log)>)
    ensures r.Some? ==> Seen(log) <= Seen(r.value.1)
    decreases dis.Keys - Seen(log), true, ms, 0
  {
    if ms == [] then Some((out, log))
    else if ms[0].key == SD then ProcessMembers(dis, ms[1..], out, log)
    else
      match Process(dis, ms[0].value, log)
      case None => None
      case Some((v, next)) => ProcessMembers(dis, ms[1..], out + [Member(ms[0].key, v)], next)
  }

  /** The claim a Disclosure adds to an object, when its name may be added. */
  predicate NameOk(items: seq<Json>, out: seq<Member>)
    requires |items| == 3
  {
    items[1].Str? && items[1].s != SD && items[1].s != DOTS && !Has(out, items[1].s)
  }

  /** The claims the digests of an object name, added to it. */
  function ProcessDigests(dis: Map, ds: seq<string>, out: seq<Member>, log: Log): (r: Option<(seq<Member>, Log)>)
    ensures r.Some? ==> Seen(log) <= Seen(r.value.1)
    decreases dis.Keys - Seen(log), false, |ds|
  {
    if ds == [] then Some((out, log))
    else
      match Take(dis, ds[0], 3, log)
      case Rejected => None
      case Unknown(next) => ProcessDigests(dis, ds[1..], out, next)
      case Content(items, next) =>
        if !NameOk(items, out) then None
        else
          match Process(dis, items[2], next)
          case None => None
          case Some((v, end)) => ProcessDigests(dis, ds[1..], out + [Member(items[1].s, v)], end)
  }

  /** The elements of an array: a digest gives way to its Disclosure's element, or to nothing. */
  function ProcessItems(dis: Map, js: seq<Json>, res: seq<Json>, log: Log): (r: Option<(seq<Json>, Log)>)
    ensures r.Some? ==> Seen(log) <= Seen(r.value.1)
    decreases dis.Keys - Seen(log), true, js, 0
  {
    if js == [] then Some((res, log))
    else
      match Marker(js[0])
      case Some(d) =>
        (match Take(dis, d, 2, log)
         case Rejected => None
         case Unknown(next) => ProcessItems(dis, js[1..], res, next)
         case Content(items, next) =>
           match Process(dis, items[1], next)
           case None => None
           case Some((v, end)) => ProcessItems(dis, js[1..], res + [v], end))
      case None =>
        match Process(dis, js[0], log)
        case None => None
        case Some((v, next)) => ProcessItems(dis, js[1..], res + [v], next)
  }

  /* ---------- every digest is met once, every Disclosure used once ---------- */

  /** The digests that stand in a value, without looking into any Disclosure. */
  function DigestsIn(j: Json): multiset<string>
    decreases j, 1
  {
    match j
    case Obj(ms) => MembersDigests(ms) + if SdOk(ms) then multiset(SdOf(ms)) else multiset{}
    case Arr(items) => ItemsDigests(items)
    case _ => multiset{}
  }

  function MembersDigests(ms: seq<Member>): multiset<string>
    decreases ms, 0
  {
    if ms == [] then multiset{}
    else (if ms[0].key == SD then multiset{} else DigestsIn(ms[0].value)) + MembersDigests(ms[1..])
  }

  function ItemsDigests(js: seq<Json>): multiset<string>
    decreases js, 0
  {
    if js == [] then multiset{}
    else (if Marker(js[0]).Some? then multiset{Marker(js[0]).value} else DigestsIn(js[0])) + ItemsDigests(js[1..])
  }

  /** The digests that stand in the value a Disclosure holds. */
  function HeldBy(dis: Map, d: string): multiset<string> {
    if d !in dis then multiset{}
    else
      match Load(dis[d])
      case Some(Arr(items)) => if items == [] then multiset{} else DigestsIn(items[|items| - 1])
      case _ => multiset{}
  }

  function Held(dis: Map, ds: seq<string>): multiset<string> {
    if ds == [] then multiset{} else HeldBy(dis, ds[0]) + Held(dis, ds[1..])
  }

  ghost predicate NoRepeat(ds: seq<string>) {
    forall i, j :: 0 <= i < j < |ds| ==> ds[i] != ds[j]
  }

  /** No digest was met twice, and the used ones are those met that have a Disclosure. */
  ghost predicate LogOk(dis: Map, log: Log) {
    NoRepeat(log.met) && NoRepeat(log.used) && forall d :: d in log.used <==> d in log.met && d in dis
  }

  /** From one log to the next, the digests ds were met, and those held by every Disclosure used in between. */
  ghost predicate Grew(dis: Map, log: Log, next: Log, ds: multiset<string>) {
    && log.met <= next.met && log.used <= next.used
    && MetIs(dis, log, next, ds)
    && (LogOk(dis, log) ==> LogOk(dis, next))
  }

  ghost predicate MetIs(dis: Map, log: Log, next: Log, ds: multiset<string>)
    requires log.used <= next.used
  {
    multiset(next.met) == multiset(log.met) + ds + Held(dis, next.used[|log.used|..])
  }

  lemma {:induction false} HeldJoin(dis: Map, a: seq<string>, b: seq<string>)
    ensures Held(dis, a + b) == Held(dis, a) + Held(dis, b)
    decreases |a|
  {
    if a == [] {
      assert a + b == b;
    } else {
      assert (a + b)[1..] == a[1..] + b;
      HeldJoin(dis, a[1..], b);
    }
  }

  lemma GrewNothing(dis: Map, log: Log)
    ensures Grew(dis, log, log, multiset{})
  {
  }

  lemma GrewBoth(dis: Map, a: Log, b: Log, c: Log, ds: multiset<string>, es: multiset<string>)
    requires Grew(dis, a, b, ds) && Grew(dis, b, c, es)
    ensures Grew(dis, a, c, ds + es)
  {
    BetweenJoin(a.used, b.used, c.used);
    HeldJoin(dis, b.used[|a.used|..], c.used[|b.used|..]);
  }

  lemma BetweenJoin(x: seq<string>, y: seq<string>, z: seq<string>)
    requires x <= y && y <= z
    ensures x <= z && z[|x|..] == y[|x|..] + z[|y|..]
  {
  }

  lemma MetOnce(met: seq<string>, d: string)
    requires NoRepeat(met) && d !in met
    ensures NoRepeat(met + [d])
  {
  }

  /** A digest without a Disclosure. */
  lemma GrewUnknown(dis: Map, d: string, n: nat, log: Log)
    requires 0 < n && Take(dis, d, n, log).Unknown?
    ensures Grew(dis, log, Take(dis, d, n, log).log, multiset{d})
  {
    var next := Take(dis, d, n, log).log;
    assert next.used[|log.used|..] == [];
    if LogOk(dis, log) {
      MetOnce(log.met, d);
    }
  }

  /** A digest whose Disclosure's value is processed in turn. */
  lemma GrewContent(dis: Map, d: string, n: nat, log: Log, end: Log)
    requires 0 < n && Take(dis, d, n, log).Content?
    requires Grew(dis, Take(dis, d, n, log).log, end, DigestsIn(Take(dis, d, n, log).items[n - 1]))
    ensures Grew(dis, log, end, multiset{d})
  {
    var next, items := Take(dis, d, n, log).log, Take(dis, d, n, log).items;
    assert HeldBy(dis, d) == DigestsIn(items[n - 1]);
    MetWithHeld(dis, d, log, next, end);
    if LogOk(dis, log) {
      MetOnce(log.met, d);
      MetOnce(log.used, d);
    }
  }

  /** Meeting a digest, and then those its Disclosure holds. */
  lemma MetWithHeld(dis: Map, d: string, log: Log, next: Log, end: Log)
    requires next == Log(log.met + [d], log.used + [d]) && next.used <= end.used
    requires MetIs(dis, next, end, HeldBy(dis, d))
    ensures log.used <= end.used && MetIs(dis, log, end, multiset{d})
  {
    var rest := end.used[|next.used|..];
    assert end.used[|log.used|..] == [d] + rest;
    assert ([d] + rest)[1..] == rest;
  }

  lemma {:induction false} ProcessGrows(dis: Map, node: Json, log: Log)
    requires Process(dis, node, log).Some?
    ensures Grew(dis, log, Process(dis, node, log).value.1, DigestsIn(node))
    decreases dis.Keys - Seen(log), true, node, 1
  {
    match node
    case Obj(ms) =>
      var (out, next) := ProcessMembers(dis, ms, [], log).value;
      MembersGrow(dis, ms, [], log);
      DigestsGrow(dis, SdOf(ms), out, next);
      GrewBoth(dis, log, next, ProcessDigests(dis, SdOf(ms), out, next).value.1, MembersDigests(ms), multiset(SdOf(ms)));
    case Arr(items) => ItemsGrow(dis, items, [], log);
    case _ => GrewNothing(dis, log);
  }

  lemma {:induction false} MembersGrow(dis: Map, ms: seq<Member>, out: seq<Member>, log: Log)
    requires ProcessMembers(dis, ms, out, log).Some?
    ensures Grew(dis, log, ProcessMembers(dis, ms, out, log).value.1, MembersDigests(ms))
    decreases dis.Keys - Seen(log), true, ms, 0
  {
    if ms == [] {
      GrewNothing(dis, log);
    } else if ms[0].key == SD {
      MembersGrow(dis, ms[1..], out, log);
    } else {
      var (v, next) := Process(dis, ms[0].value, log).value;
      ProcessGrows(dis, ms[0].value, log);
      MembersGrow(dis, ms[1..], out + [Member(ms[0].key, v)], next);
      GrewBoth(dis, log, next, ProcessMembers(dis, ms, out, log).value.1, DigestsIn(ms[0].value), MembersDigests(ms[1..]));
    }
  }

  lemma {:induction false} DigestsGrow(dis: Map, ds: seq<string>, out: seq<Member>, log: Log)
    requires ProcessDigests(dis, ds, out, log).Some?
    ensures Grew(dis, log, ProcessDigests(dis, ds, out, log).value.1, multiset(ds))
    decreases dis.Keys - Seen(log), false, |ds|
  {
    if ds == [] {
      GrewNothing(dis, log);
    } else {
      var last := ProcessDigests(dis, ds, out, log).value.1;
      assert ds == [ds[0]] + ds[1..];
      match Take(dis, ds[0], 3, log)
      case Unknown(next) =>
        GrewUnknown(dis, ds[0], 3, log);
        DigestsGrow(dis, ds[1..], out, next);
        GrewBoth(dis, log, next, last, multiset{ds[0]}, multiset(ds[1..]));
      case Content(items, next) =>
        var (v, end) := Process(dis, items[2], next).value;
        ProcessGrows(dis, items[2], next);
        GrewContent(dis, ds[0], 3, log, end);
        DigestsGrow(dis, ds[1..], out + [Member(items[1].s, v)], end);
        GrewBoth(dis, log, end, last, multiset{ds[0]}, multiset(ds[1..]));
    }
  }

  lemma {:induction false} ItemsGrow(dis: Map, js: seq<Json>, res: seq<Json>, log: Log)
    requires ProcessItems(dis, js, res, log).Some?
    ensures Grew(dis, log, ProcessItems(dis, js, res, log).value.1, ItemsDigests(js))
    decreases dis.Keys - Seen(log), true, js, 0
  {
    if js == [] {
      GrewNothing(dis, log);
    } else {
      var last := ProcessItems(dis, js, res, log).value.1;
      match Marker(js[0])
      case Some(d) =>
        match Take(dis, d, 2, log) {
          case Unknown(next) =>
            GrewUnknown(dis, d, 2, log);
            ItemsGrow(dis, js[1..], res, next);
            GrewBoth(dis, log, next, last, multiset{d}, ItemsDigests(js[1..]));
          case Content(items, next) =>
            var (v, end) := Process(dis, items[1], next).value;
            ProcessGrows(dis, items[1], next);
            GrewContent(dis, d, 2, log, end);
            ItemsGrow(dis, js[1..], res + [v], end);
            GrewBoth(dis, log, end, last, multiset{d}, ItemsDigests(js[1..]));
        }
      case None =>
        var (v, next) := Process(dis, js[0], log).value;
        ProcessGrows(dis, js[0], log);
        ItemsGrow(dis, js[1..], res + [v], next);
        GrewBoth(dis, log, next, last, DigestsIn(js[0]), ItemsDigests(js[1..]));
    }
  }

  const START: Log := Log([], [])

  /** The payload is accepted: it is processed, and every Disclosure was used. */
  predicate Accepts(dis: Map, body: Json) {
    Process(dis, body, START).Some? && dis.Keys <= set d | d in Process(dis, body, START).value.1.used
  }

  /** On acceptance every Disclosure was used exactly once, and in the payload and all the Disclosures together no digest stands twice. */
  lemma EveryDisclosureOnce(dis: Map, body: Json)
    requires Accepts(dis, body)
    ensures var log := Process(dis, body, START).value.1;
            && multiset(log.used) == multiset(dis.Keys)
            && multiset(log.met) == DigestsIn(body) + Held(dis, log.used)
            && NoRepeat(log.met)
            && (forall d :: (DigestsIn(body) + Held(dis, log.used))[d] <= 1)
            && (forall d <- dis :: (DigestsIn(body) + Held(dis, log.used))[d] == 1)
  {
    ProcessGrows(dis, body, START);
    var log := Process(dis, body, START).value.1;
    assert log.used[0..] == log.used && multiset(START.met) == multiset{};
    assert LogOk(dis, START);
    forall d ensures multiset(log.met)[d] <= 1 && (d in log.met ==> multiset(log.met)[d] == 1) {
      CountsOnce(log.met, d);
    }
    forall d ensures multiset(log.used)[d] == multiset(dis.Keys)[d] {
      CountsOnce(log.used, d);
    }
    forall d <- dis ensures multiset(log.met)[d] == 1 {
      assert d in log.used;
    }
  }

  lemma {:induction false} CountsOnce(ds: seq<string>, d: string)
    requires NoRepeat(ds)
    ensures multiset(ds)[d] == if d in ds then 1 else 0
    decreases |ds|
  {
    if ds != [] {
      assert ds == [ds[0]] + ds[1..];
      CountsOnce(ds[1..], d);
      if d == ds[0] {
        assert d !in ds[1..];
      }
    }
  }

  /* ---------- values without digests ---------- */

  predicate NameAllowed(key: string) {
    key != SD && key != DOTS && key != SD_ALG
  }

  /** No name that the format reserves, at any depth. */
  predicate NamesOk(j: Json)
    decreases j, 1
  {
    match j
    case Obj(ms) => MembersNamesOk(ms)
    case Arr(items) => ItemsNamesOk(items)
    case _ => true
  }

  predicate MembersNamesOk(ms: seq<Member>)
    decreases ms, 0
  {
    ms == [] || (NameAllowed(ms[0].key) && NamesOk(ms[0].value) && MembersNamesOk(ms[1..]))
  }

  predicate ItemsNamesOk(js: seq<Json>)
    decreases js, 0
  {
    js == [] || (NamesOk(js[0]) && ItemsNamesOk(js[1..]))
  }

  lemma {:induction false} NotReserved(ms: seq<Member>, key: string)
    requires MembersNamesOk(ms) && !NameAllowed(key)
    ensures Get(ms, key) == None
    decreases |ms|
  {
    if ms != [] {
      NotReserved(ms[1..], key);
    }
  }

  /** Processing leaves such a value, and the log, as they are. */
  lemma {:induction false} PlainIsKept(dis: Map, j: Json, log: Log)
    requires NamesOk(j)
    ensures Process(dis, j, log) == Some((j, log))
    decreases j, 1
  {
    match j
    case Obj(ms) =>
      NotReserved(ms, SD);
      PlainMembersAreKept(dis, ms, [], log);
      assert [] + ms == ms;
    case Arr(items) =>
      PlainItemsAreKept(dis, items, [], log);
      assert [] + items == items;
    case _ =>
  }

  lemma {:induction false} PlainMembersAreKept(dis: Map, ms: seq<Member>, out: seq<Member>, log: Log)
    requires MembersNamesOk(ms)
    ensures ProcessMembers(dis, ms, out, log) == Some((out + ms, log))
    decreases ms, 0
  {
    if ms == [] {
      assert out + ms == out;
    } else {
      PlainIsKept(dis, ms[0].value, log);
      PlainMembersAreKept(dis, ms[1..], out + [ms[0]], log);
      assert out + [ms[0]] + ms[1..] == out + ms;
    }
  }

  lemma NoMarker(j: Json)
    requires NamesOk(j)
    ensures Marker(j) == None
  {
    if j.Obj? {
      NotReserved(j.members, DOTS);
    }
  }

  lemma {:induction false} PlainItemsAreKept(dis: Map, js: seq<Json>, res: seq<Json>, log: Log)
    requires ItemsNamesOk(js)
    ensures ProcessItems(dis, js, res, log) == Some((res + js, log))
    decreases js, 0
  {
    if js == [] {
      assert res + js == res;
    } else {
      NoMarker(js[0]);
      PlainIsKept(dis, js[0], log);
      PlainItemsAreKept(dis, js[1..], res + [js[0]], log);
      assert res + [js[0]] + js[1..] == res + js;
    }
  }

  /* ---------- processing as the verifier does it ---------- */

  /** The verifier at work: the digests met, and those whose Disclosure was used. */
  class Processor {
    const dis: Map
    var seen: set<string>
    var used: set<string>
    ghost var log: Log

    ghost predicate Valid()
      reads this
    {
      seen == Seen(log) && used == set d | d in log.used
    }

    constructor (dis: Map)
      ensures Valid() && this.dis == dis && log == START
    {
      this.dis, seen, used, log := dis, {}, {}, START;
    }

    /** Meet a digest: None rejects, Some([]) has no Disclosure. */
    method TakeDigest(d: string, n: nat) returns (r: Option<seq<Json>>)
      requires Valid() && 0 < n
      modifies this
      ensures Valid() && old(seen) <= seen
      ensures match Take(dis, d, n, old(log))
              case Rejected => r == None
              case Unknown(next) => r == Some([]) && log == next
              case Content(items, next) => r == Some(items) && log == next
    {
      if d in seen {
        return None;
      }
      seen := seen + {d};
      log := Log(log.met + [d], log.used);
      if d !in dis {
        return Some([]);
      }
      used := used + {d};
      log := Log(log.met, log.used + [d]);
      match Load(dis[d]) {
        case Some(Arr(items)) =>
          if |items| != n || !items[0].Str? {
            return None;
          }
          return Some(items);
        case _ =>
          return None;
      }
    }

    method ProcessNode(node: Json) returns (r: Option<Json>)
      requires Valid()
      modifies this
      ensures Valid() && old(seen) <= seen
      ensures r.Some? <==> Process(dis, node, old(log)).Some?
      ensures r.Some? ==> Process(dis, node, old(log)) == Some((r.value, log))
      decreases dis.Keys - seen, true, node, 1
    {
      match node {
        case Obj(ms) =>
          if !SdOk(ms) {
            return None;
          }
          var out := ProcessPlain(ms);
          if out == None {
            return None;
          }
          out := ProcessSd(SdOf(ms), out.value);
          return if out == None then None else Some(Obj(out.value));
        case Arr(items) =>
          var res := ProcessArray(items);
          return if res == None then None else Some(Arr(res.value));
        case _ =>
          return Some(node);
      }
    }

    /** The members of an object but for its digests. */
    method ProcessPlain(ms: seq<Member>) returns (r: Option<seq<Member>>)
      requires Valid()
      modifies this
      ensures Valid() && old(seen) <= seen
      ensures r.Some? <==> ProcessMembers(dis, ms, [], old(log)).Some?
      ensures r.Some? ==> ProcessMembers(dis, ms, [], old(log)) == Some((r.value, log))
      decreases dis.Keys - seen, true, ms, 0
    {
      var out: seq<Member> := [];
      for k := 0 to |ms|
        invariant Valid() && old(seen) <= seen
        invariant ProcessMembers(dis, ms, [], old(log)) == ProcessMembers(dis, ms[k..], out, log)
      {
        assert ms[k..][1..] == ms[k + 1..];
        if ms[k].key != SD {
          var v := ProcessNode(ms[k].value);
          if v == None {
            return None;
          }
          out := out + [Member(ms[k].key, v.value)];
        }
      }
      return Some(out);
    }

    /** The claims the digests of an object name, added to those it has. */
    method ProcessSd(ds: seq<string>, have: seq<Member>) returns (r: Option<seq<Member>>)
      requires Valid()
      modifies this
      ensures Valid() && old(seen) <= seen
      ensures r.Some? <==> ProcessDigests(dis, ds, have, old(log)).Some?
      ensures r.Some? ==> ProcessDigests(dis, ds, have, old(log)) == Some((r.value, log))
      decreases dis.Keys - seen, false, |ds|
    {
      var out := have;
      for k := 0 to |ds|
        invariant Valid() && old(seen) <= seen
        invariant ProcessDigests(dis, ds, have, old(log)) == ProcessDigests(dis, ds[k..], out, log)
      {
        assert ds[k..][1..] == ds[k + 1..];
        var c := TakeDigest(ds[k], 3);
        if c == None {
          return None;
        }
        if c.value != [] {
          if !NameOk(c.value, out) {
            return None;
          }
          var v := ProcessNode(c.value[2]);
          if v == None {
            return None;
          }
          out := out + [Member(c.value[1].s, v.value)];
        }
      }
      return Some(out);
    }

    /** The elements of an array; those whose digest has no Disclosure are left out. */
    method ProcessArray(js: seq<Json>) returns (r: Option<seq<Json>>)
      requires Valid()
      modifies this
      ensures Valid() && old(seen) <= seen
      ensures r.Some? <==> ProcessItems(dis, js, [], old(log)).Some?
      ensures r.Some? ==> ProcessItems(dis, js, [], old(log)) == Some((r.value, log))
      decreases dis.Keys - seen, true, js, 0
    {
      var res: seq<Json> := [];
      for k := 0 to |js|
        invariant Valid() && old(seen) <= seen
        invariant ProcessItems(dis, js, [], old(log)) == ProcessItems(dis, js[k..], res, log)
      {
        assert js[k..][1..] == js[k + 1..];
        if Marker(js[k]).Some? {
          var c := TakeDigest(Marker(js[k]).value, 2);
          if c == None {
            return None;
          }
          if c.value != [] {
            var v := ProcessNode(c.value[1]);
            if v == None {
              return None;
            }
            res := res + [v.value];
          }
        } else {
          var v := ProcessNode(js[k]);
          if v == None {
            return None;
          }
          res := res + [v.value];
        }
      }
      return Some(res);
    }
  }
}
