/**
 Ledger instances over a file that another writer may cut at any place between two appends.
 */
module LedgerCuts {
  import opened Wrappers
  import opened JsonText
  import opened JsonParser
  import opened JsonPrinter
  import opened LedgerLines
  import opened LedgerChain
  import opened LedgerReaders
  import opened LedgerAppend
  import opened LedgerStore
  import opened LedgerRuns

  /* ---------- one append to a file of any content ---------- */

  /** A file shorter than what the instance has read is refused: nothing is written, and the instance stays as it is. */
  lemma ShorterIsRefused(h: Text -> Text, inst: Instance, text: Text)
    requires |text| < inst.size
    ensures Resynced(h, inst, text) == None
  {
  }

  lemma {:induction false} DecimalFixes(m: nat, n: nat)
    requires Decimal(m) == Decimal(n)
    ensures m == n
  {
    assert DigitsValue(Decimal(m)) == m && DigitsValue(Decimal(n)) == n;
  }

  /** A line made for one state is walked through from another only when the two are one. */
  lemma LineFitsOneState(h: Text -> Text, st: State, other: State, item: Item)
    requires Checked(item) && IsHex64(st.last) && IsHex64(other.last) && st != other
    ensures Walk(h, true, Lines(LineFor(h, st, item)), other) == None
  {
    var p := Print(Obj(EntryFor(h, st, item)));
    PrintedObjectEnds(h, st, item);
    LineEndsLines(p);
    WalkTwo(h, true, p, other);
    LineIsRead(h, st, item, []);
    StripObject(p);
    assert [] + p == p;
    EntryFollows(h, true, st, item);
    if st.count != other.count && Decimal(st.count) == Decimal(other.count) {
      DecimalFixes(st.count, other.count);
    }
  }

  /**
   An append to a file that verifies leaves one that verifies if and only if the file's last
   line is blank, the data is one a reader accepts, and the state the instance has arrived
   at is the state of the file.
   */
  lemma AppendFits(h: Text -> Text, text: Text, file: State, st: State, item: Item)
    requires Checked(item) && IsHex64(st.last) && !Lone(text)
    requires Walk(h, true, Lines(text), START) == Some(file)
    ensures Verifies(h, text + LineFor(h, st, item)) <==> EndsBlank(text) && Loadable(st, item) && st == file
  {
    WalkKeepsHex(h, true, Lines(text), START);
    if EndsBlank(text) {
      WalkText(h, true, text, LineFor(h, st, item), START);
      if st == file {
        LineWalks(h, true, st, item);
      } else {
        LineFitsOneState(h, st, file, item);
      }
    } else {
      AppendRunsOn(h, true, text, START, st, item);
    }
  }

  /**
   An instance whose size is that of the file is taken as up to date whatever the file holds:
   when its last hash is another than the file's, it goes on from its own, and what it writes
   breaks the ledger.
   */
  lemma SameSizeIsNotSameFile(h: Text -> Text, text: Text, file: State, inst: Instance, z: Item)
    requires Walk(h, true, Lines(text), START) == Some(file) && !Lone(text) && Checked(z)
    requires |text| == inst.size && IsHex64(inst.state.last) && inst.state.last != file.last
    ensures Verifies(h, text) && Resynced(h, inst, text) == Some(inst) && !Verifies(h, text + LineFor(h, inst.state, z))
  {
    SizeIsTrusted(h, inst, text);
    OtherState(h, text, file, inst.state, z);
  }

  /** So it is with an instance that appended x behind a text, once x is cut off and y, with a line of the same length and another hash, stands in its place. */
  lemma ReplacedLineGoesUnseen(h: Text -> Text, text: Text, before: Instance, x: Item, y: Item)
    requires before.size == |text| && |LineFor(h, before.state, x)| == |LineFor(h, before.state, y)|
    requires HashEntry(h, EntryFor(h, before.state, x)) != HashEntry(h, EntryFor(h, before.state, y))
    ensures var inst := Appended(h, before, x);
            && inst.size == |text + LineFor(h, before.state, y)|
            && inst.state.last != After(h, EntryFor(h, before.state, y), before.state).last
  {
    AppendedIs(h, before, x);
  }

  lemma AppendedIs(h: Text -> Text, inst: Instance, x: Item)
    ensures Appended(h, inst, x).state == After(h, EntryFor(h, inst.state, x), inst.state)
    ensures Appended(h, inst, x).size == inst.size + |LineFor(h, inst.state, x)|
  {
  }

  lemma SizeIsTrusted(h: Text -> Text, inst: Instance, text: Text)
    requires |text| == inst.size
    ensures Resynced(h, inst, text) == Some(inst)
  {
  }

  lemma OtherState(h: Text -> Text, text: Text, file: State, st: State, item: Item)
    requires Checked(item) && IsHex64(st.last) && !Lone(text)
    requires Walk(h, true, Lines(text), START) == Some(file) && st.last != file.last
    ensures !Verifies(h, text + LineFor(h, st, item))
  {
    AppendFits(h, text, file, st, item);
  }

  /* ---------- what an instance has read ---------- */

  /** What the instance has read is a whole run of lines at the front of the file, and its state is the one they lead to. */
  ghost predicate Knows(h: Text -> Text, text: Text, inst: Instance) {
    && inst.size <= |text| && EndsBlank(text[..inst.size])
    && Walk(h, false, Lines(text[..inst.size]), START) == Some(inst.state)
  }

  /** An instance that knows the front of the file is brought up to date exactly when the whole file is replayed, and then to the state of the file. */
  lemma KnowingResync(h: Text -> Text, text: Text, inst: Instance)
    requires Knows(h, text, inst)
    ensures Resynced(h, inst, text) ==
            match Walk(h, false, Lines(text), START)
            case None => None
            case Some(st) => Some(inst.(state := st, size := |text|))
  {
    FrontAndRest(h, text, inst);
    ResyncedTail(h, inst, text, text[inst.size..]);
    if |text| == inst.size {
      assert text[..inst.size] == text;
    }
  }

  lemma FrontAndRest(h: Text -> Text, text: Text, inst: Instance)
    requires Knows(h, text, inst)
    ensures Walk(h, false, Lines(text), START) == Walk(h, false, Lines(text[inst.size..]), inst.state)
  {
    assert text == text[..inst.size] + text[inst.size..];
    WalkText(h, false, text[..inst.size], text[inst.size..], START);
  }

  lemma KnowsMore(h: Text -> Text, text: Text, more: Text, inst: Instance)
    requires Knows(h, text, inst)
    ensures Knows(h, text + more, inst)
  {
    assert (text + more)[..inst.size] == text[..inst.size];
  }

  lemma KnowsStill(h: Text -> Text, text: Text, k: nat, inst: Instance)
    requires Knows(h, text, inst) && inst.size <= k <= |text|
    ensures Knows(h, text[..k], inst)
  {
    assert text[..k][..inst.size] == text[..inst.size];
  }

  /* ---------- runs with cuts ---------- */

  /** whole: all that the instance has read is still in the file, and is what a reader accepts. */
  datatype Holder = Holder(inst: Instance, whole: bool)

  datatype CutWorld = CutWorld(text: Text, holders: seq<Holder>)

  datatype CutStep =
    | Opening(batch: bool, batchSize: nat)
    | Appending(a: nat, item: Item)
    | Cutting(k: nat)

  predicate CanTake(w: CutWorld, s: CutStep) {
    match s
    case Opening(_, _) => true
    case Appending(a, item) => a < |w.holders| && Checked(item)
    case Cutting(k) => k <= |w.text|
  }

  function Cut(holders: seq<Holder>, k: nat): (cut: seq<Holder>)
    ensures |cut| == |holders|
    ensures forall a :: 0 <= a < |cut| ==> cut[a] == Holder(holders[a].inst, holders[a].whole && holders[a].inst.size <= k)
  {
    seq(|holders|, a requires 0 <= a < |holders| => Holder(holders[a].inst, holders[a].whole && holders[a].inst.size <= k))
  }

  function Step(h: Text -> Text, w: CutWorld, s: CutStep): CutWorld
    requires CanTake(w, s)
  {
    match s
    case Opening(batch, batchSize) =>
      (match Walk(h, false, Lines(w.text), START)
       case None => w
       case Some(st) =>
         var inst := Instance(batch, if batchSize < 1 then 1 else batchSize, st, |w.text|, 0);
         w.(holders := w.holders + [Holder(inst, EndsBlank(w.text))]))
    case Appending(a, item) =>
      (match Resynced(h, w.holders[a].inst, w.text)
       case None => w
       case Some(up) =>
         var whole := w.holders[a].whole && EndsBlank(w.text) && Loadable(up.state, item);
         CutWorld(w.text + LineFor(h, up.state, item), w.holders[a := Holder(Appended(h, Counted(up), item), whole)]))
    case Cutting(k) => CutWorld(w.text[..k], Cut(w.holders, k))
  }

  ghost predicate HoldersKnow(h: Text -> Text, w: CutWorld) {
    forall a :: 0 <= a < |w.holders| && w.holders[a].whole ==> Knows(h, w.text, w.holders[a].inst)
  }

  lemma OpeningKnows(h: Text -> Text, w: CutWorld, batch: bool, batchSize: nat)
    requires HoldersKnow(h, w)
    ensures HoldersKnow(h, Step(h, w, Opening(batch, batchSize)))
  {
    assert w.text[..|w.text|] == w.text;
  }

  /** Having appended, the instance knows the whole file. */
  lemma WriterKnows(h: Text -> Text, text: Text, inst: Instance, up: Instance, item: Item)
    requires Knows(h, text, inst) && Resynced(h, inst, text) == Some(up) && EndsBlank(text) && Checked(item) && Loadable(up.state, item)
    ensures Knows(h, text + LineFor(h, up.state, item), Appended(h, Counted(up), item))
  {
    KnowingResync(h, text, inst);
    WalkKeepsHex(h, false, Lines(text), START);
    AppendPasses(h, false, text, START, up.state, item);
    AppendedIs(h, Counted(up), item);
    KnowsAll(h, text + LineFor(h, up.state, item), Appended(h, Counted(up), item));
  }

  lemma KnowsAll(h: Text -> Text, text: Text, inst: Instance)
    requires inst.size == |text| && EndsBlank(text) && Walk(h, false, Lines(text), START) == Some(inst.state)
    ensures Knows(h, text, inst)
  {
    assert text[..|text|] == text;
  }

  lemma AppendingIs(h: Text -> Text, w: CutWorld, a: nat, item: Item, up: Instance)
    requires CanTake(w, Appending(a, item)) && Resynced(h, w.holders[a].inst, w.text) == Some(up)
    ensures var whole := w.holders[a].whole && EndsBlank(w.text) && Loadable(up.state, item);
            Step(h, w, Appending(a, item)) ==
            CutWorld(w.text + LineFor(h, up.state, item), w.holders[a := Holder(Appended(h, Counted(up), item), whole)])
  {
  }

  lemma AppendingKnows(h: Text -> Text, w: CutWorld, a: nat, item: Item)
    requires HoldersKnow(h, w) && CanTake(w, Appending(a, item))
    ensures HoldersKnow(h, Step(h, w, Appending(a, item)))
  {
    if Resynced(h, w.holders[a].inst, w.text).Some? {
      var up := Resynced(h, w.holders[a].inst, w.text).value;
      AppendingIs(h, w, a, item, up);
      var v := Step(h, w, Appending(a, item));
      if v.holders[a].whole {
        WriterKnows(h, w.text, w.holders[a].inst, up, item);
      }
      OthersKnow(h, w, v, a, LineFor(h, up.state, item));
    }
  }

  lemma OthersKnow(h: Text -> Text, w: CutWorld, v: CutWorld, a: nat, line: Text)
    requires HoldersKnow(h, w) && a < |w.holders| == |v.holders| && v.holders == w.holders[a := v.holders[a]] && v.text == w.text + line
    requires v.holders[a].whole ==> Knows(h, v.text, v.holders[a].inst)
    ensures HoldersKnow(h, v)
  {
    forall b | 0 <= b < |v.holders| && v.holders[b].whole ensures Knows(h, v.text, v.holders[b].inst) {
      if b != a {
        KnowsMore(h, w.text, line, w.holders[b].inst);
      }
    }
  }

  lemma CuttingKnows(h: Text -> Text, w: CutWorld, k: nat)
    requires HoldersKnow(h, w) && k <= |w.text|
    ensures HoldersKnow(h, Step(h, w, Cutting(k)))
  {
    var v := Step(h, w, Cutting(k));
    forall a | 0 <= a < |v.holders| && v.holders[a].whole ensures Knows(h, v.text, v.holders[a].inst) {
      KnowsStill(h, w.text, k, w.holders[a].inst);
    }
  }

  /** The worlds a run passes through, when each step can be taken. */
  ghost predicate IsRun(h: Text -> Text, steps: seq<CutStep>, ws: seq<CutWorld>) {
    && |ws| == |steps| + 1
    && forall i :: 0 <= i < |steps| ==> CanTake(ws[i], steps[i]) && ws[i + 1] == Step(h, ws[i], steps[i])
  }

  /** Over any run, cuts at any place included, an instance all of whose lines are left knows the front of the file. */
  lemma {:induction false} RunKnows(h: Text -> Text, steps: seq<CutStep>, ws: seq<CutWorld>, i: nat)
    requires IsRun(h, steps, ws) && ws[0].holders == [] && i < |ws|
    ensures HoldersKnow(h, ws[i])
    decreases i
  {
    if 0 < i {
      RunKnows(h, steps, ws, i - 1);
      match steps[i - 1]
      case Opening(batch, batchSize) => OpeningKnows(h, ws[i - 1], batch, batchSize);
      case Appending(a, item) => AppendingKnows(h, ws[i - 1], a, item);
      case Cutting(k) => CuttingKnows(h, ws[i - 1], k);
    }
  }

  /**
   Over any run with cuts at any place, from any file: an append by an instance that has read
   more than is left of the file changes nothing; one by an instance all of whose lines are
   left is taken if and only if the file is replayed, and what it writes is the entry due
   behind the state of the file, so that the chain that is left goes on.
   */
  lemma AppendsContinue(h: Text -> Text, steps: seq<CutStep>, ws: seq<CutWorld>, i: nat)
    requires IsRun(h, steps, ws) && ws[0].holders == [] && i < |steps| && steps[i].Appending?
    ensures var w, v, a, item := ws[i], ws[i + 1], steps[i].a, steps[i].item;
            && (|w.text| < w.holders[a].inst.size ==> v == w)
            && (w.holders[a].whole ==>
                  match Walk(h, false, Lines(w.text), START)
                  case None => v == w
                  case Some(st) => v.text == w.text + LineFor(h, st, item) && Follows(h, true, EntryFor(h, st, item), st))
  {
    var w, a, item := ws[i], steps[i].a, steps[i].item;
    RunKnows(h, steps, ws, i);
    if w.holders[a].whole {
      KnowingResync(h, w.text, w.holders[a].inst);
      if Walk(h, false, Lines(w.text), START).Some? {
        EntryFollows(h, true, Walk(h, false, Lines(w.text), START).value, item);
      }
    }
  }

  /** A step that keeps a ledger: a cut at the end of a line, or an append by an instance all of whose lines are left, of data a reader accepts, or one that is refused. */
  ghost predicate Careful(h: Text -> Text, w: CutWorld, s: CutStep)
    requires CanTake(w, s)
  {
    match s
    case Opening(_, _) => true
    case Cutting(k) => EndsBlank(w.text[..k])
    case Appending(a, item) =>
      match Resynced(h, w.holders[a].inst, w.text)
      case None => true
      case Some(up) => w.holders[a].whole && Loadable(up.state, item)
  }

  lemma CarefulKeeps(h: Text -> Text, w: CutWorld, s: CutStep)
    requires HoldersKnow(h, w) && CanTake(w, s) && Careful(h, w, s) && Verifies(h, w.text) && EndsBlank(w.text)
    ensures Verifies(h, Step(h, w, s).text) && EndsBlank(Step(h, w, s).text)
  {
    match s
    case Opening(_, _) =>
    case Cutting(k) =>
      assert w.text == w.text[..k] + w.text[k..];
      WalkText(h, true, w.text[..k], w.text[k..], START);
    case Appending(a, item) =>
      var st := Walk(h, true, Lines(w.text), START).value;
      IndexedIsReplayed(h, Lines(w.text), START);
      WalkKeepsHex(h, true, Lines(w.text), START);
      if Resynced(h, w.holders[a].inst, w.text).Some? {
        KnowingResync(h, w.text, w.holders[a].inst);
        AppendPasses(h, true, w.text, START, st, item);
      }
  }

  /** Over any run of such steps, from a ledger that verifies and ends with LF, the file verifies at every moment. */
  lemma {:induction false} CarefulRunsVerify(h: Text -> Text, steps: seq<CutStep>, ws: seq<CutWorld>, i: nat)
    requires IsRun(h, steps, ws) && ws[0].holders == [] && i < |ws|
    requires Verifies(h, ws[0].text) && EndsBlank(ws[0].text)
    requires forall j :: 0 <= j < |steps| ==> Careful(h, ws[j], steps[j])
    ensures Verifies(h, ws[i].text) && EndsBlank(ws[i].text)
    decreases i
  {
    if 0 < i {
      CarefulRunsVerify(h, steps, ws, i - 1);
      RunKnows(h, steps, ws, i - 1);
      CarefulKeeps(h, ws[i - 1], steps[i - 1]);
    }
  }
}
