/**
 Any number of ledger instances over one file, each append a series of steps under the
 file lock, in any interleaving.

 The invariant says what the file holds at every moment: the text the run started from, one
 whole line for every append that is complete, and, while some instance holds the lock, at
 most the front of one more line. Every instance describes a prefix of the file. One
 lemma for each kind of step shows that the step keeps the invariant for the instance that
 takes it, and that the others still describe what they described, since the file only
 grows.
 */
module LedgerRuns {
  import opened Wrappers
  import opened JsonText
  import opened JsonPrinter
  import opened LedgerLines
  import opened LedgerChain
  import opened LedgerReaders
  import opened LedgerAppend
  import opened LedgerStore

  /* ---------- what a series of appends writes ---------- */

  function StateAfter(h: Text -> Text, st: State, items: seq<Item>): State {
    if items == [] then st
    else
      var before := StateAfter(h, st, items[..|items| - 1]);
      After(h, EntryFor(h, before, items[|items| - 1]), before)
  }

  function Rendered(h: Text -> Text, st: State, items: seq<Item>): Text {
    if items == [] then []
    else
      var front := items[..|items| - 1];
      Rendered(h, st, front) + LineFor(h, StateAfter(h, st, front), items[|items| - 1])
  }

  /** Every append of the series is one a reader accepts. */
  predicate AllLoadable(h: Text -> Text, st: State, items: seq<Item>) {
    items == [] ||
    var front, last := items[..|items| - 1], items[|items| - 1];
    AllLoadable(h, st, front) && Loadable(StateAfter(h, st, front), last)
  }

  /** Every append of the series passed what an append checks. */
  ghost predicate AllChecked(items: seq<Item>) {
    forall x <- items :: Checked(x)
  }

  lemma {:induction false} StateAfterIs(h: Text -> Text, st: State, items: seq<Item>)
    requires IsHex64(st.last)
    ensures IsHex64(StateAfter(h, st, items).last) && StateAfter(h, st, items).count == st.count + |items|
    decreases |items|
  {
    if items != [] {
      StateAfterIs(h, st, items[..|items| - 1]);
    }
  }

  /** A line ends with LF, and is walked through exactly when its append is loadable. */
  lemma LineWalks(h: Text -> Text, indexed: bool, st: State, item: Item)
    requires Checked(item) && IsHex64(st.last)
    ensures EndsBlank(LineFor(h, st, item))
    ensures Walk(h, indexed, Lines(LineFor(h, st, item)), st) ==
            if Loadable(st, item) then Some(After(h, EntryFor(h, st, item), st)) else None
  {
    var line := LineFor(h, st, item);
    WalkTwo(h, indexed, [], st);
    AppendPasses(h, indexed, [], st, st, item);
    assert [] + line == line;
  }

  /** What a series of appends writes is walked through exactly when each of them is loadable, and then leaves the state the series leaves. */
  lemma {:induction false} RenderedWalks(h: Text -> Text, indexed: bool, st: State, items: seq<Item>)
    requires IsHex64(st.last) && AllChecked(items)
    ensures EndsBlank(Rendered(h, st, items))
    ensures Walk(h, indexed, Lines(Rendered(h, st, items)), st) ==
            if AllLoadable(h, st, items) then Some(StateAfter(h, st, items)) else None
    decreases |items|
  {
    if items == [] {
      WalkTwo(h, indexed, [], st);
    } else {
      var front, last := items[..|items| - 1], items[|items| - 1];
      var mid := StateAfter(h, st, front);
      RenderedWalks(h, indexed, st, front);
      StateAfterIs(h, st, front);
      LineWalks(h, indexed, mid, last);
      WalkText(h, indexed, Rendered(h, st, front), LineFor(h, mid, last), st);
      EndsBlankJoin(Rendered(h, st, front), LineFor(h, mid, last));
    }
  }

  lemma OneMore(h: Text -> Text, st: State, items: seq<Item>, x: Item)
    ensures var mid := StateAfter(h, st, items);
            && StateAfter(h, st, items + [x]) == After(h, EntryFor(h, mid, x), mid)
            && Rendered(h, st, items + [x]) == Rendered(h, st, items) + LineFor(h, mid, x)
            && (AllLoadable(h, st, items + [x]) <==> AllLoadable(h, st, items) && Loadable(mid, x))
  {
    assert (items + [x])[..|items|] == items;
  }

  /** A series is what its first part writes, and then what the second part writes from there. */
  lemma {:induction false} RenderedSplit(h: Text -> Text, st: State, a: seq<Item>, b: seq<Item>)
    ensures var mid := StateAfter(h, st, a);
            && Rendered(h, st, a + b) == Rendered(h, st, a) + Rendered(h, mid, b)
            && StateAfter(h, st, a + b) == StateAfter(h, mid, b)
            && (AllLoadable(h, st, a + b) <==> AllLoadable(h, st, a) && AllLoadable(h, mid, b))
    decreases |b|
  {
    var mid := StateAfter(h, st, a);
    if b == [] {
      assert a + b == a;
      assert Rendered(h, st, a) + [] == Rendered(h, st, a);
    } else {
      var front, x := b[..|b| - 1], b[|b| - 1];
      assert a + b == (a + front) + [x] && b == front + [x];
      RenderedSplit(h, st, a, front);
      OneMore(h, st, a + front, x);
      OneMore(h, mid, front, x);
      Assoc(Rendered(h, st, a), Rendered(h, mid, front), LineFor(h, StateAfter(h, mid, front), x));
    }
  }

  /* ---------- the steps ---------- */

  /** Where an instance is in an append. */
  datatype Phase =
    | Idle
    | Locked(data: Value)              // holds the file lock
    | Ready(data: Value)               // up to date with the file
    | Writing(item: Item, line: Text, done: nat) // that much of its line is in the file
    | Written(item: Item)              // the whole line is in the file
    | Saved(item: Item)                // counted, and synced when due
    | Released(item: Item)             // the lock is given back, the instance's own fields are not yet moved on

  datatype Actor = Actor(inst: Instance, phase: Phase)

  datatype Logged = Logged(who: nat, item: Item)

  /** The file, its lock, the instances, the appends whose line is complete, and how many of those are on disk. */
  datatype World = World(text: Text, lock: Option<nat>, actors: seq<Actor>, log: seq<Logged>, synced: nat)

  datatype Step =
    | Open(batch: bool, batchSize: nat)
    | Acquire(a: nat, data: Value)
    | Resync(a: nat)
    | Begin(a: nat, ts: Text)
    | Write(a: nat, n: nat)
    | Save(a: nat)
    | Release(a: nat)
    | Update(a: nat)
    | Flush(a: nat)

  function With(w: World, a: nat, actor: Actor): World
    requires a < |w.actors|
  {
    w.(actors := w.actors[a := actor])
  }

  function Items(log: seq<Logged>): (items: seq<Item>)
    ensures |items| == |log|
  {
    seq(|log|, k requires 0 <= k < |log| => log[k].item)
  }

  predicate CanStep(h: Text -> Text, w: World, s: Step) {
    match s
    case Open(_, _) => w.lock == None
    case Acquire(a, data) => a < |w.actors| && w.actors[a].phase.Idle? && w.lock == None && InMemory(data) && CheckPortable(data)
    case Resync(a) => a < |w.actors| && w.actors[a].phase.Locked?
    case Begin(a, ts) =>
      a < |w.actors| && w.actors[a].phase.Ready? && !Lone(ts)
    case Write(a, n) =>
      && a < |w.actors| && w.actors[a].phase.Writing?
      && 0 < n <= |w.actors[a].phase.line| - w.actors[a].phase.done
    case Save(a) => a < |w.actors| && w.actors[a].phase.Written?
    case Release(a) => a < |w.actors| && w.actors[a].phase.Saved?
    case Update(a) => a < |w.actors| && w.actors[a].phase.Released?
    case Flush(a) => a < |w.actors| && w.actors[a].phase.Idle?
  }

  function Took(h: Text -> Text, w: World, s: Step): World
    requires CanStep(h, w, s)
  {
    match s
    case Open(batch, batchSize) =>
      (match Walk(h, false, Lines(w.text), START)
       case None => w
       case Some(st) =>
         var inst := Instance(batch, if batchSize < 1 then 1 else batchSize, st, |w.text|, 0);
         w.(actors := w.actors + [Actor(inst, Idle)]))
    case Acquire(a, data) => With(w, a, w.actors[a].(phase := Locked(data))).(lock := Some(a))
    case Resync(a) =>
      (match Resynced(h, w.actors[a].inst, w.text)
       case None => With(w, a, w.actors[a].(phase := Idle)).(lock := None)
       case Some(inst) => With(w, a, Actor(inst, Ready(w.actors[a].phase.data))))
    case Begin(a, ts) =>
      var item := Item(ts, w.actors[a].phase.data);
      With(w, a, w.actors[a].(phase := Writing(item, LineFor(h, w.actors[a].inst.state, item), 0)))
    case Write(a, n) =>
      var inst, item, line, done := w.actors[a].inst, w.actors[a].phase.item, w.actors[a].phase.line, w.actors[a].phase.done;
      var written := w.(text := w.text + line[done..done + n]);
      if done + n < |line| then With(written, a, Actor(inst, Writing(item, line, done + n)))
      else With(written, a, Actor(inst, Written(item))).(log := w.log + [Logged(a, item)])
    case Save(a) =>
      var inst := w.actors[a].inst;
      With(w, a, Actor(Counted(inst), Saved(w.actors[a].phase.item))).(synced := if SyncDue(inst) then |w.log| else w.synced)
    case Release(a) => With(w, a, w.actors[a].(phase := Released(w.actors[a].phase.item))).(lock := None)
    case Update(a) => With(w, a, Actor(Appended(h, w.actors[a].inst, w.actors[a].phase.item), Idle))
    case Flush(a) =>
      var inst := w.actors[a].inst;
      if inst.pending == 0 then w else With(w, a, Actor(inst.(pending := 0), Idle)).(synced := |w.log|)
  }

  /** The world after a series of steps, when each of them can be taken. */
  function Run(h: Text -> Text, w: World, steps: seq<Step>): Option<World>
    decreases |steps|
  {
    if steps == [] then Some(w)
    else if CanStep(h, w, steps[0]) then Run(h, Took(h, w, steps[0]), steps[1..])
    else None
  }

  /** A file nobody has open yet. */
  function Fresh(text: Text): World {
    World(text, None, [], [], 0)
  }

  /* ---------- an append nobody disturbs ---------- */

  lemma RunOne(h: Text -> Text, w: World, s: Step, rest: seq<Step>)
    requires CanStep(h, w, s)
    ensures Run(h, w, [s] + rest) == Run(h, Took(h, w, s), rest)
  {
    assert ([s] + rest)[1..] == rest;
  }

  function FinishingSteps(a: nat): seq<Step> {
    [Save(a)] + ([Release(a)] + ([Update(a)] + []))
  }

  lemma FinishingRuns(h: Text -> Text, w: World, a: nat)
    requires a < |w.actors| && w.actors[a].phase.Written?
    ensures var inst, item := w.actors[a].inst, w.actors[a].phase.item;
            Run(h, w, FinishingSteps(a)) ==
            Some(World(w.text, None, w.actors[a := Actor(Appended(h, Counted(inst), item), Idle)],
                       w.log, if SyncDue(inst) then |w.log| else w.synced))
  {
    var inst, item, all := w.actors[a].inst, w.actors[a].phase.item, w.actors;
    var synced := if SyncDue(inst) then |w.log| else w.synced;
    var saved := World(w.text, w.lock, all[a := Actor(Counted(inst), Saved(item))], w.log, synced);
    var released := World(w.text, None, all[a := Actor(Counted(inst), Released(item))], w.log, synced);
    var done := World(w.text, None, all[a := Actor(Appended(h, Counted(inst), item), Idle)], w.log, synced);
    RunOne(h, w, Save(a), [Release(a)] + ([Update(a)] + []));
    assert Took(h, w, Save(a)) == saved;
    RunOne(h, saved, Release(a), [Update(a)] + []);
    assert Took(h, saved, Release(a)) == released;
    RunOne(h, released, Update(a), []);
    assert Took(h, released, Update(a)) == done;
    assert Run(h, done, []) == Some(done);
  }

  /** The steps of an append once the instance is up to date. */
  function WritingSteps(a: nat, ts: Text, n: nat): seq<Step> {
    [Begin(a, ts)] + ([Write(a, n)] + FinishingSteps(a))
  }

  lemma WritingRuns(h: Text -> Text, w: World, a: nat, ts: Text)
    requires a < |w.actors| && w.actors[a].phase.Ready? && !Lone(ts)
    ensures var inst, item := w.actors[a].inst, Item(ts, w.actors[a].phase.data);
            var line := LineFor(h, inst.state, item);
            Run(h, w, WritingSteps(a, ts, |line|)) ==
            Some(World(w.text + line, None, w.actors[a := Actor(Appended(h, Counted(inst), item), Idle)],
                       w.log + [Logged(a, item)], if SyncDue(inst) then |w.log| + 1 else w.synced))
  {
    var inst, item := w.actors[a].inst, Item(ts, w.actors[a].phase.data);
    var line := LineFor(h, inst.state, item);
    RunOne(h, w, Begin(a, ts), [Write(a, |line|)] + FinishingSteps(a));
    BeginIs(h, w, a, ts);
    LineNotEmpty(h, inst.state, item);
    WrittenWhole(h, With(w, a, Actor(inst, Writing(item, line, 0))), a);
    SetTwice(w.actors, a, Actor(inst, Writing(item, line, 0)), Actor(Appended(h, Counted(inst), item), Idle));
  }

  lemma BeginIs(h: Text -> Text, w: World, a: nat, ts: Text)
    requires CanStep(h, w, Begin(a, ts))
    ensures var inst, item := w.actors[a].inst, Item(ts, w.actors[a].phase.data);
            Took(h, w, Begin(a, ts)) == With(w, a, Actor(inst, Writing(item, LineFor(h, inst.state, item), 0)))
  {
  }

  lemma LineNotEmpty(h: Text -> Text, st: State, item: Item)
    ensures LineFor(h, st, item) != []
  {
  }

  lemma SetTwice(actors: seq<Actor>, a: nat, x: Actor, y: Actor)
    requires a < |actors|
    ensures actors[a := x][a := y] == actors[a := y]
  {
  }

  lemma WrittenWhole(h: Text -> Text, w: World, a: nat)
    requires a < |w.actors| && w.actors[a].phase.Writing? && w.actors[a].phase.done == 0 && w.actors[a].phase.line != []
    ensures var inst, item, line := w.actors[a].inst, w.actors[a].phase.item, w.actors[a].phase.line;
            Run(h, w, [Write(a, |line|)] + FinishingSteps(a)) ==
            Some(World(w.text + line, None, w.actors[a := Actor(Appended(h, Counted(inst), item), Idle)],
                       w.log + [Logged(a, item)], if SyncDue(inst) then |w.log| + 1 else w.synced))
  {
    var inst, item, line := w.actors[a].inst, w.actors[a].phase.item, w.actors[a].phase.line;
    RunOne(h, w, Write(a, |line|), FinishingSteps(a));
    WroteLast(h, w, a, |line|);
    var wrote := Took(h, w, Write(a, |line|));
    assert line[0..] == line;
    assert wrote.actors == w.actors[a := Actor(inst, Written(item))];
    FinishingRuns(h, wrote, a);
    assert wrote.actors[a := Actor(Appended(h, Counted(inst), item), Idle)]
           == w.actors[a := Actor(Appended(h, Counted(inst), item), Idle)];
  }

  /**
   An append that no other step disturbs, from the lock to its last step, leaves the file, the
   instance and the mark of what is on disk exactly as the object's Append does; a file that
   is refused is left alone, and so is the instance.
   */
  lemma AppendIsRun(h: Text -> Text, w: World, a: nat, ts: Text, data: Value)
    requires a < |w.actors| && w.actors[a].phase.Idle? && w.lock == None
    requires InMemory(data) && CheckPortable(data) && !Lone(ts)
    ensures var up, item := Resynced(h, w.actors[a].inst, w.text), Item(ts, data);
            match up
            case None => Run(h, w, [Acquire(a, data)] + ([Resync(a)] + [])) == Some(w)
            case Some(inst) =>
              var line := LineFor(h, inst.state, item);
              Run(h, w, [Acquire(a, data)] + ([Resync(a)] + WritingSteps(a, ts, |line|))) ==
              Some(World(w.text + line, None, w.actors[a := Actor(Appended(h, Counted(inst), item), Idle)],
                         w.log + [Logged(a, item)], if SyncDue(inst) then |w.log| + 1 else w.synced))
  {
    var before := w.actors[a].inst;
    AcquireIs(h, w, a, data);
    match Resynced(h, before, w.text)
    case None =>
      RunOne(h, w, Acquire(a, data), [Resync(a)] + []);
      RefusedRuns(h, With(w, a, Actor(before, Locked(data))).(lock := Some(a)), a);
      SetTwice(w.actors, a, Actor(before, Locked(data)), Actor(before, Idle));
      assert w.actors[a := Actor(before, Idle)] == w.actors;
    case Some(inst) =>
      var item := Item(ts, data);
      RunOne(h, w, Acquire(a, data), [Resync(a)] + WritingSteps(a, ts, |LineFor(h, inst.state, item)|));
      UpToDateRuns(h, With(w, a, Actor(before, Locked(data))).(lock := Some(a)), a, ts, inst);
      SetTwice(w.actors, a, Actor(before, Locked(data)), Actor(Appended(h, Counted(inst), item), Idle));
  }

  lemma AcquireIs(h: Text -> Text, w: World, a: nat, data: Value)
    requires CanStep(h, w, Acquire(a, data))
    ensures Took(h, w, Acquire(a, data)) == With(w, a, Actor(w.actors[a].inst, Locked(data))).(lock := Some(a))
  {
  }

  lemma RefusedRuns(h: Text -> Text, w: World, a: nat)
    requires CanStep(h, w, Resync(a)) && Resynced(h, w.actors[a].inst, w.text) == None
    ensures Run(h, w, [Resync(a)] + []) == Some(With(w, a, Actor(w.actors[a].inst, Idle)).(lock := None))
  {
    RunOne(h, w, Resync(a), []);
    var v := With(w, a, Actor(w.actors[a].inst, Idle)).(lock := None);
    assert Took(h, w, Resync(a)) == v && Run(h, v, []) == Some(v);
  }

  lemma ResyncTakes(h: Text -> Text, w: World, a: nat, inst: Instance)
    requires CanStep(h, w, Resync(a)) && Resynced(h, w.actors[a].inst, w.text) == Some(inst)
    ensures Took(h, w, Resync(a)) == With(w, a, Actor(inst, Ready(w.actors[a].phase.data)))
  {
  }

  lemma UpToDateRuns(h: Text -> Text, w: World, a: nat, ts: Text, inst: Instance)
    requires CanStep(h, w, Resync(a)) && Resynced(h, w.actors[a].inst, w.text) == Some(inst) && !Lone(ts)
    ensures var item := Item(ts, w.actors[a].phase.data);
            var line := LineFor(h, inst.state, item);
            Run(h, w, [Resync(a)] + WritingSteps(a, ts, |line|)) ==
            Some(World(w.text + line, None, w.actors[a := Actor(Appended(h, Counted(inst), item), Idle)],
                       w.log + [Logged(a, item)], if SyncDue(inst) then |w.log| + 1 else w.synced))
  {
    var data := w.actors[a].phase.data;
    var item := Item(ts, data);
    RunOne(h, w, Resync(a), WritingSteps(a, ts, |LineFor(h, inst.state, item)|));
    ResyncTakes(h, w, a, inst);
    WritingRuns(h, With(w, a, Actor(inst, Ready(data))), a, ts);
    SetTwice(w.actors, a, Actor(inst, Ready(data)), Actor(Appended(h, Counted(inst), item), Idle));
  }

  /* ---------- what every step keeps ---------- */

  /** A file as it is first found, and the state of its chain. */
  datatype Origin = Origin(text: Text, st: State)

  /** A ledger that verifies and whose last line is blank: an empty file, or one that ends with LF. */
  predicate Base(h: Text -> Text, base: Origin) {
    Walk(h, true, Lines(base.text), START) == Some(base.st) && EndsBlank(base.text)
  }

  predicate HoldsLock(phase: Phase) {
    phase.Locked? || phase.Ready? || phase.Writing? || phase.Written? || phase.Saved?
  }

  /** The part of a line under way that is in the file. */
  function Partial(w: World): Text {
    if w.lock.Some? && w.lock.value < |w.actors| && w.actors[w.lock.value].phase.Writing? then
      var phase := w.actors[w.lock.value].phase;
      if phase.done <= |phase.line| then phase.line[..phase.done] else []
    else []
  }

  /** The file holds the base, what the completed appends wrote, and the part of a line under way. */
  ghost predicate FileOk(h: Text -> Text, base: Origin, w: World)
  {
    var st, items := base.st, Items(w.log);
    AllChecked(items) && w.text == base.text + Rendered(h, st, items) + Partial(w)
  }

  /** The state and the size describe the file as it was after the first n completed appends. */
  ghost predicate Describes(h: Text -> Text, base: Origin, items: seq<Item>, n: int, inst: Instance)
  {
    && 0 <= n <= |items|
    && inst.state == StateAfter(h, base.st, items[..n])
    && inst.size == |base.text + Rendered(h, base.st, items[..n])|
  }

  /** How many completed appends an instance accounts for. */
  function Seen(base: Origin, inst: Instance): int
  {
    inst.state.count - base.st.count
  }

  ghost predicate ActorOk(h: Text -> Text, base: Origin, w: World, a: nat)
    requires a < |w.actors|
  {
    var inst, phase, n := w.actors[a].inst, w.actors[a].phase, Seen(base, w.actors[a].inst);
    && Describes(h, base, Items(w.log), n, inst)
    && (HoldsLock(phase) <==> w.lock == Some(a))
    && (phase.Locked? || phase.Ready? ==> InMemory(phase.data) && CheckPortable(phase.data))
    && (phase.Ready? ==> n == |w.log|)
    && (phase.Writing? ==>
          && n == |w.log| && Checked(phase.item)
          && phase.line == LineFor(h, inst.state, phase.item) && phase.done < |phase.line|)
    && (phase.Written? || phase.Saved? || phase.Released? ==> n < |w.log| && w.log[n] == Logged(a, phase.item))
  }

  /** How many completed appends of an instance are not on disk yet. */
  function Unsynced(log: seq<Logged>, synced: nat, a: nat): nat
    decreases |log|
  {
    if |log| <= synced then 0
    else (if log[|log| - 1].who == a then 1 else 0) + Unsynced(log[..|log| - 1], synced, a)
  }

  /** What is not on disk yet is counted, but for a line just written. */
  predicate SyncOk(w: World, a: nat)
    requires a < |w.actors|
  {
    var inst := w.actors[a].inst;
    && inst.pending < inst.batchSize && (!inst.batch ==> inst.pending == 0)
    && Unsynced(w.log, w.synced, a) <= inst.pending + if w.actors[a].phase.Written? then 1 else 0
  }

  ghost predicate Inv(h: Text -> Text, base: Origin, w: World)
  {
    && FileOk(h, base, w)
    && (w.lock.Some? ==> w.lock.value < |w.actors|)
    && w.synced <= |w.log|
    && (forall l <- w.log :: l.who < |w.actors|)
    && (forall a :: 0 <= a < |w.actors| ==> ActorOk(h, base, w, a))
    && (forall a :: 0 <= a < |w.actors| ==> SyncOk(w, a))
  }

  lemma ItemsAppend(log: seq<Logged>, x: Logged)
    ensures Items(log + [x]) == Items(log) + [x.item]
  {
  }

  lemma ItemsPrefix(log: seq<Logged>, more: seq<Logged>, n: nat)
    requires n <= |log| && log <= more
    ensures Items(more)[..n] == Items(log)[..n]
  {
  }

  lemma UnsyncedMore(log: seq<Logged>, x: Logged, synced: nat, a: nat)
    requires synced <= |log|
    ensures Unsynced(log + [x], synced, a) == Unsynced(log, synced, a) + if x.who == a then 1 else 0
  {
    assert (log + [x])[..|log|] == log;
  }

  /** An instance that does nothing stays described, whatever another one appends. */
  lemma ActorKeeps(h: Text -> Text, base: Origin, w: World, v: World, a: nat)
    requires a < |w.actors| && ActorOk(h, base, w, a)
    requires a < |v.actors| && v.actors[a] == w.actors[a] && w.log <= v.log
    requires w.lock == Some(a) <==> v.lock == Some(a)
    requires v.log == w.log || w.lock != Some(a)
    ensures ActorOk(h, base, v, a)
  {
    ItemsPrefix(w.log, v.log, Seen(base, w.actors[a].inst));
  }

  /** A world after one instance moved, when that instance and the file are as they should be. */
  lemma OthersKeep(h: Text -> Text, base: Origin, w: World, v: World, a: nat)
    requires Inv(h, base, w) && a < |w.actors| && |v.actors| == |w.actors| && v.actors == w.actors[a := v.actors[a]]
    requires v.lock == w.lock || (w.lock == None && v.lock == Some(a)) || (w.lock == Some(a) && v.lock == None)
    requires v.log == w.log && (v.synced == w.synced || v.synced == |v.log|)
    requires FileOk(h, base, v) && ActorOk(h, base, v, a) && SyncOk(v, a)
    ensures Inv(h, base, v)
  {
    forall b | 0 <= b < |v.actors| ensures ActorOk(h, base, v, b) && SyncOk(v, b) {
      assert ActorOk(h, base, w, b) && SyncOk(w, b);
      if b != a {
        ActorKeeps(h, base, w, v, b);
      }
    }
  }

  /** The same, when the instance completed a line. */
  lemma OthersKeepMore(h: Text -> Text, base: Origin, w: World, v: World, a: nat, x: Logged)
    requires Inv(h, base, w) && a < |w.actors| && |v.actors| == |w.actors| && v.actors == w.actors[a := v.actors[a]]
    requires w.lock == v.lock == Some(a) && v.log == w.log + [x] && x.who == a && v.synced == w.synced
    requires FileOk(h, base, v) && ActorOk(h, base, v, a) && SyncOk(v, a)
    ensures Inv(h, base, v)
  {
    forall b | 0 <= b < |v.actors| ensures ActorOk(h, base, v, b) && SyncOk(v, b) {
      assert ActorOk(h, base, w, b) && SyncOk(w, b);
      if b != a {
        ActorKeeps(h, base, w, v, b);
        UnsyncedMore(w.log, x, w.synced, b);
      }
    }
  }

  /** Without a line under way, the file is the base and the completed appends, and it is a chain exactly when each of them was loadable. */
  lemma WholeFile(h: Text -> Text, indexed: bool, base: Origin, w: World)
    requires Base(h, base) && FileOk(h, base, w) && Partial(w) == []
    ensures var st, items := base.st, Items(w.log);
            && w.text == base.text + Rendered(h, st, items)
            && Walk(h, indexed, Lines(w.text), START) ==
               (if AllLoadable(h, st, items) then Some(StateAfter(h, st, items)) else None)
            && EndsBlank(w.text)
  {
    var r := Rendered(h, base.st, Items(w.log));
    assert base.text + r + [] == base.text + r;
    BaseIsHex(h, base);
    RenderedWalks(h, indexed, base.st, Items(w.log));
    IndexedIsReplayed(h, Lines(base.text), START);
    WalkText(h, indexed, base.text, r, START);
    EndsBlankJoin(base.text, r);
  }

  lemma BaseIsHex(h: Text -> Text, base: Origin)
    requires Base(h, base)
    ensures IsHex64(base.st.last)
  {
    WalkKeepsHex(h, true, Lines(base.text), START);
  }

  lemma EndsBlankJoin(a: Text, b: Text)
    requires EndsBlank(a) && EndsBlank(b)
    ensures EndsBlank(a + b)
  {
    LinesJoin(a, b);
    if |Lines(b)| == 1 {
      assert LastLine(a + b) == LastLine(a) + LastLine(b);
    } else {
      assert LastLine(a + b) == LastLine(b);
    }
  }

  lemma RenderedIsLong(h: Text -> Text, st: State, items: seq<Item>)
    requires items != []
    ensures Rendered(h, st, items) != []
  {
  }

  /** The completed appends an instance has not read. */
  function UnreadBy(base: Origin, items: seq<Item>, inst: Instance): seq<Item> {
    var n := Seen(base, inst);
    if 0 <= n <= |items| then items[n..] else []
  }

  /** What an instance has not read yet is what the appends it does not know wrote. */
  lemma Unread(h: Text -> Text, base: Origin, items: seq<Item>, inst: Instance)
    requires IsHex64(base.st.last)
    requires Describes(h, base, items, Seen(base, inst), inst)
    ensures var text, rest := base.text + Rendered(h, base.st, items), UnreadBy(base, items, inst);
            && inst.size <= |text| && text[inst.size..] == Rendered(h, inst.state, rest)
            && StateAfter(h, inst.state, rest) == StateAfter(h, base.st, items)
            && (AllLoadable(h, base.st, items) ==> AllLoadable(h, inst.state, rest))
    ensures IsHex64(inst.state.last)
  {
    var n := Seen(base, inst);
    assert items == items[..n] + items[n..];
    UnreadFrom(h, base.text, base.st, items[..n], items[n..]);
  }

  lemma UnreadFrom(h: Text -> Text, base: Text, st: State, seen: seq<Item>, rest: seq<Item>)
    requires IsHex64(st.last)
    ensures var front, text, mid := base + Rendered(h, st, seen), base + Rendered(h, st, seen + rest), StateAfter(h, st, seen);
            && |front| <= |text| && text[|front|..] == Rendered(h, mid, rest)
            && (AllLoadable(h, st, seen + rest) ==> AllLoadable(h, mid, rest))
            && StateAfter(h, mid, rest) == StateAfter(h, st, seen + rest)
            && IsHex64(mid.last)
  {
    RenderedSplit(h, st, seen, rest);
    SuffixOf(base, Rendered(h, st, seen), Rendered(h, StateAfter(h, st, seen), rest));
    StateAfterIs(h, st, seen);
  }

  lemma SuffixOf(a: Text, b: Text, c: Text)
    ensures |a + b| <= |a + (b + c)| && (a + (b + c))[|a + b|..] == c
  {
  }

  /** Bringing an instance up to date succeeds exactly when every append it has not read is loadable, and leaves it describing the whole file. */
  lemma ResyncDecides(h: Text -> Text, base: Origin, items: seq<Item>, inst: Instance)
    requires IsHex64(base.st.last) && AllChecked(items)
    requires Describes(h, base, items, Seen(base, inst), inst)
    ensures var text := base.text + Rendered(h, base.st, items);
            Resynced(h, inst, text) ==
            if AllLoadable(h, inst.state, UnreadBy(base, items, inst))
            then Some(inst.(state := StateAfter(h, base.st, items), size := |text|)) else None
  {
    var rest := UnreadBy(base, items, inst);
    Unread(h, base, items, inst);
    RenderedWalks(h, false, inst.state, rest);
    if rest != [] {
      RenderedIsLong(h, inst.state, rest);
    }
    ResyncedTail(h, inst, base.text + Rendered(h, base.st, items), Rendered(h, inst.state, rest));
  }

  lemma ResyncedTail(h: Text -> Text, inst: Instance, text: Text, tail: Text)
    requires inst.size <= |text| && text[inst.size..] == tail
    ensures Resynced(h, inst, text) ==
            if tail == [] then Some(inst)
            else match Walk(h, false, Lines(tail), inst.state)
                 case None => None
                 case Some(st) => Some(inst.(state := st, size := |text|))
  {
  }

  /* ---------- each step ---------- */

  /** An instance that has read the whole file describes it. */
  lemma OpenedOk(h: Text -> Text, base: Origin, w: World, inst: Instance)
    requires IsHex64(base.st.last) && FileOk(h, base, w) && Partial(w) == []
    requires inst.state == StateAfter(h, base.st, Items(w.log)) && inst.size == |w.text|
    ensures Describes(h, base, Items(w.log), Seen(base, inst), inst) && Seen(base, inst) == |w.log|
  {
    var st, items := base.st, Items(w.log);
    StateAfterIs(h, st, items);
    assert items[..|items|] == items;
    assert base.text + Rendered(h, st, items) + [] == base.text + Rendered(h, st, items);
  }

  /** What opening a file leads to: it is refused exactly when some append was not loadable. */
  lemma OpenIs(h: Text -> Text, base: Origin, w: World, batch: bool, batchSize: nat)
    requires Base(h, base) && FileOk(h, base, w) && w.lock == None
    ensures var st := StateAfter(h, base.st, Items(w.log));
            Took(h, w, Open(batch, batchSize)) ==
            if AllLoadable(h, base.st, Items(w.log)) then
              w.(actors := w.actors + [Actor(Instance(batch, if batchSize < 1 then 1 else batchSize, st, |w.text|, 0), Idle)])
            else w
  {
    WholeFile(h, false, base, w);
  }

  lemma OpenKeeps(h: Text -> Text, base: Origin, w: World, batch: bool, batchSize: nat)
    requires Base(h, base) && Inv(h, base, w) && w.lock == None
    ensures Inv(h, base, Took(h, w, Open(batch, batchSize)))
  {
    OpenIs(h, base, w, batch, batchSize);
    BaseIsHex(h, base);
    if AllLoadable(h, base.st, Items(w.log)) {
      var st := StateAfter(h, base.st, Items(w.log));
      var inst := Instance(batch, if batchSize < 1 then 1 else batchSize, st, |w.text|, 0);
      OpenedOk(h, base, w, inst);
      OneMoreActor(h, base, w, inst);
    }
  }

  lemma OneMoreActor(h: Text -> Text, base: Origin, w: World, inst: Instance)
    requires Inv(h, base, w) && w.lock == None && 0 == inst.pending < inst.batchSize
    requires Describes(h, base, Items(w.log), Seen(base, inst), inst)
    ensures Inv(h, base, w.(actors := w.actors + [Actor(inst, Idle)]))
  {
    var v := w.(actors := w.actors + [Actor(inst, Idle)]);
    NewActorOk(h, base, w, v, inst);
    OldActorsOk(h, base, w, v);
    SameFile(h, base, w, v);
    OneMoreHolds(h, base, v, |w.actors|);
  }

  lemma SameFile(h: Text -> Text, base: Origin, w: World, v: World)
    requires FileOk(h, base, w) && w.lock == v.lock == None && v.log == w.log && v.text == w.text
    ensures FileOk(h, base, v)
  {
  }

  lemma OneMoreHolds(h: Text -> Text, base: Origin, v: World, n: nat)
    requires FileOk(h, base, v) && v.lock == None && v.synced <= |v.log| && |v.actors| == n + 1
    requires forall l <- v.log :: l.who < n
    requires forall b :: 0 <= b < n ==> ActorOk(h, base, v, b) && SyncOk(v, b)
    requires ActorOk(h, base, v, n) && SyncOk(v, n)
    ensures Inv(h, base, v)
  {
  }

  lemma NewActorOk(h: Text -> Text, base: Origin, w: World, v: World, inst: Instance)
    requires w.lock == None && 0 == inst.pending < inst.batchSize
    requires Describes(h, base, Items(w.log), Seen(base, inst), inst)
    requires (forall l <- w.log :: l.who < |w.actors|) && v == w.(actors := w.actors + [Actor(inst, Idle)])
    ensures ActorOk(h, base, v, |w.actors|) && SyncOk(v, |w.actors|)
  {
    NobodyUnsynced(w.log, w.synced, |w.actors|);
  }

  lemma OldActorsOk(h: Text -> Text, base: Origin, w: World, v: World)
    requires Inv(h, base, w) && |v.actors| == |w.actors| + 1 && v == w.(actors := w.actors + [v.actors[|w.actors|]])
    ensures forall b :: 0 <= b < |w.actors| ==> ActorOk(h, base, v, b) && SyncOk(v, b)
  {
    forall b | 0 <= b < |w.actors| ensures ActorOk(h, base, v, b) && SyncOk(v, b) {
      assert ActorOk(h, base, w, b) && SyncOk(w, b);
      KeptWhileOpening(h, base, w, v, b);
    }
  }

  lemma KeptWhileOpening(h: Text -> Text, base: Origin, w: World, v: World, b: nat)
    requires b < |w.actors| && ActorOk(h, base, w, b) && SyncOk(w, b)
    requires |w.actors| < |v.actors| && v == w.(actors := w.actors + [v.actors[|w.actors|]])
    ensures ActorOk(h, base, v, b) && SyncOk(v, b)
  {
    ActorKeeps(h, base, w, v, b);
  }

  lemma {:induction false} NobodyUnsynced(log: seq<Logged>, synced: nat, a: nat)
    requires forall l <- log :: l.who < a
    ensures Unsynced(log, synced, a) == 0
    decreases |log|
  {
    if log != [] {
      NobodyUnsynced(log[..|log| - 1], synced, a);
    }
  }

  lemma AcquireKeeps(h: Text -> Text, base: Origin, w: World, a: nat, data: Value)
    requires Inv(h, base, w) && CanStep(h, w, Acquire(a, data))
    ensures Inv(h, base, Took(h, w, Acquire(a, data)))
  {
    assert ActorOk(h, base, w, a) && SyncOk(w, a);
    OthersKeep(h, base, w, Took(h, w, Acquire(a, data)), a);
  }

  /** What resyncing leads to: the instance describes the whole file, or is refused because of an append it cannot read. */
  lemma ResyncIs(h: Text -> Text, base: Origin, w: World, a: nat)
    requires IsHex64(base.st.last) && FileOk(h, base, w) && CanStep(h, w, Resync(a)) && ActorOk(h, base, w, a)
    ensures var inst := w.actors[a].inst.(state := StateAfter(h, base.st, Items(w.log)), size := |w.text|);
            Took(h, w, Resync(a)) ==
            if AllLoadable(h, w.actors[a].inst.state, UnreadBy(base, Items(w.log), w.actors[a].inst))
            then With(w, a, Actor(inst, Ready(w.actors[a].phase.data)))
            else With(w, a, w.actors[a].(phase := Idle)).(lock := None)
  {
    var whole := base.text + Rendered(h, base.st, Items(w.log));
    assert Partial(w) == [] && whole + [] == whole;
    ResyncDecides(h, base, Items(w.log), w.actors[a].inst);
  }

  lemma ResyncKeeps(h: Text -> Text, base: Origin, w: World, a: nat)
    requires IsHex64(base.st.last) && Inv(h, base, w) && CanStep(h, w, Resync(a))
    ensures Inv(h, base, Took(h, w, Resync(a)))
  {
    assert ActorOk(h, base, w, a) && SyncOk(w, a);
    ResyncIs(h, base, w, a);
    if AllLoadable(h, w.actors[a].inst.state, UnreadBy(base, Items(w.log), w.actors[a].inst)) {
      var inst := w.actors[a].inst.(state := StateAfter(h, base.st, Items(w.log)), size := |w.text|);
      UpToDateKeeps(h, base, w, a, inst);
    } else {
      RefusalKeeps(h, base, w, a);
    }
  }

  lemma UpToDateKeeps(h: Text -> Text, base: Origin, w: World, a: nat, inst: Instance)
    requires IsHex64(base.st.last) && Inv(h, base, w) && a < |w.actors| && w.actors[a].phase.Locked?
    requires inst == w.actors[a].inst.(state := StateAfter(h, base.st, Items(w.log)), size := |w.text|)
    ensures Inv(h, base, With(w, a, Actor(inst, Ready(w.actors[a].phase.data))))
  {
    var v := With(w, a, Actor(inst, Ready(w.actors[a].phase.data)));
    assert ActorOk(h, base, w, a) && SyncOk(w, a);
    assert Partial(w) == Partial(v) == [];
    OpenedOk(h, base, w, inst);
    OthersKeep(h, base, w, v, a);
  }

  lemma RefusalKeeps(h: Text -> Text, base: Origin, w: World, a: nat)
    requires Inv(h, base, w) && a < |w.actors| && w.actors[a].phase.Locked?
    ensures Inv(h, base, With(w, a, w.actors[a].(phase := Idle)).(lock := None))
  {
    var v := With(w, a, w.actors[a].(phase := Idle)).(lock := None);
    assert ActorOk(h, base, w, a) && SyncOk(w, a);
    assert Partial(w) == Partial(v) == [];
    OthersKeep(h, base, w, v, a);
  }

  lemma BeginKeeps(h: Text -> Text, base: Origin, w: World, a: nat, ts: Text)
    requires Inv(h, base, w) && CanStep(h, w, Begin(a, ts))
    ensures Inv(h, base, Took(h, w, Begin(a, ts)))
  {
    var v := Took(h, w, Begin(a, ts));
    assert ActorOk(h, base, w, a) && SyncOk(w, a);
    assert Partial(v) == Partial(w) == [];
    OthersKeep(h, base, w, v, a);
  }

  lemma Grows(whole: Text, line: Text, done: nat, n: nat)
    requires done + n <= |line|
    ensures whole + line[..done] + line[done..done + n] == whole + line[..done + n]
  {
  }

  /** What writing part of a line leads to. */
  lemma WroteMore(h: Text -> Text, w: World, a: nat, n: nat)
    requires CanStep(h, w, Write(a, n)) && w.actors[a].phase.done + n < |w.actors[a].phase.line|
    ensures var phase := w.actors[a].phase;
            Took(h, w, Write(a, n)) ==
            World(w.text + phase.line[phase.done..phase.done + n], w.lock,
                  w.actors[a := Actor(w.actors[a].inst, phase.(done := phase.done + n))], w.log, w.synced)
  {
  }

  lemma WriteMoreKeeps(h: Text -> Text, base: Origin, w: World, a: nat, n: nat)
    requires Inv(h, base, w) && CanStep(h, w, Write(a, n))
    requires w.actors[a].phase.done + n < |w.actors[a].phase.line|
    ensures Inv(h, base, Took(h, w, Write(a, n)))
  {
    WroteMore(h, w, a, n);
    MoreKeeps(h, base, w, Took(h, w, Write(a, n)), a, n);
  }

  lemma MoreKeeps(h: Text -> Text, base: Origin, w: World, v: World, a: nat, n: nat)
    requires Inv(h, base, w) && a < |w.actors| && w.actors[a].phase.Writing?
    requires w.actors[a].phase.done + n < |w.actors[a].phase.line|
    requires var phase := w.actors[a].phase;
             v == World(w.text + phase.line[phase.done..phase.done + n], w.lock,
                        w.actors[a := Actor(w.actors[a].inst, phase.(done := phase.done + n))], w.log, w.synced)
    ensures Inv(h, base, v)
  {
    assert ActorOk(h, base, w, a) && SyncOk(w, a);
    MoreIsOk(h, base, w, v, a, n);
    FileGrows(h, base, w, v, a, n);
    OthersKeep(h, base, w, v, a);
  }

  lemma MoreIsOk(h: Text -> Text, base: Origin, w: World, v: World, a: nat, n: nat)
    requires a < |w.actors| && ActorOk(h, base, w, a) && SyncOk(w, a) && w.actors[a].phase.Writing?
    requires a < |v.actors| && v.log == w.log && v.lock == w.lock && v.synced == w.synced
    requires w.actors[a].phase.done + n < |w.actors[a].phase.line|
    requires v.actors[a] == Actor(w.actors[a].inst, w.actors[a].phase.(done := w.actors[a].phase.done + n))
    ensures ActorOk(h, base, v, a) && SyncOk(v, a)
  {
  }

  lemma PartialIs(w: World, a: nat)
    requires a < |w.actors| && w.lock == Some(a) && w.actors[a].phase.Writing? && w.actors[a].phase.done <= |w.actors[a].phase.line|
    ensures Partial(w) == w.actors[a].phase.line[..w.actors[a].phase.done]
  {
  }

  lemma FileGrows(h: Text -> Text, base: Origin, w: World, v: World, a: nat, n: nat)
    requires a < |w.actors| && FileOk(h, base, w) && w.lock == v.lock == Some(a) && w.actors[a].phase.Writing?
    requires a < |v.actors| && v.log == w.log && w.actors[a].phase.done + n < |w.actors[a].phase.line|
    requires v.actors[a] == Actor(w.actors[a].inst, w.actors[a].phase.(done := w.actors[a].phase.done + n))
    requires v.text == w.text + w.actors[a].phase.line[w.actors[a].phase.done..w.actors[a].phase.done + n]
    ensures FileOk(h, base, v)
  {
    PartialIs(w, a);
    PartialIs(v, a);
    LineGrows(h, base, w, v, w.actors[a].phase.line, w.actors[a].phase.done, n);
  }

  lemma LineGrows(h: Text -> Text, base: Origin, w: World, v: World, line: Text, done: nat, n: nat)
    requires FileOk(h, base, w) && v.log == w.log && done + n <= |line|
    requires Partial(w) == line[..done] && Partial(v) == line[..done + n]
    requires v.text == w.text + line[done..done + n]
    ensures FileOk(h, base, v)
  {
    Grows(base.text + Rendered(h, base.st, Items(w.log)), line, done, n);
  }

  /** The file once a line under way is complete. */
  lemma LineCompletes(h: Text -> Text, base: Origin, w: World, v: World, inst: Instance, x: Logged, line: Text, done: nat)
    requires FileOk(h, base, w) && v.log == w.log + [x] && Partial(v) == []
    requires Describes(h, base, Items(w.log), |w.log|, inst) && Checked(x.item)
    requires line == LineFor(h, inst.state, x.item) && done <= |line| && Partial(w) == line[..done]
    requires v.text == w.text + line[done..]
    ensures FileOk(h, base, v)
  {
    var st, items := base.st, Items(w.log);
    assert items[..|items|] == items;
    ItemsAppend(w.log, x);
    OneMore(h, st, items, x.item);
    Completed(base.text, Rendered(h, st, items), line, done);
    assert v.text + [] == v.text;
  }

  lemma Completed(base: Text, whole: Text, line: Text, done: nat)
    requires done <= |line|
    ensures base + whole + line[..done] + line[done..] == base + (whole + line)
  {
    assert line[..done] + line[done..] == line;
    Assoc(base + whole, line[..done], line[done..]);
    Assoc(base, whole, line);
  }

  /** What writing the rest of a line leads to. */
  lemma WroteLast(h: Text -> Text, w: World, a: nat, n: nat)
    requires CanStep(h, w, Write(a, n)) && w.actors[a].phase.done + n == |w.actors[a].phase.line|
    ensures var inst, phase := w.actors[a].inst, w.actors[a].phase;
            Took(h, w, Write(a, n)) ==
            World(w.text + phase.line[phase.done..], w.lock,
                  w.actors[a := Actor(inst, Written(phase.item))], w.log + [Logged(a, phase.item)], w.synced)
  {
  }

  lemma WriteLastKeeps(h: Text -> Text, base: Origin, w: World, a: nat, n: nat)
    requires Inv(h, base, w) && CanStep(h, w, Write(a, n))
    requires w.actors[a].phase.done + n == |w.actors[a].phase.line|
    ensures Inv(h, base, Took(h, w, Write(a, n)))
  {
    WroteLast(h, w, a, n);
    LastKeeps(h, base, w, Took(h, w, Write(a, n)), a, Logged(a, w.actors[a].phase.item));
  }

  lemma LastKeeps(h: Text -> Text, base: Origin, w: World, v: World, a: nat, x: Logged)
    requires Inv(h, base, w) && a < |w.actors|
    requires w.actors[a].phase.Writing? && x == Logged(a, w.actors[a].phase.item)
    requires w.actors[a].phase.done <= |w.actors[a].phase.line|
    requires v == World(w.text + w.actors[a].phase.line[w.actors[a].phase.done..], w.lock,
                        w.actors[a := Actor(w.actors[a].inst, Written(x.item))], w.log + [x], w.synced)
    ensures Inv(h, base, v)
  {
    var inst, phase := w.actors[a].inst, w.actors[a].phase;
    assert ActorOk(h, base, w, a) && SyncOk(w, a);
    WriterIsOk(h, base, w, v, a, x);
    LineCompletes(h, base, w, v, inst, x, phase.line, phase.done);
    OthersKeepMore(h, base, w, v, a, x);
  }

  lemma WriterIsOk(h: Text -> Text, base: Origin, w: World, v: World, a: nat, x: Logged)
    requires a < |w.actors| && ActorOk(h, base, w, a) && SyncOk(w, a)
    requires w.synced <= |w.log| && w.actors[a].phase.Writing? && x.who == a
    requires a < |v.actors| && v.actors[a] == Actor(w.actors[a].inst, Written(x.item))
    requires v.log == w.log + [x] && v.lock == w.lock && v.synced == w.synced
    ensures ActorOk(h, base, v, a) && SyncOk(v, a)
    ensures Describes(h, base, Items(w.log), |w.log|, w.actors[a].inst)
  {
    ItemsPrefix(w.log, v.log, |w.log|);
    UnsyncedMore(w.log, x, w.synced, a);
  }

  lemma {:induction false} AllSynced(log: seq<Logged>, a: nat)
    ensures Unsynced(log, |log|, a) == 0
  {
  }

  lemma SaveIs(h: Text -> Text, w: World, a: nat)
    requires CanStep(h, w, Save(a))
    ensures var inst := w.actors[a].inst;
            Took(h, w, Save(a)) ==
            With(w, a, Actor(Counted(inst), Saved(w.actors[a].phase.item))).(synced := if SyncDue(inst) then |w.log| else w.synced)
  {
  }

  lemma SaveKeeps(h: Text -> Text, base: Origin, w: World, a: nat)
    requires Inv(h, base, w) && CanStep(h, w, Save(a))
    ensures Inv(h, base, Took(h, w, Save(a)))
  {
    SaveIs(h, w, a);
    SavedKeeps(h, base, w, a);
  }

  lemma SavedKeeps(h: Text -> Text, base: Origin, w: World, a: nat)
    requires Inv(h, base, w) && a < |w.actors| && w.actors[a].phase.Written?
    ensures var inst := w.actors[a].inst;
            Inv(h, base, With(w, a, Actor(Counted(inst), Saved(w.actors[a].phase.item))).(synced := if SyncDue(inst) then |w.log| else w.synced))
  {
    var inst := w.actors[a].inst;
    var v := With(w, a, Actor(Counted(inst), Saved(w.actors[a].phase.item))).(synced := if SyncDue(inst) then |w.log| else w.synced);
    assert ActorOk(h, base, w, a) && SyncOk(w, a);
    AllSynced(w.log, a);
    assert ActorOk(h, base, v, a) && SyncOk(v, a);
    OthersKeep(h, base, w, v, a);
  }

  lemma ReleaseKeeps(h: Text -> Text, base: Origin, w: World, a: nat)
    requires Inv(h, base, w) && CanStep(h, w, Release(a))
    ensures Inv(h, base, Took(h, w, Release(a)))
  {
    assert ActorOk(h, base, w, a) && SyncOk(w, a);
    OthersKeep(h, base, w, Took(h, w, Release(a)), a);
  }

  /** Counting its own line, an instance describes one append more. */
  lemma AppendedDescribes(h: Text -> Text, base: Origin, items: seq<Item>, n: nat, inst: Instance)
    requires Describes(h, base, items, n, inst) && n == Seen(base, inst) && n < |items|
    ensures Describes(h, base, items, n + 1, Appended(h, inst, items[n]))
    ensures Seen(base, Appended(h, inst, items[n])) == n + 1
  {
    var st := base.st;
    assert items[..n + 1] == items[..n] + [items[n]];
    OneMore(h, st, items[..n], items[n]);
    Assoc(base.text, Rendered(h, st, items[..n]), LineFor(h, inst.state, items[n]));
  }

  lemma UpdateIs(h: Text -> Text, w: World, a: nat)
    requires CanStep(h, w, Update(a))
    ensures Took(h, w, Update(a)) == With(w, a, Actor(Appended(h, w.actors[a].inst, w.actors[a].phase.item), Idle))
  {
  }

  lemma UpdateKeeps(h: Text -> Text, base: Origin, w: World, a: nat)
    requires Inv(h, base, w) && CanStep(h, w, Update(a))
    ensures Inv(h, base, Took(h, w, Update(a)))
  {
    UpdateIs(h, w, a);
    ReleasedDescribes(h, base, w, a);
    UpdatedKeeps(h, base, w, a, Appended(h, w.actors[a].inst, w.actors[a].phase.item));
  }

  lemma ReleasedDescribes(h: Text -> Text, base: Origin, w: World, a: nat)
    requires Inv(h, base, w) && a < |w.actors| && w.actors[a].phase.Released?
    ensures var inst := Appended(h, w.actors[a].inst, w.actors[a].phase.item);
            Describes(h, base, Items(w.log), Seen(base, inst), inst)
  {
    assert ActorOk(h, base, w, a);
    AppendedDescribes(h, base, Items(w.log), Seen(base, w.actors[a].inst), w.actors[a].inst);
  }

  lemma UpdatedKeeps(h: Text -> Text, base: Origin, w: World, a: nat, inst: Instance)
    requires Inv(h, base, w) && a < |w.actors| && w.actors[a].phase.Released?
    requires Describes(h, base, Items(w.log), Seen(base, inst), inst)
    requires inst == w.actors[a].inst.(state := inst.state, size := inst.size)
    ensures Inv(h, base, With(w, a, Actor(inst, Idle)))
  {
    var v := With(w, a, Actor(inst, Idle));
    assert ActorOk(h, base, w, a) && SyncOk(w, a);
    SamePartial(w, v, a);
    OthersKeep(h, base, w, v, a);
  }

  lemma FlushKeeps(h: Text -> Text, base: Origin, w: World, a: nat)
    requires Inv(h, base, w) && CanStep(h, w, Flush(a))
    ensures Inv(h, base, Took(h, w, Flush(a)))
  {
    var v := Took(h, w, Flush(a));
    assert ActorOk(h, base, w, a) && SyncOk(w, a);
    AllSynced(w.log, a);
    SamePartial(w, v, a);
    if w.actors[a].inst.pending != 0 {
      OthersKeep(h, base, w, v, a);
    }
  }

  lemma SamePartial(w: World, v: World, a: nat)
    requires a < |w.actors| && |v.actors| == |w.actors| && v.lock == w.lock && w.lock != Some(a)
    requires v.actors == w.actors[a := v.actors[a]]
    ensures Partial(v) == Partial(w)
  {
  }

  lemma StepKeeps(h: Text -> Text, base: Origin, w: World, s: Step)
    requires Base(h, base) && Inv(h, base, w) && CanStep(h, w, s)
    ensures Inv(h, base, Took(h, w, s))
  {
    BaseIsHex(h, base);
    match s
    case Open(batch, batchSize) => OpenKeeps(h, base, w, batch, batchSize);
    case Acquire(a, data) => AcquireKeeps(h, base, w, a, data);
    case Resync(a) => ResyncKeeps(h, base, w, a);
    case Begin(a, ts) => BeginKeeps(h, base, w, a, ts);
    case Write(a, n) =>
      if w.actors[a].phase.done + n < |w.actors[a].phase.line| {
        WriteMoreKeeps(h, base, w, a, n);
      } else {
        WriteLastKeeps(h, base, w, a, n);
      }
    case Save(a) => SaveKeeps(h, base, w, a);
    case Release(a) => ReleaseKeeps(h, base, w, a);
    case Update(a) => UpdateKeeps(h, base, w, a);
    case Flush(a) => FlushKeeps(h, base, w, a);
  }

  /** Every run keeps what every step keeps. */
  lemma {:induction false} RunKeeps(h: Text -> Text, base: Origin, w: World, steps: seq<Step>)
    requires Base(h, base) && Inv(h, base, w) && Run(h, w, steps).Some?
    ensures Inv(h, base, Run(h, w, steps).value)
    decreases |steps|
  {
    if steps != [] {
      StepKeeps(h, base, w, steps[0]);
      RunKeeps(h, base, Took(h, w, steps[0]), steps[1..]);
    }
  }

  /* ---------- what holds over every run ---------- */

  /** The entries the appends of a series leave. */
  function EntriesFor(h: Text -> Text, st: State, items: seq<Item>): (es: seq<Entry>)
    ensures |es| == |items|
  {
    if items == [] then []
    else
      var front := items[..|items| - 1];
      EntriesFor(h, st, front) + [EntryFor(h, StateAfter(h, st, front), items[|items| - 1])]
  }

  /** The k-th entry carries the k-th datum under the next number. */
  lemma EntriesForAt(h: Text -> Text, st: State, items: seq<Item>, k: nat)
    requires k < |items|
    ensures var e := EntriesFor(h, st, items)[k];
            && Get(e, IDX) == Some(Num(Decimal(st.count + k)))
            && Get(e, DATA) == Some(items[k].data) && Get(e, TS) == Some(Str(items[k].ts))
  {
    EntryAt(h, st, items, k);
    NextCarries(h, st, items[..k], items[k], k, EntriesFor(h, st, items)[k]);
  }

  lemma NextCarries(h: Text -> Text, st: State, before: seq<Item>, item: Item, k: nat, e: Entry)
    requires |before| == k && e == EntryFor(h, StateAfter(h, st, before), item)
    ensures Get(e, IDX) == Some(Num(Decimal(st.count + k)))
    ensures Get(e, DATA) == Some(item.data) && Get(e, TS) == Some(Str(item.ts))
  {
    CountAfter(h, st, before);
    EntryCarries(h, StateAfter(h, st, before), item, st.count + k);
  }

  lemma EntryCarries(h: Text -> Text, st: State, item: Item, n: nat)
    requires st.count == n
    ensures var e := EntryFor(h, st, item);
            && Get(e, IDX) == Some(Num(Decimal(n)))
            && Get(e, DATA) == Some(item.data) && Get(e, TS) == Some(Str(item.ts))
  {
    EntryFollows(h, true, st, item);
  }

  lemma {:induction false} EntryAt(h: Text -> Text, st: State, items: seq<Item>, k: nat)
    requires k < |items|
    ensures EntriesFor(h, st, items)[k] == EntryFor(h, StateAfter(h, st, items[..k]), items[k])
    decreases |items|
  {
    var front, n := items[..|items| - 1], |items| - 1;
    LastEntry(h, st, items);
    AtJoined(EntriesFor(h, st, front), EntryFor(h, StateAfter(h, st, front), items[n]), k);
    if k < n {
      assert front[k] == items[k] && front[..k] == items[..k];
      EntryAt(h, st, front, k);
    }
  }

  lemma AtJoined(es: seq<Entry>, e: Entry, k: nat)
    requires k <= |es|
    ensures (es + [e])[k] == if k < |es| then es[k] else e
  {
  }

  lemma LastEntry(h: Text -> Text, st: State, items: seq<Item>)
    requires items != []
    ensures var front := items[..|items| - 1];
            EntriesFor(h, st, items) == EntriesFor(h, st, front) + [EntryFor(h, StateAfter(h, st, front), items[|items| - 1])]
  {
  }

  lemma {:induction false} CountAfter(h: Text -> Text, st: State, items: seq<Item>)
    ensures StateAfter(h, st, items).count == st.count + |items|
    decreases |items|
  {
    if items != [] {
      CountAfter(h, st, items[..|items| - 1]);
    }
  }

  lemma {:induction false} EntriesAppend(a: seq<Text>, b: seq<Text>)
    requires Entries(a).Some? && Entries(b).Some?
    ensures Entries(a + b) == Some(Entries(a).value + Entries(b).value)
    decreases |a|
  {
    if a == [] {
      assert a + b == b && [] + Entries(b).value == Entries(b).value;
    } else {
      assert a == [a[0]] + a[1..] && a + b == [a[0]] + (a[1..] + b);
      EntriesOneMore(a[0], a[1..]);
      EntriesAppend(a[1..], b);
      EntriesBehind(a[0], a[1..], b);
    }
  }

  lemma EntriesBehind(line: Text, rest: seq<Text>, more: seq<Text>)
    requires Entries([line] + rest).Some? && Entries(rest).Some? && Entries(more).Some?
    requires Entries(rest + more) == Some(Entries(rest).value + Entries(more).value)
    ensures Entries([line] + (rest + more)) == Some(Entries([line] + rest).value + Entries(more).value)
  {
    EntriesOneMore(line, rest + more);
    EntriesOneMore(line, rest);
    if Strip(line) != [] {
      OneInFront(EntryOn(line).value, Entries(rest).value, Entries(more).value);
    }
  }

  lemma OneInFront(e: Entry, es: seq<Entry>, more: seq<Entry>)
    ensures [e] + es + more == [e] + (es + more)
  {
  }

  lemma EntriesOneMore(line: Text, rest: seq<Text>)
    ensures Entries([line] + rest) ==
            if Strip(line) == [] then Entries(rest)
            else match (EntryOn(line), Entries(rest))
                 case (Some(e), Some(es)) => Some([e] + es)
                 case _ => None
  {
    assert ([line] + rest)[1..] == rest;
  }

  lemma {:induction false} FrontHasEntries(a: seq<Text>, b: seq<Text>)
    requires Entries(a + b).Some?
    ensures Entries(a).Some? && Entries(b).Some?
    decreases |a|
  {
    if a == [] {
      assert a + b == b;
    } else {
      assert (a + b)[1..] == a[1..] + b;
      FrontHasEntries(a[1..], b);
    }
  }

  /** Behind a blank last line the entries of a text are followed by those of what comes after. */
  lemma EntriesText(a: Text, b: Text)
    requires EndsBlank(a) && Entries(Lines(a)).Some? && Entries(Lines(b)).Some?
    ensures Entries(Lines(a + b)) == Some(Entries(Lines(a)).value + Entries(Lines(b)).value)
  {
    LinesJoin(a, b);
    EntriesJoined(Lines(a), Lines(b));
  }

  lemma EntriesJoined(a: seq<Text>, b: seq<Text>)
    requires a != [] && b != [] && AllWs(a[|a| - 1]) && Entries(a).Some? && Entries(b).Some?
    ensures Entries(RunTogether(a, b)) == Some(Entries(a).value + Entries(b).value)
  {
    var front, blank := a[..|a| - 1], a[|a| - 1];
    assert a == front + [blank] && b == [b[0]] + b[1..];
    RunTogetherIs(a, b);
    EntriesOfParts(front, blank, b[0], b[1..]);
  }

  lemma RunTogetherIs(a: seq<Text>, b: seq<Text>)
    requires a != [] && b != []
    ensures RunTogether(a, b) == a[..|a| - 1] + ([a[|a| - 1] + b[0]] + b[1..])
  {
  }

  lemma EntriesOfParts(front: seq<Text>, blank: Text, line: Text, rest: seq<Text>)
    requires AllWs(blank) && Entries(front + [blank]).Some? && Entries([line] + rest).Some?
    ensures Entries(front + ([blank + line] + rest)) == Some(Entries(front + [blank]).value + Entries([line] + rest).value)
  {
    StripBlank(blank);
    BlankEntries(front, blank);
    SameEntries(blank, line, rest);
    EntriesAppend(front, [blank + line] + rest);
  }

  lemma BlankEntries(front: seq<Text>, blank: Text)
    requires Strip(blank) == [] && Entries(front + [blank]).Some?
    ensures Entries(front) == Entries(front + [blank])
  {
    EntriesOneMore(blank, []);
    assert [blank] == [blank] + [];
    FrontHasEntries(front, [blank]);
    EntriesAppend(front, [blank]);
    assert Entries(front).value + [] == Entries(front).value;
  }

  lemma SameEntries(blank: Text, line: Text, rest: seq<Text>)
    requires AllWs(blank)
    ensures Entries([blank + line] + rest) == Entries([line] + rest)
  {
    StripLeftOf(blank, line);
    EntriesOneMore(blank + line, rest);
    EntriesOneMore(line, rest);
  }

  lemma {:induction false} RenderedEntries(h: Text -> Text, st: State, items: seq<Item>)
    requires IsHex64(st.last) && AllChecked(items) && AllLoadable(h, st, items)
    ensures Entries(Lines(Rendered(h, st, items))) == Some(EntriesFor(h, st, items))
    decreases |items|
  {
    if items == [] {
      NoEntries();
    } else {
      var front, last := items[..|items| - 1], items[|items| - 1];
      var mid := StateAfter(h, st, front);
      RenderedEntries(h, st, front);
      RenderedWalks(h, true, st, front);
      StateAfterIs(h, st, front);
      LineEntries(h, mid, last);
      EntriesText(Rendered(h, st, front), LineFor(h, mid, last));
    }
  }

  lemma NoEntries()
    ensures Entries(Lines([])) == Some([])
  {
    EntriesOneMore([], []);
    var none: seq<Text> := [[]];
    assert none == none + [];
  }

  lemma LineEntries(h: Text -> Text, st: State, item: Item)
    requires Checked(item) && IsHex64(st.last) && Loadable(st, item)
    ensures Entries(Lines(LineFor(h, st, item))) == Some([EntryFor(h, st, item)])
  {
    var p := Print(Obj(EntryFor(h, st, item)));
    PrintedObjectEnds(h, st, item);
    LineEndsLines(p);
    LineIsRead(h, st, item, []);
    assert [] + p == p;
    StripObject(p);
    OneEntry(p, EntryFor(h, st, item));
  }

  lemma StripObject(p: Text)
    requires 2 <= |p| && p[0] == LBRACE && p[|p| - 1] == RBRACE
    ensures Strip(p) == p
  {
    StripBetween([], p, []);
    assert [] + p + [] == p;
  }

  lemma OneEntry(line: Text, e: Entry)
    requires EntryOn(line) == Some(e) && Strip(line) != []
    ensures Entries([line, []]) == Some([e])
  {
    var last: seq<Text> := [[]];
    assert [line, []] == [line] + last && last == last + [] && [e] + [] == [e];
    EntriesOneMore([], []);
    EntriesOneMore(line, last);
  }

  lemma StartHolds(h: Text -> Text, base: Origin)
    requires Base(h, base)
    ensures Inv(h, base, Fresh(base.text))
  {
    assert base.text + [] + [] == base.text;
  }

  /**
   Over any run from a good base, whenever the lock is free: the file is the base followed by
   one line for each completed append; it verifies exactly when every one of them was
   loadable, and then its entries are the earlier ones followed by one for each, in order.
   */
  lemma RunsAreSafe(h: Text -> Text, base: Origin, steps: seq<Step>)
    requires Base(h, base) && Run(h, Fresh(base.text), steps).Some?
    ensures var w := Run(h, Fresh(base.text), steps).value;
            var st, items := base.st, Items(w.log);
            w.lock == None ==>
              && w.text == base.text + Rendered(h, st, items) && EndsBlank(w.text)
              && (Verifies(h, w.text) <==> AllLoadable(h, st, items))
              && Entries(Lines(base.text)).Some?
              && (Verifies(h, w.text) ==>
                    Entries(Lines(w.text)) == Some(Entries(Lines(base.text)).value + EntriesFor(h, st, items)))
  {
    var w := Run(h, Fresh(base.text), steps).value;
    StartHolds(h, base);
    RunKeeps(h, base, Fresh(base.text), steps);
    if w.lock == None {
      FreeFileIsWhole(h, base, w);
    }
  }

  lemma FreeFileIsWhole(h: Text -> Text, base: Origin, w: World)
    requires Base(h, base) && FileOk(h, base, w) && w.lock == None
    ensures w.text == base.text + Rendered(h, base.st, Items(w.log)) && EndsBlank(w.text)
    ensures Verifies(h, w.text) <==> AllLoadable(h, base.st, Items(w.log))
    ensures Entries(Lines(base.text)).Some?
    ensures Verifies(h, w.text) ==>
              Entries(Lines(w.text)) == Some(Entries(Lines(base.text)).value + EntriesFor(h, base.st, Items(w.log)))
  {
    WholeFile(h, true, base, w);
    BaseIsHex(h, base);
    VerifiesIsChain(h, base.text);
    if AllLoadable(h, base.st, Items(w.log)) {
      RenderedEntries(h, base.st, Items(w.log));
      EntriesText(base.text, Rendered(h, base.st, Items(w.log)));
    }
  }

  /** Over any run, an instance between appends describes a prefix of the file, and of its own appends at most batchSize - 1 are not on disk, none in sync mode. */
  lemma InstancesAreSafe(h: Text -> Text, base: Origin, steps: seq<Step>, a: nat)
    requires Base(h, base) && Run(h, Fresh(base.text), steps).Some?
    requires a < |Run(h, Fresh(base.text), steps).value.actors|
    ensures var w := Run(h, Fresh(base.text), steps).value;
            var inst := w.actors[a].inst;
            && Describes(h, base, Items(w.log), Seen(base, inst), inst)
            && (!w.actors[a].phase.Written? ==>
                  && Unsynced(w.log, w.synced, a) <= inst.pending < inst.batchSize
                  && (!inst.batch ==> Unsynced(w.log, w.synced, a) == 0))
  {
    StartHolds(h, base);
    RunKeeps(h, base, Fresh(base.text), steps);
    var w := Run(h, Fresh(base.text), steps).value;
    assert ActorOk(h, base, w, a) && SyncOk(w, a);
  }

  /** Over any run, an instance that holds the lock is refused the file exactly when an append it has not read is not loadable; never, when all are. */
  lemma RefusedBehindUnloadable(h: Text -> Text, base: Origin, steps: seq<Step>, a: nat)
    requires Base(h, base) && Run(h, Fresh(base.text), steps).Some?
    requires CanStep(h, Run(h, Fresh(base.text), steps).value, Resync(a))
    ensures var w := Run(h, Fresh(base.text), steps).value;
            var inst, items := w.actors[a].inst, Items(w.log);
            && (Took(h, w, Resync(a)).actors[a].phase.Ready? <==> AllLoadable(h, inst.state, UnreadBy(base, items, inst)))
            && (AllLoadable(h, base.st, items) ==> Took(h, w, Resync(a)).actors[a].phase.Ready?)
  {
    StartHolds(h, base);
    RunKeeps(h, base, Fresh(base.text), steps);
    var w := Run(h, Fresh(base.text), steps).value;
    assert ActorOk(h, base, w, a);
    BaseIsHex(h, base);
    ResyncIs(h, base, w, a);
    Unread(h, base, Items(w.log), w.actors[a].inst);
  }

  /** What a power loss leaves of the file, cut j units into the line of append n: it verifies unless an entry is left in part. */
  lemma CrashLeaves(h: Text -> Text, base: Origin, items: seq<Item>, n: nat, j: nat)
    requires Base(h, base) && AllChecked(items) && AllLoadable(h, base.st, items) && n < |items|
    requires j <= |LineFor(h, StateAfter(h, base.st, items[..n]), items[n])|
    ensures var st := base.st;
            var line := LineFor(h, StateAfter(h, st, items[..n]), items[n]);
            Verifies(h, base.text + (Rendered(h, st, items[..n]) + line[..j])) <==> j == 0 || |line| - 1 <= j
  {
    var st, seen := base.st, items[..n];
    BaseIsHex(h, base);
    LoadableAt(h, st, items, n);
    CutSeries(h, st, seen, items[n], j);
    WalkText(h, true, base.text, Rendered(h, st, seen) + LineFor(h, StateAfter(h, st, seen), items[n])[..j], START);
  }

  lemma {:induction false} LoadableAt(h: Text -> Text, st: State, items: seq<Item>, n: nat)
    requires AllLoadable(h, st, items) && n < |items|
    ensures AllLoadable(h, st, items[..n]) && Loadable(StateAfter(h, st, items[..n]), items[n])
    decreases |items|
  {
    var front := items[..|items| - 1];
    if n < |front| {
      LoadableAt(h, st, front, n);
      assert front[..n] == items[..n] && front[n] == items[n];
    }
  }

  lemma CutSeries(h: Text -> Text, st: State, seen: seq<Item>, x: Item, j: nat)
    requires IsHex64(st.last) && AllChecked(seen) && AllLoadable(h, st, seen) && Checked(x) && Loadable(StateAfter(h, st, seen), x)
    requires j <= |LineFor(h, StateAfter(h, st, seen), x)|
    ensures var line := LineFor(h, StateAfter(h, st, seen), x);
            Walk(h, true, Lines(Rendered(h, st, seen) + line[..j]), st).Some? <==> j == 0 || |line| - 1 <= j
  {
    RenderedWalks(h, true, st, seen);
    StateAfterIs(h, st, seen);
    CutLineVerifies(h, true, Rendered(h, st, seen), st, StateAfter(h, st, seen), x, j);
  }
}
