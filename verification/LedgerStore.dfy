/**
 A ledger instance over a file that other instances append to as well.
 */
module LedgerStore {
  import opened Wrappers
  import opened JsonText
  import opened JsonPrinter
  import opened LedgerLines
  import opened LedgerChain
  import opened LedgerReaders
  import opened LedgerAppend

  /** What an instance knows: the state behind the first size units of the file, and its appends not yet synced. */
  datatype Instance = Instance(batch: bool, batchSize: nat, state: State, size: nat, pending: nat)

  /** The instance brought up to date with the file; a shorter file, or one that does not go on the chain, is refused. */
  function Resynced(h: Text -> Text, inst: Instance, text: Text): Option<Instance> {
    if |text| == inst.size then Some(inst)
    else if |text| < inst.size then None
    else
      match Walk(h, false, Lines(text[inst.size..]), inst.state)
      case None => None
      case Some(st) => Some(inst.(state := st, size := |text|))
  }

  /** The instance once the line of an append counts as its own. */
  function Appended(h: Text -> Text, inst: Instance, item: Item): Instance {
    inst.(state := After(h, EntryFor(h, inst.state, item), inst.state),
          size := inst.size + |LineFor(h, inst.state, item)|)
  }

  /** An append is synced at once, or when the batch is full. */
  predicate SyncDue(inst: Instance) {
    !inst.batch || inst.pending + 1 >= inst.batchSize
  }

  function Counted(inst: Instance): Instance {
    inst.(pending := if SyncDue(inst) then 0 else inst.pending + 1)
  }

  lemma {:induction false} WalkKeepsHex(h: Text -> Text, indexed: bool, lines: seq<Text>, st: State)
    requires IsHex64(st.last) && Walk(h, indexed, lines, st).Some?
    ensures IsHex64(Walk(h, indexed, lines, st).value.last)
    decreases |lines|
  {
    if lines != [] {
      WalkKeepsHex(h, indexed, lines[1..], Pass(h, indexed, lines[0], st).value);
    }
  }

  /** A file: its text, and how much of it is known to be on disk. */
  class LedgerFile {
    var text: Text
    var synced: nat

    constructor (text: Text)
      ensures this.text == text && synced == 0
    {
      this.text, synced := text, 0;
    }
  }

  class Ledger {
    const h: Text -> Text
    const file: LedgerFile
    const batch: bool
    const batchSize: nat
    var count: nat
    var last: Text
    var size: nat
    var pending: nat
    var open: bool

    ghost function View(): Instance
      reads this
    {
      Instance(batch, batchSize, State(count, last), size, pending)
    }

    ghost predicate Valid()
      reads this
    {
      && IsHex64(last)
      && pending < batchSize
      && (0 < pending ==> batch && open)
    }

    constructor (h: Text -> Text, file: LedgerFile, batch: bool, batchSize: int)
      ensures Valid() && this.h == h && this.file == file
      ensures View() == Instance(batch, if batchSize < 1 then 1 else batchSize, START, 0, 0)
    {
      this.h, this.file, this.batch := h, file, batch;
      this.batchSize := if batchSize < 1 then 1 else batchSize;
      count, last, size, pending, open := 0, GENESIS, 0, 0, false;
    }

    /** Read the whole file; a file that is no chain is refused and changes nothing. */
    method Load() returns (ok: bool)
      requires Valid()
      modifies this
      ensures Valid()
      ensures ok <==> Walk(h, false, Lines(file.text), START).Some?
      ensures View() == if ok
                        then old(View()).(state := Walk(h, false, Lines(file.text), START).value, size := |file.text|)
                        else old(View())
    {
      var st := Replay(h, file.text, 0, GENESIS);
      if st == None {
        return false;
      }
      WalkKeepsHex(h, false, Lines(file.text), START);
      count, last := st.value.count, st.value.last;
      size := |file.text|;
      return true;
    }

    /** Under the file lock: replay what others appended since. */
    method Resync() returns (ok: bool)
      requires Valid()
      modifies this
      ensures Valid() && open == old(open)
      ensures ok <==> Resynced(h, old(View()), file.text).Some?
      ensures ok ==> old(size) <= |file.text|
      ensures View() == if ok then Resynced(h, old(View()), file.text).value else old(View())
    {
      var onDisk := |file.text|;
      if onDisk == size {
        return true;
      }
      if onDisk < size {
        return false;
      }
      var raw := file.text[size..];
      var st := Replay(h, raw, count, last);
      if st == None {
        return false;
      }
      WalkKeepsHex(h, false, Lines(raw), State(count, last));
      count, last := st.value.count, st.value.last;
      size := onDisk;
      return true;
    }

    /** The next entry, hashed with an empty hash in place, and its line. */
    method EntryLocked(ts: Text, data: Value) returns (entry: Entry, line: Text)
      ensures entry == EntryFor(h, State(count, last), Item(ts, data))
      ensures line == LineFor(h, State(count, last), Item(ts, data))
    {
      entry := [Member(IDX, Num(Decimal(count))), Member(TS, Str(ts)), Member(DATA, data),
                Member(PREV_HASH, Str(last)), Member(SELF_HASH, Str([]))];
      KeysApart();
      ghost var bare := Bare(State(count, last), Item(ts, data));
      DropLast(bare, entry[4]);
      assert entry == bare + [entry[4]];
      var hash := HashEntry(h, entry);
      entry := entry[4 := Member(SELF_HASH, Str(hash))];
      assert entry == bare + [Member(SELF_HASH, Str(hash))];
      line := Print(Obj(entry)) + [LF];
    }

    method FlushLocked()
      requires IsHex64(last) && pending <= batchSize && 0 < batchSize && (0 < pending ==> batch && open)
      modifies this`pending, file`synced
      ensures Valid() && pending == 0
      ensures file.synced == if old(pending) == 0 then old(file.synced) else |file.text|
    {
      if open && pending != 0 {
        file.synced := |file.text|;
        pending := 0;
      }
    }

    /** Write a line and sync the file when that is due. */
    method Write(line: Text)
      requires Valid() && (batch ==> open)
      modifies this`pending, file
      ensures Valid() && View() == Counted(old(View()))
      ensures file.text == old(file.text) + line
      ensures file.synced == if SyncDue(old(View())) then |file.text| else old(file.synced)
    {
      file.text := file.text + line;
      if batch {
        pending := pending + 1;
        if pending >= batchSize {
          FlushLocked();
        }
      } else {
        file.synced := |file.text|;
      }
    }

    /** Once up to date: write the next entry, and count it. */
    method Link(ts: Text, data: Value) returns (e: Entry)
      requires Valid() && (batch ==> open)
      modifies this, file
      ensures Valid()
      ensures e == EntryFor(h, old(View()).state, Item(ts, data))
      ensures file.text == old(file.text) + LineFor(h, old(View()).state, Item(ts, data))
      ensures View() == Appended(h, Counted(old(View())), Item(ts, data))
      ensures file.synced == if SyncDue(old(View())) then |file.text| else old(file.synced)
    {
      var line: Text;
      e, line := EntryLocked(ts, data);
      EntryFollows(h, true, State(count, last), Item(ts, data));
      Write(line);
      last := StringOf(e, SELF_HASH);
      count := count + 1;
      size := size + |line|;
    }

    /** One append, start to end: refused data and a refused file write nothing. */
    method Append(ts: Text, data: Value) returns (entry: Option<Entry>)
      requires Valid() && InMemory(data)
      modifies this, file
      ensures Valid()
      ensures var inst := Resynced(h, old(View()), old(file.text));
              var item := Item(ts, data);
              && (entry.Some? <==> CheckPortable(data) && inst.Some?)
              && (entry.Some? ==>
                    && entry == Some(EntryFor(h, inst.value.state, item))
                    && file.text == old(file.text) + LineFor(h, inst.value.state, item)
                    && View() == Appended(h, Counted(inst.value), item)
                    && size == |file.text|
                    && file.synced == if SyncDue(inst.value) then |file.text| else old(file.synced))
              && (entry.None? ==> View() == old(View()) && file.text == old(file.text) && file.synced == old(file.synced))
      ensures entry.Some? ==> old(size) <= |old(file.text)|
    {
      if !CheckPortable(data) {
        return None;
      }
      if batch {
        open := true;
      }
      var ok := Resync();
      if !ok {
        return None;
      }
      var e := Link(ts, data);
      return Some(e);
    }

    method Flush()
      requires Valid()
      modifies this`pending, file`synced
      ensures Valid() && View() == old(View()).(pending := 0)
      ensures file.synced == if old(pending) == 0 then old(file.synced) else |file.text|
    {
      FlushLocked();
    }

    method Close()
      requires Valid()
      modifies this`pending, this`open, file`synced
      ensures Valid() && !open && View() == old(View()).(pending := 0)
      ensures file.synced == if old(pending) == 0 then old(file.synced) else |file.text|
    {
      FlushLocked();
      open := false;
    }
  }
}
