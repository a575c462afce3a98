/**
 The persistent raft log, src/raft_store.rs, and the lagging compaction that drives it in
 src/raft.rs. The in-memory storage of the raft crate is modelled as an abstract log.
 */
module RaftStore {
  import opened Wrappers

  type Data = seq<nat>

  datatype Entry = Entry(index: nat, term: nat, context: Data, data: Data)

  datatype Snapshot = Snapshot(index: nat, term: nat, data: Data)

  datatype HardState = HardState(term: nat, vote: nat, commit: nat)

  datatype StorageError = SnapshotOutOfDate | Compacted | Unavailable

  /* ---- The in-memory log ---- */

  /** Entry i sits at raft index offset + 1 + i; everything up to `offset` was compacted away. */
  datatype MemLog = MemLog(offset: nat, offsetTerm: nat, entries: seq<Entry>, snapshot: Snapshot, hardState: HardState) {
    function Last(): nat {
      offset + |entries|
    }

    ghost predicate Valid() {
      && (forall i :: 0 <= i < |entries| ==> entries[i].index == offset + 1 + i)
      && offset <= snapshot.index <= Last()
    }

    function At(index: nat): Entry
      requires offset < index <= Last()
    {
      entries[index - offset - 1]
    }

    function TermAt(index: nat): nat
      requires offset <= index <= Last()
    {
      if index == offset then offsetTerm else At(index).term
    }

    /** The entries after `index`. */
    function After(index: nat): seq<Entry>
      requires offset <= index <= Last()
    {
      entries[index - offset..]
    }

    function Append(ents: seq<Entry>): MemLog
      requires ents != [] ==> offset < ents[0].index <= Last() + 1
    {
      if ents == [] then this else this.(entries := entries[..ents[0].index - offset - 1] + ents)
    }

    function ApplySnapshot(snap: Snapshot): Result<MemLog, StorageError> {
      if snap.index <= snapshot.index then Err(SnapshotOutOfDate)
      else Ok(this.(offset := snap.index, offsetTerm := snap.term, entries := [], snapshot := snap))
    }

    function CreateSnapshot(index: nat, data: Data): Result<MemLog, StorageError>
      requires offset <= snapshot.index && index <= Last()
    {
      if index <= snapshot.index then Err(SnapshotOutOfDate)
      else Ok(this.(snapshot := Snapshot(index, TermAt(index), data)))
    }

    function Compact(index: nat): Result<MemLog, StorageError>
      requires index <= Last()
    {
      if index <= offset then Err(Compacted)
      else Ok(this.(offset := index, offsetTerm := At(index).term, entries := After(index)))
    }
  }

  const EMPTY_LOG := MemLog(0, 0, [], Snapshot(0, 0, []), HardState(0, 0, 0))

  /* ---- The database ---- */

  datatype Db = Db(entries: map<nat, Entry>, lastEntry: Option<nat>, snapshot: Option<Snapshot>, hardState: Option<HardState>)

  const EMPTY_DB := Db(map[], None, None, None)

  /* ---- Specification of the store ---- */

  datatype StoreState = StoreState(mem: MemLog, db: Db, first: nat, context: map<Data, nat>)

  /** The disk holds the snapshot and every entry after it, and nothing below the snapshot index. */
  ghost predicate Consistent(s: StoreState) {
    && s.mem.Valid()
    && s.first == s.mem.snapshot.index
    && s.db.snapshot == (if s.first == 0 then None else Some(s.mem.snapshot))
    && s.db.lastEntry == (if s.mem.Last() == 0 then None else Some(s.mem.Last()))
    && (forall i :: s.first < i <= s.mem.Last() ==> i in s.db.entries && s.db.entries[i] == s.mem.At(i))
    && (forall i <- s.db.entries :: s.first <= i)
    && (s.db.hardState.Some? ==> s.db.hardState.value == s.mem.hardState)
    && (s.first == 0 ==> s.mem.snapshot == EMPTY_LOG.snapshot && s.mem.offsetTerm == 0)
  }

  /** Entries as raft hands them over: consecutive, above the snapshot, leaving no gap. */
  ghost predicate LegalAppend(s: StoreState, ents: seq<Entry>) {
    && (forall i :: 0 <= i < |ents| ==> ents[i].index == ents[0].index + i)
    && (ents != [] ==> s.mem.snapshot.index < ents[0].index <= s.mem.Last() + 1)
  }

  function Indexed(ents: seq<Entry>): map<nat, Entry> {
    if ents == [] then map[]
    else Indexed(ents[..|ents| - 1])[ents[|ents| - 1].index := ents[|ents| - 1]]
  }

  function Contexts(ents: seq<Entry>): map<Data, nat> {
    if ents == [] then map[]
    else Contexts(ents[..|ents| - 1])[ents[|ents| - 1].context := ents[|ents| - 1].index]
  }

  predicate AppendRequires(s: StoreState, ents: seq<Entry>) {
    ents != [] ==> s.mem.offset < ents[0].index <= s.mem.Last() + 1
  }

  function Appended(s: StoreState, ents: seq<Entry>): StoreState
    requires AppendRequires(s, ents)
  {
    if ents == [] then s
    else
      s.(mem := s.mem.Append(ents),
         db := s.db.(entries := s.db.entries + Indexed(ents), lastEntry := Some(ents[|ents| - 1].index)),
         context := Retained(s, ents[0].index) + Contexts(ents))
  }

  function Discard(entries: map<nat, Entry>, from: nat, to: nat): map<nat, Entry> {
    map i | i in entries && !(from <= i < to) :: entries[i]
  }

  function Persist(s: StoreState, mem: MemLog): StoreState {
    s.(mem := mem,
       db := s.db.(snapshot := Some(mem.snapshot), entries := Discard(s.db.entries, s.first, mem.snapshot.index)),
       first := mem.snapshot.index)
  }

  function SnapshotCreated(s: StoreState, index: nat, data: Data): Result<StoreState, StorageError>
    requires s.mem.offset <= s.mem.snapshot.index && index <= s.mem.Last()
  {
    match s.mem.CreateSnapshot(index, data)
    case Err(e) => Err(e)
    case Ok(mem) => Ok(Persist(s, mem))
  }

  function SnapshotApplied(s: StoreState, snap: Snapshot): Result<StoreState, StorageError> {
    match s.mem.ApplySnapshot(snap)
    case Err(e) => Err(e)
    case Ok(mem) =>
      var s' := Persist(s, mem);
      Ok(s'.(db := s'.db.(lastEntry := Some(snap.index))))
  }

  function CompactedTo(s: StoreState, index: nat): Result<StoreState, StorageError>
    requires index <= s.mem.Last()
  {
    match s.mem.Compact(index)
    case Err(e) => Err(e)
    case Ok(mem) => Ok(s.(mem := mem, context := map c | c in s.context && s.context[c] >= index :: s.context[c]))
  }

  function HardStateSet(s: StoreState, hs: HardState): StoreState {
    s.(mem := s.mem.(hardState := hs), db := s.db.(hardState := Some(hs)))
  }

  function Min(a: nat, b: nat): nat {
    if a < b then a else b
  }

  /** Indices the reload looks for and does not find. */
  ghost predicate HasMissing(db: Db, start: nat, end: nat) {
    exists i :: start <= i < end && i !in db.entries
  }

  function Range(entries: map<nat, Entry>, start: nat, end: nat): seq<Entry>
    requires start <= end && forall i :: start <= i < end ==> i in entries
  {
    seq(end - start, k requires 0 <= k < end - start => entries[start + k])
  }

  /** Append what the database holds after the snapshot index. */
  ghost function LoadLog(mem: MemLog, db: Db, first: nat): Result<MemLog, StorageError> {
    if db.lastEntry.None? then Ok(mem)
    else
      var end := db.lastEntry.value + 1;
      var start := Min(first + 1, end);
      if HasMissing(db, start, end) then Err(Unavailable)
      else
        var ents := Range(db.entries, start, end);
        if ents != [] && !(mem.offset < ents[0].index <= mem.Last() + 1) then Err(Unavailable)
        else Ok(mem.Append(ents))
  }

  /** What a fresh store makes of a database. */
  ghost function Reload(db: Db): Result<StoreState, StorageError> {
    var loaded :=
      if db.snapshot.None? then Ok(EMPTY_LOG) else EMPTY_LOG.ApplySnapshot(db.snapshot.value);
    if loaded.Err? then Err(loaded.error)
    else
      var first := if db.snapshot.None? then 0 else db.snapshot.value.index;
      var hs := if db.hardState.Some? then db.hardState.value else HardState(0, 0, first);
      match LoadLog(loaded.value, db, first)
      case Err(e) => Err(e)
      case Ok(mem) => Ok(StoreState(mem.(hardState := hs), db, first, map[]))
  }

  /* ---- The code ---- */

  class RaftStore {
    var inMemory: MemLog
    var persistent: Db
    var persistentFirstEntry: nat
    var proposedContext: map<Data, nat>

    ghost function View(): StoreState
      reads this
    {
      StoreState(inMemory, persistent, persistentFirstEntry, proposedContext)
    }

    constructor (db: Db)
      ensures View() == StoreState(EMPTY_LOG, db, 0, map[])
    {
      inMemory, persistent, persistentFirstEntry, proposedContext := EMPTY_LOG, db, 0, map[];
    }

    method SetHardState(hs: HardState)
      requires Consistent(View())
      modifies this
      ensures Consistent(View()) && View() == HardStateSet(old(View()), hs)
    {
      inMemory := inMemory.(hardState := hs);
      persistent := persistent.(hardState := Some(hs));
    }

    method ApplySnapshot(snap: Snapshot) returns (r: Result<(), StorageError>)
      requires Consistent(View())
      modifies this
      ensures Consistent(View())
      ensures match SnapshotApplied(old(View()), snap)
              case Err(e) => r == Err(e) && View() == old(View())
              case Ok(s) => r.Ok? && View() == s
    {
      ApplySnapshotKeeps(View(), snap);
      var applied := inMemory.ApplySnapshot(snap);
      if applied.Err? {
        return Err(applied.error);
      }
      inMemory := applied.value;
      var index := snap.index;
      var batch := persistent.(snapshot := Some(snap), lastEntry := Some(index));
      batch := DiscardEntriesBeforeSnapshot(batch, index);
      persistent := batch;
      return Ok(());
    }

    method CreateSnapshot(idx: nat, data: Data) returns (r: Result<(), StorageError>)
      requires Consistent(View()) && idx <= inMemory.Last()
      modifies this
      ensures Consistent(View())
      ensures match SnapshotCreated(old(View()), idx, data)
              case Err(e) => r == Err(e) && View() == old(View())
              case Ok(s) => r.Ok? && View() == s
    {
      CreateSnapshotKeeps(View(), idx, data);
      var created := inMemory.CreateSnapshot(idx, data);
      if created.Err? {
        return Err(created.error);
      }
      inMemory := created.value;
      var batch := persistent.(snapshot := Some(inMemory.snapshot));
      batch := DiscardEntriesBeforeSnapshot(batch, idx);
      persistent := batch;
      return Ok(());
    }

    method Compact(compactIndex: nat) returns (r: Result<(), StorageError>)
      requires Consistent(View()) && compactIndex <= inMemory.snapshot.index
      modifies this
      ensures Consistent(View())
      ensures match CompactedTo(old(View()), compactIndex)
              case Err(e) => r == Err(e) && View() == old(View())
              case Ok(s) => r.Ok? && View() == s
    {
      CompactKeeps(View(), compactIndex);
      var compacted := inMemory.Compact(compactIndex);
      if compacted.Err? {
        return Err(compacted.error);
      }
      inMemory := compacted.value;
      proposedContext := map c | c in proposedContext && proposedContext[c] >= compactIndex :: proposedContext[c];
      return Ok(());
    }

    method Append(ents: seq<Entry>)
      requires Consistent(View()) && LegalAppend(View(), ents)
      modifies this
      ensures Consistent(View()) && View() == Appended(old(View()), ents)
    {
      hide Appended, Consistent;
      ghost var s := View();
      FirstIsSnapshot(s);
      AppendKeeps(s, ents);
      inMemory := inMemory.Append(ents);
      var first := true;
      var batch := persistent;
      AppendedNothing(s);
      for k := 0 to |ents|
        invariant inMemory == s.mem.Append(ents) && persistent == s.db && persistentFirstEntry == s.first
        invariant first <==> k == 0
        invariant AppendRequires(s, ents[..k])
        invariant batch == Appended(s, ents[..k]).db && proposedContext == Appended(s, ents[..k]).context
      {
        var ent, index := ents[k], ents[k].index;
        AppendedStep(s, ents, k);
        if index >= persistentFirstEntry {
          if first {
            first := false;
            proposedContext := map c | c in proposedContext && proposedContext[c] < index :: proposedContext[c];
          }
          proposedContext := proposedContext[ent.context := index];
          batch := batch.(entries := batch.entries[index := ent]);
          batch := batch.(lastEntry := Some(index));
        }
      }
      assert ents[..|ents|] == ents;
      persistent := batch;
      AppendedMem(s, ents);
    }

    method DiscardEntriesBeforeSnapshot(batch: Db, snapIndex: nat) returns (r: Db)
      modifies this`persistentFirstEntry
      ensures r == batch.(entries := Discard(batch.entries, old(persistentFirstEntry), snapIndex))
      ensures persistentFirstEntry == snapIndex
    {
      var from := persistentFirstEntry;
      persistentFirstEntry := snapIndex;
      r := batch;
      assert Discard(batch.entries, from, from) == batch.entries;
      if from < snapIndex {
        for index := from to snapIndex
          invariant persistentFirstEntry == snapIndex
          invariant r == batch.(entries := Discard(batch.entries, from, index))
        {
          r := r.(entries := r.entries - {index});
          assert r.entries == Discard(batch.entries, from, index + 1);
        }
      } else {
        assert Discard(batch.entries, from, snapIndex) == batch.entries;
      }
    }

    /** Load the in-memory log of a fresh store from its database. */
    method LoadInMemoryOrDefault() returns (r: Result<(), StorageError>)
      requires View() == StoreState(EMPTY_LOG, persistent, 0, map[])
      modifies this
      ensures match Reload(old(persistent))
              case Err(e) => r == Err(e)
              case Ok(s) => r.Ok? && View() == s
    {
      if persistent.snapshot.Some? {
        var snap := persistent.snapshot.value;
        var applied := inMemory.ApplySnapshot(snap);
        if applied.Err? {
          return Err(applied.error);
        }
        inMemory := applied.value;
        persistentFirstEntry := snap.index;
      }
      if persistent.lastEntry.Some? {
        var end := persistent.lastEntry.value + 1;
        var start := Min(persistentFirstEntry + 1, end);
        var entries, missing := LoadEntries(start, end);
        if missing {
          return Err(Unavailable);
        }
        if entries != [] && !(inMemory.offset < entries[0].index <= inMemory.Last() + 1) {
          return Err(Unavailable);
        }
        inMemory := inMemory.Append(entries);
      }
      if persistent.hardState.Some? {
        inMemory := inMemory.(hardState := persistent.hardState.value);
      } else {
        inMemory := inMemory.(hardState := HardState(0, 0, persistentFirstEntry));
      }
      return Ok(());
    }

    method LoadEntries(start: nat, end: nat) returns (entries: seq<Entry>, missing: bool)
      requires start <= end
      ensures missing <==> HasMissing(persistent, start, end)
      ensures !missing ==> entries == Range(persistent.entries, start, end)
    {
      entries, missing := [], false;
      for index := start to end
        invariant missing <==> HasMissing(persistent, start, index)
        invariant !missing ==> entries == Range(persistent.entries, start, index)
      {
        if index in persistent.entries {
          entries := entries + [persistent.entries[index]];
        } else {
          missing := true;
        }
        assert HasMissing(persistent, start, index + 1) <==> HasMissing(persistent, start, index) || index !in persistent.entries;
      }
    }
  }

  /** The raft loop's store handling: snapshot, then compact up to the snapshot before. */
  class RaftNode {
    const store: RaftStore
    var previousSnapshotIdx: (nat, bool)

    ghost function View(): NodeState
      reads this, store
    {
      NodeState(store.View(), previousSnapshotIdx.0, previousSnapshotIdx.1)
    }

    constructor (store: RaftStore)
      requires Consistent(store.View()) && store.inMemory.offset == store.inMemory.snapshot.index
      ensures this.store == store && View() == NodeState(store.View(), 0, false) && NodeValid(View())
    {
      this.store := store;
      previousSnapshotIdx := (0, false);
    }

    /** Neither unwrap can fail on a legal snapshot command. */
    method SnapshotCommand(idx: nat, data: Data)
      requires NodeValid(View()) && Legal(View(), TakeSnapshot(idx, data))
      modifies this, store
      ensures NodeValid(View()) && View() == Step(old(View()), TakeSnapshot(idx, data))
    {
      TakeSnapshotKeeps(View(), idx, data);
      var (prevIdx, needCompact) := previousSnapshotIdx;
      if idx != prevIdx {
        var created := store.CreateSnapshot(idx, data);
        assert created.Ok?;
      }
      if needCompact {
        var compacted := store.Compact(prevIdx);
        assert compacted.Ok?;
      }
      previousSnapshotIdx := (idx, idx != prevIdx);
    }

    method UpdateReadyMutStore(snap: Option<Snapshot>, entries: seq<Entry>, hs: Option<HardState>)
      requires NodeValid(View()) && Legal(View(), ReadyUpdate(snap, entries, hs))
      modifies this, store
      ensures NodeValid(View()) && View() == Step(old(View()), ReadyUpdate(snap, entries, hs))
    {
      ReadyUpdateKeeps(View(), snap, entries, hs);
      if snap.Some? {
        var applied := store.ApplySnapshot(snap.value);
        assert applied.Ok?;
        previousSnapshotIdx := (snap.value.index, false);
      }
      if entries != [] {
        store.Append(entries);
      }
      if hs.Some? {
        store.SetHardState(hs.value);
      }
    }
  }

  /* ---- Each operation keeps disk and memory consistent ---- */

  lemma {:induction false} IndexedIs(ents: seq<Entry>)
    requires forall i :: 0 <= i < |ents| ==> ents[i].index == ents[0].index + i
    ensures forall i :: i in Indexed(ents) <==> ents != [] && ents[0].index <= i < ents[0].index + |ents|
    ensures forall i <- Indexed(ents) :: Indexed(ents)[i] == ents[i - ents[0].index]
    decreases |ents|
  {
    if ents != [] {
      IndexedIs(ents[..|ents| - 1]);
    }
  }

  ghost predicate HasContext(ents: seq<Entry>, c: Data) {
    exists i :: 0 <= i < |ents| && ents[i].context == c
  }

  /** Some entry of that index has the context. */
  ghost predicate HasContextAt(ents: seq<Entry>, c: Data, index: nat) {
    exists i :: 0 <= i < |ents| && ents[i].context == c && ents[i].index == index
  }

  lemma {:induction false} ContextsAre(ents: seq<Entry>)
    ensures forall c :: c in Contexts(ents) <==> HasContext(ents, c)
    ensures forall c <- Contexts(ents) :: HasContextAt(ents, c, Contexts(ents)[c])
    decreases |ents|
  {
    if ents != [] {
      var n := |ents| - 1;
      ContextsAre(ents[..n]);
      forall c ensures c in Contexts(ents) <==> HasContext(ents, c) {
        HasContextMore(ents, c);
      }
      forall c <- Contexts(ents) ensures HasContextAt(ents, c, Contexts(ents)[c]) {
        if c == ents[n].context {
          assert ents[n].index == Contexts(ents)[c];
        } else {
          assert c in Contexts(ents[..n]) && HasContextAt(ents[..n], c, Contexts(ents)[c]);
          var i :| 0 <= i < n && ents[..n][i].context == c && ents[..n][i].index == Contexts(ents)[c];
          assert ents[i].context == c;
        }
      }
    }
  }

  lemma HasContextMore(ents: seq<Entry>, c: Data)
    requires ents != []
    ensures var n := |ents| - 1; HasContext(ents, c) <==> HasContext(ents[..n], c) || ents[n].context == c
  {
    var n := |ents| - 1;
    if HasContext(ents[..n], c) {
      var i :| 0 <= i < n && ents[..n][i].context == c;
      assert ents[i].context == c;
    }
    if i :| 0 <= i < |ents| && ents[i].context == c && i < n {
      assert ents[..n][i].context == c;
    }
  }

  lemma AppendedNothing(s: StoreState)
    ensures Appended(s, []) == s
  {
  }

  lemma AppendedMem(s: StoreState, ents: seq<Entry>)
    requires AppendRequires(s, ents)
    ensures Appended(s, ents) == StoreState(s.mem.Append(ents), Appended(s, ents).db, s.first, Appended(s, ents).context)
  {
  }

  lemma UpdateOfSum<K, V>(a: map<K, V>, b: map<K, V>, k: K, v: V)
    ensures a + b[k := v] == (a + b)[k := v]
  {
  }

  function Retained(s: StoreState, index: nat): map<Data, nat> {
    map c | c in s.context && s.context[c] < index :: s.context[c]
  }

  lemma AppendedStep(s: StoreState, ents: seq<Entry>, k: nat)
    requires Consistent(s) && LegalAppend(s, ents) && k < |ents|
    ensures AppendRequires(s, ents[..k]) && AppendRequires(s, ents[..k + 1])
    ensures s.first < ents[k].index
    ensures var before, after := Appended(s, ents[..k]), Appended(s, ents[..k + 1]);
            && after.db == before.db.(entries := before.db.entries[ents[k].index := ents[k]], lastEntry := Some(ents[k].index))
            && after.context == (if k == 0 then Retained(s, ents[0].index) else before.context)[ents[k].context := ents[k].index]
  {
    FirstIsSnapshot(s);
    hide Consistent, Retained;
    var front, back := ents[..k], ents[..k + 1];
    assert back[..k] == front && back[0] == ents[0] && back[k] == ents[k];
    var kept := Retained(s, ents[0].index);
    UpdateOfSum(s.db.entries, Indexed(front), ents[k].index, ents[k]);
    UpdateOfSum(kept, Contexts(front), ents[k].context, ents[k].index);
    assert k == 0 ==> front == [];
    assert s.db.entries + map[] == s.db.entries && kept + map[] == kept;
  }

  lemma FirstIsSnapshot(s: StoreState)
    requires Consistent(s)
    ensures s.first == s.mem.snapshot.index && s.mem.offset <= s.first <= s.mem.Last()
  {
  }

  lemma AppendKeeps(s: StoreState, ents: seq<Entry>)
    requires Consistent(s) && LegalAppend(s, ents)
    ensures Consistent(Appended(s, ents))
  {
    if ents != [] {
      IndexedIs(ents);
      var s' := Appended(s, ents);
      assert s'.mem.Last() == ents[0].index + |ents| - 1;
      forall i | s.first < i <= s'.mem.Last() ensures i in s'.db.entries && s'.db.entries[i] == s'.mem.At(i) {
        if i < ents[0].index {
          assert s'.mem.At(i) == s.mem.At(i);
        }
      }
    }
  }

  /** After an append the log holds each entry at its index, ends at the last, and is as before below the first. */
  lemma AppendHolds(s: StoreState, ents: seq<Entry>)
    requires Consistent(s) && LegalAppend(s, ents) && ents != []
    ensures var mem := Appended(s, ents).mem;
            && mem.offset == s.mem.offset && mem.snapshot == s.mem.snapshot
            && mem.Last() == ents[|ents| - 1].index
            && (forall i :: 0 <= i < |ents| ==> mem.offset < ents[i].index <= mem.Last() && mem.At(ents[i].index) == ents[i])
            && (forall i :: mem.offset < i < ents[0].index ==> i <= s.mem.Last() && mem.At(i) == s.mem.At(i))
  {
  }

  /** After an append no recorded context points at an entry that the append truncated. */
  lemma AppendContexts(s: StoreState, ents: seq<Entry>)
    requires Consistent(s) && LegalAppend(s, ents) && ents != []
    ensures var context := Appended(s, ents).context;
            && (forall i :: 0 <= i < |ents| ==> ents[i].context in context && HasContextAt(ents, ents[i].context, context[ents[i].context]))
            && (forall c <- context :: context[c] < ents[0].index ==> c in s.context && s.context[c] == context[c])
            && (forall c <- context :: context[c] >= ents[0].index ==> HasContextAt(ents, c, context[c]))
  {
    hide Consistent, Contexts, Indexed, HasContextAt;
    FirstIsSnapshot(s);
    assert Appended(s, ents).context == Retained(s, ents[0].index) + Contexts(ents);
    MergedContexts(Retained(s, ents[0].index), ents, ents[0].index);
  }

  /** Contexts below the index are kept ones, the others are those of the entries. */
  lemma MergedContexts(kept: map<Data, nat>, ents: seq<Entry>, index: nat)
    requires (forall c <- kept :: kept[c] < index) && (forall i :: 0 <= i < |ents| ==> ents[i].index >= index)
    ensures var context := kept + Contexts(ents);
            && (forall i :: 0 <= i < |ents| ==> ents[i].context in context && HasContextAt(ents, ents[i].context, context[ents[i].context]))
            && (forall c <- context :: context[c] < index ==> c in kept && kept[c] == context[c])
            && (forall c <- context :: context[c] >= index ==> HasContextAt(ents, c, context[c]))
  {
    hide Contexts, HasContextAt;
    ContextsAre(ents);
    var context := kept + Contexts(ents);
    forall c <- Contexts(ents) ensures context[c] == Contexts(ents)[c] >= index {
      ContextAbove(ents, c, Contexts(ents)[c], index);
    }
    forall i | 0 <= i < |ents| ensures ents[i].context in context && HasContextAt(ents, ents[i].context, context[ents[i].context]) {
      assert HasContext(ents, ents[i].context);
    }
  }

  lemma ContextAbove(ents: seq<Entry>, c: Data, at: nat, index: nat)
    requires HasContextAt(ents, c, at) && forall i :: 0 <= i < |ents| ==> ents[i].index >= index
    ensures at >= index
  {
  }

  lemma CreateSnapshotKeeps(s: StoreState, index: nat, data: Data)
    requires Consistent(s) && index <= s.mem.Last()
    ensures SnapshotCreated(s, index, data).Ok? <==> s.mem.snapshot.index < index
    ensures SnapshotCreated(s, index, data).Ok? ==> Consistent(SnapshotCreated(s, index, data).value)
  {
    if s.mem.snapshot.index < index {
      var s' := SnapshotCreated(s, index, data).value;
      forall i | s'.first < i <= s'.mem.Last() ensures i in s'.db.entries && s'.db.entries[i] == s'.mem.At(i) {
        assert s'.mem.At(i) == s.mem.At(i);
      }
    }
  }

  lemma ApplySnapshotKeeps(s: StoreState, snap: Snapshot)
    requires Consistent(s)
    ensures SnapshotApplied(s, snap).Ok? ==> Consistent(SnapshotApplied(s, snap).value)
  {
  }

  /** Compaction up to an index that is covered by the snapshot leaves all that the disk holds. */
  lemma CompactKeeps(s: StoreState, index: nat)
    requires Consistent(s) && index <= s.mem.snapshot.index
    ensures CompactedTo(s, index).Ok? <==> s.mem.offset < index
    ensures CompactedTo(s, index).Ok? ==> Consistent(CompactedTo(s, index).value)
    ensures CompactedTo(s, index).Ok? ==> CompactedTo(s, index).value.mem.After(s.first) == s.mem.After(s.first)
    ensures CompactedTo(s, index).Ok? ==>
              var context := CompactedTo(s, index).value.context;
              && (forall c :: c in context <==> c in s.context && index <= s.context[c])
              && (forall c <- context :: context[c] == s.context[c])
  {
    if s.mem.offset < index {
      var s' := CompactedTo(s, index).value;
      forall i | s'.first < i <= s'.mem.Last() ensures i in s'.db.entries && s'.db.entries[i] == s'.mem.At(i) {
        assert s'.mem.At(i) == s.mem.At(i);
      }
    }
  }

  lemma RangeIs(entries: map<nat, Entry>, mem: MemLog, first: nat)
    requires mem.offset <= first <= mem.Last()
    requires forall i :: first < i <= mem.Last() ==> i in entries && entries[i] == mem.At(i)
    ensures Range(entries, first + 1, mem.Last() + 1) == mem.After(first)
  {
    var start, end := first + 1, mem.Last() + 1;
    var ents := Range(entries, start, end);
    forall k | 0 <= k < |ents| ensures ents[k] == mem.After(first)[k] {
      assert ents[k] == mem.At(start + k);
    }
  }

  lemma LoadedEntries(s: StoreState)
    requires Consistent(s) && s.mem.Last() != 0
    ensures var start, end := s.first + 1, s.mem.Last() + 1;
            && start == Min(s.first + 1, end)
            && !HasMissing(s.db, start, end)
            && Range(s.db.entries, start, end) == s.mem.After(s.first)
            && (s.mem.After(s.first) != [] ==> s.mem.After(s.first)[0].index == start)
  {
    RangeIs(s.db.entries, s.mem, s.first);
    hide Range;
    var after := s.mem.After(s.first);
    assert after != [] ==> after[0] == s.mem.At(s.first + 1);
  }

  lemma AppendToEmpty(base: MemLog, ents: seq<Entry>)
    requires base.entries == [] && (ents != [] ==> ents[0].index == base.offset + 1)
    ensures base.Last() == base.offset
    ensures base.Append(ents) == base.(entries := ents)
  {
    assert base.entries[..0] + ents == ents;
  }

  lemma LoadLogIs(s: StoreState, base: MemLog)
    requires Consistent(s)
    requires base.offset == s.first && base.entries == []
    ensures LoadLog(base, s.db, s.first) == Ok(base.(entries := s.mem.After(s.first)))
  {
    hide Consistent, HasMissing, Range, MemLog.Append, Min;
    LoadedSnapshot(s);
    if s.mem.Last() == 0 {
      assert s.mem.After(s.first) == [];
    } else {
      LoadedEntries(s);
      AppendToEmpty(base, s.mem.After(s.first));
    }
  }

  /** The store that is left when only the entries after the snapshot are kept in memory. */
  ghost function Restarted(s: StoreState): StoreState
    requires s.mem.offset <= s.first <= s.mem.Last()
  {
    var hs := if s.db.hardState.Some? then s.mem.hardState else HardState(0, 0, s.first);
    StoreState(MemLog(s.first, s.mem.snapshot.term, s.mem.After(s.first), s.mem.snapshot, hs), s.db, s.first, map[])
  }

  /**
   A consistent store reloads: no entry is missing, and the result is the last snapshot with exactly
   the log entries after it.
   */
  lemma ReloadConsistent(s: StoreState)
    requires Consistent(s)
    ensures s.mem.offset <= s.first <= s.mem.Last()
    ensures Reload(s.db) == Ok(Restarted(s))
    ensures Consistent(Restarted(s))
  {
    hide Consistent, LoadLog;
    RestartedConsistent(s);
    LoadedSnapshot(s);
    if s.first == 0 {
      LoadLogIs(s, EMPTY_LOG);
    } else {
      LoadLogIs(s, EMPTY_LOG.ApplySnapshot(s.mem.snapshot).value);
    }
  }

  lemma LoadedSnapshot(s: StoreState)
    requires Consistent(s)
    ensures s.mem.offset <= s.first <= s.mem.Last() && s.first == s.mem.snapshot.index
    ensures s.db.lastEntry == if s.mem.Last() == 0 then None else Some(s.mem.Last())
    ensures s.db.hardState.Some? ==> s.db.hardState.value == s.mem.hardState
    ensures s.first == 0 ==> s.db.snapshot == None && s.mem.snapshot == EMPTY_LOG.snapshot
    ensures EMPTY_LOG.offset == 0 && EMPTY_LOG.entries == []
    ensures s.first != 0 ==> s.db.snapshot == Some(s.mem.snapshot)
    ensures s.first != 0 ==>
              EMPTY_LOG.ApplySnapshot(s.mem.snapshot) == Ok(MemLog(s.first, s.mem.snapshot.term, [], s.mem.snapshot, HardState(0, 0, 0)))
  {
  }

  lemma RestartedConsistent(s: StoreState)
    requires Consistent(s)
    ensures Consistent(Restarted(s))
  {
    var t := Restarted(s);
    RestartedMem(s);
    hide MemLog.Valid;
    forall i | t.first < i <= t.mem.Last() ensures i in t.db.entries && t.db.entries[i] == t.mem.At(i) {
      assert t.mem.At(i) == s.mem.At(i);
    }
  }

  lemma RestartedMem(s: StoreState)
    requires s.mem.Valid() && s.first == s.mem.snapshot.index
    ensures Restarted(s).mem.Valid() && Restarted(s).mem.Last() == s.mem.Last()
    ensures forall i :: s.first < i <= s.mem.Last() ==> Restarted(s).mem.At(i) == s.mem.At(i)
  {
    var t := Restarted(s);
    forall i | s.first < i <= s.mem.Last() ensures t.mem.At(i) == s.mem.At(i) {
      assert t.mem.At(i) == s.mem.After(s.first)[i - s.first - 1];
    }
    forall i | 0 <= i < |t.mem.entries| ensures t.mem.entries[i].index == s.first + 1 + i {
      assert t.mem.entries[i] == s.mem.entries[s.first - s.mem.offset + i];
    }
  }

  /* ---- Runs of the raft loop ---- */

  datatype NodeState = NodeState(store: StoreState, prevIdx: nat, needCompact: bool)

  datatype NodeEvent =
    | TakeSnapshot(idx: nat, data: Data)
    | ReadyUpdate(snapshot: Option<Snapshot>, entries: seq<Entry>, hs: Option<HardState>)
    | Restart

  /** The compaction owed, if any, is to the last snapshot and still ahead of the log's offset. */
  ghost predicate NodeValid(n: NodeState) {
    && Consistent(n.store)
    && if n.needCompact then
         n.prevIdx == n.store.mem.snapshot.index && n.store.mem.offset < n.prevIdx
       else
         n.store.mem.offset == n.store.mem.snapshot.index && (n.prevIdx == 0 || n.prevIdx == n.store.mem.snapshot.index)
  }

  /** In-order commits: a snapshot is of the last one's index again or of a newer logged entry. */
  ghost predicate Legal(n: NodeState, e: NodeEvent) {
    match e
    case TakeSnapshot(idx, _) =>
      idx == n.prevIdx || n.store.mem.snapshot.index < idx <= n.store.mem.Last()
    case ReadyUpdate(snap, ents, _) =>
      && (snap.Some? ==> n.store.mem.snapshot.index < snap.value.index)
      && LegalAppend(if snap.Some? then SnapshotApplied(n.store, snap.value).value else n.store, ents)
    case Restart => true
  }

  ghost function Step(n: NodeState, e: NodeEvent): NodeState
    requires NodeValid(n) && Legal(n, e)
  {
    match e
    case TakeSnapshot(idx, data) =>
      var s := if idx != n.prevIdx then SnapshotCreated(n.store, idx, data).value else n.store;
      var s' := if n.needCompact then CompactedTo(s, n.prevIdx).value else s;
      NodeState(s', idx, idx != n.prevIdx)
    case ReadyUpdate(snap, ents, hs) =>
      var s := if snap.Some? then SnapshotApplied(n.store, snap.value).value else n.store;
      var s' := Appended(s, ents);
      var s'' := if hs.Some? then HardStateSet(s', hs.value) else s';
      if snap.Some? then NodeState(s'', snap.value.index, false) else n.(store := s'')
    case Restart =>
      ReloadConsistent(n.store);
      NodeState(Reload(n.store.db).value, 0, false)
  }

  lemma TakeSnapshotKeeps(n: NodeState, idx: nat, data: Data)
    requires NodeValid(n) && Legal(n, TakeSnapshot(idx, data))
    ensures NodeValid(Step(n, TakeSnapshot(idx, data)))
    ensures Step(n, TakeSnapshot(idx, data)).store.mem.offset == if n.needCompact then n.prevIdx else n.store.mem.offset
    ensures idx != n.prevIdx ==> SnapshotCreated(n.store, idx, data).Ok? && Consistent(SnapshotCreated(n.store, idx, data).value)
    ensures n.needCompact ==>
              var s := if idx != n.prevIdx then SnapshotCreated(n.store, idx, data).value else n.store;
              n.prevIdx <= s.mem.snapshot.index && CompactedTo(s, n.prevIdx).Ok?
  {
    hide Consistent;
    FirstIsSnapshot(n.store);
    var s := n.store;
    if idx != n.prevIdx {
      CreateSnapshotKeeps(n.store, idx, data);
      s := SnapshotCreated(n.store, idx, data).value;
    }
    if n.needCompact {
      CompactKeeps(s, n.prevIdx);
    }
  }

  lemma ReadyUpdateKeeps(n: NodeState, snap: Option<Snapshot>, ents: seq<Entry>, hs: Option<HardState>)
    requires NodeValid(n) && Legal(n, ReadyUpdate(snap, ents, hs))
    ensures NodeValid(Step(n, ReadyUpdate(snap, ents, hs)))
  {
    hide Consistent;
    var s := n.store;
    if snap.Some? {
      ApplySnapshotKeeps(n.store, snap.value);
      s := SnapshotApplied(n.store, snap.value).value;
    }
    AppendKeeps(s, ents);
    if hs.Some? {
      HardStateKeeps(Appended(s, ents), hs.value);
    }
  }

  lemma HardStateKeeps(s: StoreState, hs: HardState)
    requires Consistent(s)
    ensures Consistent(HardStateSet(s, hs))
  {
    assert forall i :: s.first < i <= s.mem.Last() ==> HardStateSet(s, hs).mem.At(i) == s.mem.At(i);
  }

  /** Every legal step keeps the node valid, so that no compaction is ever refused. */
  lemma StepKeeps(n: NodeState, e: NodeEvent)
    requires NodeValid(n) && Legal(n, e)
    ensures NodeValid(Step(n, e))
  {
    hide Consistent;
    match e
    case TakeSnapshot(idx, data) => TakeSnapshotKeeps(n, idx, data);
    case ReadyUpdate(snap, ents, hs) => ReadyUpdateKeeps(n, snap, ents, hs);
    case Restart =>
      ReloadConsistent(n.store);
      FirstIsSnapshot(n.store);
  }

  ghost predicate LegalRun(n: NodeState, events: seq<NodeEvent>)
    requires NodeValid(n)
    decreases |events|
  {
    events == [] || (
      && Legal(n, events[0])
      && (StepKeeps(n, events[0]); LegalRun(Step(n, events[0]), events[1..])))
  }

  ghost function Run(n: NodeState, events: seq<NodeEvent>): NodeState
    requires NodeValid(n) && LegalRun(n, events)
    decreases |events|
  {
    if events == [] then n
    else
      StepKeeps(n, events[0]);
      Run(Step(n, events[0]), events[1..])
  }

  /**
   After every legal run, restarts included, reloading finds every entry and rebuilds the snapshot
   and the log after it, and no entry below the snapshot index is left on disk.
   */
  lemma {:induction false} RunReloads(n: NodeState, events: seq<NodeEvent>)
    requires NodeValid(n) && LegalRun(n, events)
    ensures var s := Run(n, events).store;
            && NodeValid(Run(n, events))
            && Reload(s.db).Ok?
            && Reload(s.db).value.mem.snapshot == s.mem.snapshot
            && Reload(s.db).value.mem.entries == s.mem.After(s.mem.snapshot.index)
            && forall i <- s.db.entries :: s.mem.snapshot.index <= i
    decreases |events|
  {
    if events == [] {
      ReloadConsistent(n.store);
    } else {
      StepKeeps(n, events[0]);
      RunReloads(Step(n, events[0]), events[1..]);
    }
  }

  const NEW_NODE := NodeState(StoreState(EMPTY_LOG, EMPTY_DB, 0, map[]), 0, false)

  lemma NewNodeValid()
    ensures NodeValid(NEW_NODE)
  {
  }

  /** So it is after every legal run of a node that started on an empty database. */
  lemma NewNodeReloads(events: seq<NodeEvent>)
    requires (NewNodeValid(); LegalRun(NEW_NODE, events))
    ensures var s := Run(NEW_NODE, events).store;
            && NodeValid(Run(NEW_NODE, events))
            && Reload(s.db).Ok?
            && Reload(s.db).value.mem.snapshot == s.mem.snapshot
            && Reload(s.db).value.mem.entries == s.mem.After(s.mem.snapshot.index)
            && forall i <- s.db.entries :: s.mem.snapshot.index <= i
  {
    RunReloads(NEW_NODE, events);
  }

  /* ---- The log is what was handed over ---- */

  /** The entry last handed over for the index, if no later entries cut it off and no later snapshot replaced it. */
  function Handed(events: seq<NodeEvent>, index: nat): Option<Entry> {
    if events == [] then None
    else
      var front := events[..|events| - 1];
      match events[|events| - 1]
      case ReadyUpdate(snap, ents, _) =>
        if ents != [] && ents[0].index <= index then
          if index < ents[0].index + |ents| then Some(ents[index - ents[0].index]) else None
        else if snap.Some? then None
        else Handed(front, index)
      case _ => Handed(front, index)
  }

  /** The last snapshot: one that was applied, or one taken at a newer index with the term of the entry there. */
  function SnapshotGiven(events: seq<NodeEvent>): Snapshot {
    if events == [] then EMPTY_LOG.snapshot
    else
      var front := events[..|events| - 1];
      match events[|events| - 1]
      case ReadyUpdate(Some(snap), _, _) => snap
      case TakeSnapshot(idx, data) =>
        if SnapshotGiven(front).index < idx && Handed(front, idx).Some? then Snapshot(idx, Handed(front, idx).value.term, data)
        else SnapshotGiven(front)
      case _ => SnapshotGiven(front)
  }

  function HardStateGiven(events: seq<NodeEvent>): Option<HardState> {
    if events == [] then None
    else
      match events[|events| - 1]
      case ReadyUpdate(_, _, Some(hs)) => Some(hs)
      case _ => HardStateGiven(events[..|events| - 1])
  }

  ghost predicate LogHanded(mem: MemLog, events: seq<NodeEvent>)
    requires mem.offset <= mem.snapshot.index
  {
    forall i: nat :: mem.snapshot.index < i ==>
      && (i <= mem.Last() <==> Handed(events, i).Some?)
      && (i <= mem.Last() ==> mem.At(i) == Handed(events, i).value)
  }

  ghost predicate Matches(n: NodeState, events: seq<NodeEvent>)
    requires NodeValid(n)
  {
    FirstIsSnapshot(n.store);
    && n.store.mem.snapshot == SnapshotGiven(events)
    && n.store.db.hardState == HardStateGiven(events)
    && LogHanded(n.store.mem, events)
  }

  lemma TakeMatches(n: NodeState, past: seq<NodeEvent>, idx: nat, data: Data)
    requires NodeValid(n) && Legal(n, TakeSnapshot(idx, data)) && Matches(n, past)
    ensures NodeValid(Step(n, TakeSnapshot(idx, data))) && Matches(Step(n, TakeSnapshot(idx, data)), past + [TakeSnapshot(idx, data)])
  {
    var e := TakeSnapshot(idx, data);
    var events := past + [e];
    assert events[..|events| - 1] == past;
    TakeSnapshotKeeps(n, idx, data);
    FirstIsSnapshot(n.store);
    FirstIsSnapshot(Step(n, e).store);
    hide Consistent;
    assert idx != n.prevIdx ==> n.store.mem.snapshot.index < idx && Handed(past, idx).Some?;
    forall i: nat | Step(n, e).store.mem.snapshot.index < i
      ensures Handed(events, i) == Handed(past, i)
    {
    }
  }

  lemma SnapshotAppliedLog(s: StoreState, snap: Snapshot)
    requires Consistent(s) && s.mem.snapshot.index < snap.index
    ensures SnapshotApplied(s, snap).Ok?
    ensures var s' := SnapshotApplied(s, snap).value;
            s'.mem.snapshot == snap && s'.mem.offset == s'.mem.Last() == snap.index && s'.db.hardState == s.db.hardState && Consistent(s')
  {
    ApplySnapshotKeeps(s, snap);
  }

  /** The entry that the snapshot and the entries of an update leave at the index, on top of what there was. */
  function HandedOnTop(past: seq<NodeEvent>, snap: Option<Snapshot>, ents: seq<Entry>, index: nat): Option<Entry> {
    if ents != [] && ents[0].index <= index then
      if index < ents[0].index + |ents| then Some(ents[index - ents[0].index]) else None
    else if snap.Some? then None
    else Handed(past, index)
  }

  lemma HandedReady(past: seq<NodeEvent>, snap: Option<Snapshot>, ents: seq<Entry>, hs: Option<HardState>)
    ensures var events := past + [ReadyUpdate(snap, ents, hs)];
            && (forall i: nat :: Handed(events, i) == HandedOnTop(past, snap, ents, i))
            && SnapshotGiven(events) == (if snap.Some? then snap.value else SnapshotGiven(past))
            && HardStateGiven(events) == if hs.Some? then hs else HardStateGiven(past)
  {
    var events := past + [ReadyUpdate(snap, ents, hs)];
    assert events[..|events| - 1] == past;
  }

  /** What is in the log above the snapshot, by index. */
  ghost predicate LogOnTop(mem: MemLog, past: seq<NodeEvent>, snap: Option<Snapshot>, ents: seq<Entry>)
    requires mem.offset <= mem.snapshot.index
  {
    forall i: nat :: mem.snapshot.index < i ==>
      && (i <= mem.Last() <==> HandedOnTop(past, snap, ents, i).Some?)
      && (i <= mem.Last() ==> mem.At(i) == HandedOnTop(past, snap, ents, i).value)
  }

  lemma AppendOnTop(s: StoreState, past: seq<NodeEvent>, snap: Option<Snapshot>, ents: seq<Entry>)
    requires Consistent(s) && LegalAppend(s, ents)
    requires (FirstIsSnapshot(s); LogOnTop(s.mem, past, snap, []))
    ensures var mem := Appended(s, ents).mem;
            mem.offset == s.mem.offset && mem.snapshot == s.mem.snapshot && mem.offset <= mem.snapshot.index && LogOnTop(mem, past, snap, ents)
  {
    hide Consistent, Handed, LegalAppend;
    FirstIsSnapshot(s);
    if ents != [] {
      AppendHolds(s, ents);
      AppendFollows(s, ents);
      var mem := Appended(s, ents).mem;
      hide Appended;
      forall i: nat | mem.snapshot.index < i
        ensures i <= mem.Last() <==> HandedOnTop(past, snap, ents, i).Some?
        ensures i <= mem.Last() ==> mem.At(i) == HandedOnTop(past, snap, ents, i).value
      {
        if ents[0].index <= i < ents[0].index + |ents| {
          assert ents[i - ents[0].index].index == i;
        } else if i < ents[0].index {
          assert HandedOnTop(past, snap, ents, i) == HandedOnTop(past, snap, [], i);
        }
      }
    }
  }

  lemma AppendFollows(s: StoreState, ents: seq<Entry>)
    requires LegalAppend(s, ents) && ents != []
    ensures s.mem.snapshot.index < ents[0].index <= s.mem.Last() + 1
    ensures forall i :: 0 <= i < |ents| ==> ents[i].index == ents[0].index + i
  {
  }

  lemma UpdatedStore(n: NodeState, snap: Option<Snapshot>, ents: seq<Entry>, hs: Option<HardState>)
    requires NodeValid(n) && Legal(n, ReadyUpdate(snap, ents, hs))
    ensures var s := if snap.Some? then SnapshotApplied(n.store, snap.value).value else n.store;
            var after := Step(n, ReadyUpdate(snap, ents, hs)).store;
            && Consistent(s) && LegalAppend(s, ents)
            && s.mem.snapshot == (if snap.Some? then snap.value else n.store.mem.snapshot)
            && (snap.Some? ==> s.mem.offset == s.mem.Last() == snap.value.index)
            && after.mem.(hardState := s.mem.hardState) == Appended(s, ents).mem
            && after.db.hardState == if hs.Some? then hs else n.store.db.hardState
  {
    hide Consistent;
    if snap.Some? {
      SnapshotAppliedLog(n.store, snap.value);
    }
  }

  lemma ReadyMatches(n: NodeState, past: seq<NodeEvent>, snap: Option<Snapshot>, ents: seq<Entry>, hs: Option<HardState>)
    requires NodeValid(n) && Legal(n, ReadyUpdate(snap, ents, hs)) && Matches(n, past)
    ensures NodeValid(Step(n, ReadyUpdate(snap, ents, hs)))
    ensures Matches(Step(n, ReadyUpdate(snap, ents, hs)), past + [ReadyUpdate(snap, ents, hs)])
  {
    hide Consistent, LegalAppend, Handed, SnapshotGiven, HardStateGiven, Appended;
    ReadyUpdateKeeps(n, snap, ents, hs);
    UpdatedStore(n, snap, ents, hs);
    var s := if snap.Some? then SnapshotApplied(n.store, snap.value).value else n.store;
    var after := Step(n, ReadyUpdate(snap, ents, hs)).store;
    hide Step, NodeValid;
    NodeConsistent(n);
    FirstIsSnapshot(n.store);
    FirstIsSnapshot(s);
    assert LogOnTop(s.mem, past, snap, []);
    AppendOnTop(s, past, snap, ents);
    FirstIsSnapshotOf(Step(n, ReadyUpdate(snap, ents, hs)));
    HandedReady(past, snap, ents, hs);
    assert LogOnTop(after.mem, past, snap, ents);
  }

  lemma NodeConsistent(n: NodeState)
    requires NodeValid(n)
    ensures Consistent(n.store)
  {
  }

  lemma FirstIsSnapshotOf(n: NodeState)
    requires NodeValid(n)
    ensures n.store.first == n.store.mem.snapshot.index && n.store.mem.offset <= n.store.first <= n.store.mem.Last()
  {
  }

  lemma RestartMatches(n: NodeState, past: seq<NodeEvent>)
    requires NodeValid(n) && Matches(n, past)
    ensures NodeValid(Step(n, Restart)) && Matches(Step(n, Restart), past + [Restart])
  {
    hide Consistent, Reload;
    var events := past + [Restart];
    assert events[..|events| - 1] == past;
    StepKeeps(n, Restart);
    ReloadConsistent(n.store);
    FirstIsSnapshot(n.store);
    ConsistentLog(n.store);
    RestartedMem(n.store);
    forall i: nat | n.store.mem.snapshot.index < i ensures Handed(events, i) == Handed(past, i) {
    }
  }

  lemma ConsistentLog(s: StoreState)
    requires Consistent(s)
    ensures s.mem.Valid() && s.first == s.mem.snapshot.index
  {
  }

  lemma StepMatches(n: NodeState, past: seq<NodeEvent>, e: NodeEvent)
    requires NodeValid(n) && Legal(n, e) && Matches(n, past)
    ensures NodeValid(Step(n, e)) && Matches(Step(n, e), past + [e])
  {
    hide NodeValid, Matches, Legal, Step;
    match e
    case TakeSnapshot(idx, data) => TakeMatches(n, past, idx, data);
    case ReadyUpdate(snap, ents, hs) => ReadyMatches(n, past, snap, ents, hs);
    case Restart => RestartMatches(n, past);
  }

  lemma {:induction false} RunMatches(n: NodeState, past: seq<NodeEvent>, events: seq<NodeEvent>)
    requires NodeValid(n) && LegalRun(n, events) && Matches(n, past)
    ensures NodeValid(Run(n, events)) && Matches(Run(n, events), past + events)
    decreases |events|
  {
    hide NodeValid, Matches, Legal, Step;
    if events == [] {
      assert past + events == past;
    } else {
      StepMatches(n, past, events[0]);
      RunMatches(Step(n, events[0]), past + [events[0]], events[1..]);
      assert past + [events[0]] + events[1..] == past + events;
    }
  }

  /**
   Over every legal run from an empty database, restarts included: a reload returns the snapshot last
   taken or applied, at each index above it the entry last handed over for it and no other, and the hard
   state last given.
   */
  lemma RunReturnsGiven(events: seq<NodeEvent>)
    requires (NewNodeValid(); LegalRun(NEW_NODE, events))
    ensures var s := Run(NEW_NODE, events).store;
            && Reload(s.db).Ok?
            && var mem := Reload(s.db).value.mem;
               && mem.snapshot == s.mem.snapshot == SnapshotGiven(events)
               && (HardStateGiven(events).Some? ==> mem.hardState == HardStateGiven(events).value)
               && mem.offset <= mem.snapshot.index && LogHanded(mem, events)
  {
    hide Consistent, Reload, LegalRun, Run, NodeValid, SnapshotGiven, HardStateGiven, Handed;
    NewMatches();
    RunMatches(NEW_NODE, [], events);
    assert [] + events == events;
    MatchesReload(Run(NEW_NODE, events), events);
  }

  lemma MatchesReload(n: NodeState, events: seq<NodeEvent>)
    requires NodeValid(n) && Matches(n, events)
    ensures Reload(n.store.db).Ok?
    ensures var mem := Reload(n.store.db).value.mem;
            && mem.snapshot == n.store.mem.snapshot == SnapshotGiven(events)
            && (HardStateGiven(events).Some? ==> mem.hardState == HardStateGiven(events).value)
            && mem.offset <= mem.snapshot.index && LogHanded(mem, events)
  {
    hide Consistent, Reload, SnapshotGiven, HardStateGiven, Handed;
    var s := n.store;
    FirstIsSnapshot(s);
    LoadedSnapshot(s);
    ReloadConsistent(s);
    ConsistentLog(s);
    RestartedMem(s);
  }

  lemma NewMatches()
    ensures NodeValid(NEW_NODE) && Matches(NEW_NODE, [])
  {
  }
}
