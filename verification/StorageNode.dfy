/**
 Storing blocks live and by catch-up, and the persisted "contiguous up to n" marker, src/storage.rs.
 */
module StorageNode {
  import opened Wrappers
  import opened MachineIntegers
  import opened ChainDb
  import opened StorageFetch

  /** A block complete for storage: its transactions in order, mining transaction last, and their data. */
  datatype StoredBlock = StoredBlock(
    bNum: nat,
    hash: string,
    value: string,
    json: string,
    txHashes: seq<string>,
    txs: map<string, (string, string)>)

  datatype StorageError = NonUtf8Key | BlockNotSpecified | NotBelowBlockStored

  /* ---- Specification ---- */

  function PutTxs(db: Db, blk: StoredBlock, n: nat): Db
    requires n <= |blk.txHashes|
  {
    if n == 0 then db
    else
      var before, h := PutTxs(db, blk, n - 1), blk.txHashes[n - 1];
      if h in blk.txs then Put(before, Tx(blk.bNum, n - 1), h, blk.txs[h].0, blk.txs[h].1) else before
  }

  function NameLast(db: Db, pointer: string): Db {
    db.(cells := db.cells[(BC_NAMED, LAST_BLOCK_HASH_KEY) := pointer])
  }

  function Mark(db: Db, contiguous: bool, bNum: nat): Db {
    if contiguous then db.(contiguous := Some(bNum)) else db
  }

  function StoredComplete(db: Db, contiguous: bool, blk: StoredBlock): Db {
    var withTxs := PutTxs(db, blk, |blk.txHashes|);
    var withBlock := Put(withTxs, Block(blk.bNum, |blk.txHashes|), blk.hash, blk.value, blk.json);
    Mark(NameLast(withBlock, VersionPointer(BC_NOW, blk.hash)), contiguous, blk.bNum)
  }

  function PutItems(db: Db, items: seq<BlockchainItem>, n: nat): Db
    requires n <= |items|
  {
    if n == 0 then db
    else
      var item := items[n - 1];
      Put(PutItems(db, items, n - 1), item.meta, item.key, item.data, item.dataJson)
  }

  /** The pointer of the last block item for `bNum` among the first n. */
  function BlockPointer(items: seq<BlockchainItem>, bNum: nat, n: nat): Option<string>
    requires n <= |items|
  {
    if n == 0 then None
    else if items[n - 1].meta.Block? && items[n - 1].meta.blockNum == bNum then Some(VersionPointer(BC_NOW, items[n - 1].key))
    else BlockPointer(items, bNum, n - 1)
  }

  function StoredFetched(isUtf8: string -> bool, db: Db, lastStored: nat, contiguous: bool, blk: FetchedBlock): Result<Db, StorageError> {
    if exists i :: 0 <= i < |blk.items| && !isUtf8(blk.items[i].key) then Err(NonUtf8Key)
    else
      match BlockPointer(blk.items, blk.bNum, |blk.items|)
      case None => Err(BlockNotSpecified)
      case Some(pointer) =>
        var filled := PutItems(db, blk.items, |blk.items|);
        Ok(Mark(if lastStored == blk.bNum then NameLast(filled, pointer) else filled, contiguous, blk.bNum))
  }

  datatype NodeState = NodeState(db: Db, catchUp: CatchUp, lastStored: Option<nat>)

  datatype Event =
    | BlockCommitted(block: StoredBlock)
    | SnapshotApplied(lastStored: Option<nat>)
    | ItemReceived(item: BlockchainItem)

  function HandleBlock(s: NodeState, blk: StoredBlock): NodeState {
    NodeState(StoredComplete(s.db, IsContiguous(s.catchUp, blk.bNum), blk),
              Raised(Marked(s.catchUp, blk.bNum), blk.bNum),
              Some(blk.bNum))
  }

  function HandleSnapshot(s: NodeState, lastStored: Option<nat>): NodeState {
    NodeState(s.db, if lastStored.Some? then FetchMissing(s.catchUp, lastStored.value) else s.catchUp, lastStored)
  }

  /** Whether the running fetch accepts the item. */
  predicate TakesIn(s: NodeState, item: BlockchainItem) {
    s.catchUp.fetch.Some? && item.key != "" && Accepts(s.catchUp.fetch.value, item.meta)
  }

  function HandleItem(isUtf8: string -> bool, s: NodeState, item: BlockchainItem): NodeState {
    var (catchUp, block) := ReceiveAnswer(s.catchUp, item);
    if block.None? || s.lastStored.None? || s.lastStored.value < block.value.bNum then s.(catchUp := catchUp)
    else
      match StoredFetched(isUtf8, s.db, s.lastStored.value, IsContiguous(catchUp, block.value.bNum), block.value)
      case Err(_) => s.(catchUp := catchUp)
      case Ok(db) => NodeState(db, Marked(catchUp, block.value.bNum), s.lastStored)
  }

  function Step(isUtf8: string -> bool, s: NodeState, e: Event): NodeState {
    match e
    case BlockCommitted(blk) => HandleBlock(s, blk)
    case SnapshotApplied(last) => HandleSnapshot(s, last)
    case ItemReceived(item) => HandleItem(isUtf8, s, item)
  }

  function Run(isUtf8: string -> bool, s: NodeState, events: seq<Event>): NodeState {
    if events == [] then s else Step(isUtf8, Run(isUtf8, s, events[..|events| - 1]), events[|events| - 1])
  }

  /* ---- The code ---- */

  class StorageNode {
    const isUtf8: string -> bool
    const catchupFetch: StorageFetch
    var db: Db
    var lastBlockStored: Option<nat>

    ghost function View(): NodeState
      reads this, catchupFetch, catchupFetch.toReceive
    {
      NodeState(db, catchupFetch.View(), lastBlockStored)
    }

    ghost predicate Valid()
      reads this, catchupFetch, catchupFetch.toReceive
    {
      catchupFetch.Valid()
    }

    /** Starting up on a database: the marker is loaded, nothing is being fetched. */
    constructor (isUtf8: string -> bool, storageNodes: seq<nat>, db: Db)
      ensures Valid() && View() == NodeState(db, CatchUp(db.contiguous, None), None) && this.isUtf8 == isUtf8
    {
      this.isUtf8 := isUtf8;
      catchupFetch := new StorageFetch(storageNodes, db.contiguous);
      this.db := db;
      lastBlockStored := None;
    }

    method HandleCommittedBlock(blk: StoredBlock)
      requires Valid()
      modifies this, catchupFetch, catchupFetch.toReceive
      ensures Valid() && View() == HandleBlock(old(View()), blk)
    {
      var bNum := blk.bNum;
      var contiguous := IsContiguous(CatchUp(catchupFetch.lastContiguousBlockNum, None), bNum);
      db := StoreCompleteBlock(db, contiguous, blk);
      catchupFetch.UpdateContiguousBlockNum(contiguous, bNum);
      catchupFetch.IncreaseRunningTarget(bNum);
      lastBlockStored := Some(bNum);
    }

    method HandleCommittedSnapshot(last: Option<nat>)
      requires Valid()
      modifies this, catchupFetch, catchupFetch.toReceive
      ensures Valid() && View() == HandleSnapshot(old(View()), last)
    {
      lastBlockStored := last;
      if last.Some? {
        var _ := catchupFetch.FetchMissingBlockchainItems(last.value);
      }
    }

    method ReceiveBlockchainItem(item: BlockchainItem)
      requires Valid()
      modifies this, catchupFetch, catchupFetch.toReceive
      ensures Valid() && View() == HandleItem(isUtf8, old(View()), item)
    {
      var toStore := catchupFetch.ReceiveBlockchainItems(item);
      if toStore.None? {
        return;
      }
      var block := toStore.value;
      if lastBlockStored.None? || lastBlockStored.value < block.bNum {
        return;
      }
      var contiguous := IsContiguous(CatchUp(catchupFetch.lastContiguousBlockNum, None), block.bNum);
      var result := StoreFetchedCompleteBlock(isUtf8, db, lastBlockStored.value, contiguous, block);
      if result.Ok? {
        db := result.value;
        catchupFetch.UpdateContiguousBlockNum(contiguous, block.bNum);
      }
    }
  }

  method StoreCompleteBlock(db: Db, contiguous: bool, blk: StoredBlock) returns (r: Db)
    ensures r == StoredComplete(db, contiguous, blk)
  {
    var batch, txLen := db, 0;
    for txNum := 0 to |blk.txHashes|
      invariant batch == PutTxs(db, blk, txNum) && txLen == txNum
    {
      txLen := txNum + 1;
      var txHash := blk.txHashes[txNum];
      if txHash in blk.txs {
        batch := Put(batch, Tx(blk.bNum, txNum), txHash, blk.txs[txHash].0, blk.txs[txHash].1);
      }
    }
    batch := Put(batch, Block(blk.bNum, txLen), blk.hash, blk.value, blk.json);
    batch := NameLast(batch, VersionPointer(BC_NOW, blk.hash));
    if contiguous {
      batch := batch.(contiguous := Some(blk.bNum));
    }
    r := batch;
  }

  method StoreFetchedCompleteBlock(isUtf8: string -> bool, db: Db, lastStored: nat, contiguous: bool, blk: FetchedBlock)
    returns (r: Result<Db, StorageError>)
    ensures r == StoredFetched(isUtf8, db, lastStored, contiguous, blk)
  {
    var batch, blockPointer: Option<string> := db, None;
    for i := 0 to |blk.items|
      invariant forall k :: 0 <= k < i ==> isUtf8(blk.items[k].key)
      invariant batch == PutItems(db, blk.items, i)
      invariant blockPointer == BlockPointer(blk.items, blk.bNum, i)
    {
      var item := blk.items[i];
      if !isUtf8(item.key) {
        return Err(NonUtf8Key);
      }
      batch := Put(batch, item.meta, item.key, item.data, item.dataJson);
      if item.meta.Block? && item.meta.blockNum == blk.bNum {
        blockPointer := Some(VersionPointer(BC_NOW, item.key));
      }
    }
    if blockPointer.None? {
      return Err(BlockNotSpecified);
    }
    if lastStored == blk.bNum {
      batch := NameLast(batch, blockPointer.value);
    }
    if contiguous {
      batch := batch.(contiguous := Some(blk.bNum));
    }
    return Ok(batch);
  }

  /* ---- The marker is justified in every run ---- */

  ghost predicate Stored(db: Db, bNum: nat) {
    (BC_NAMED, IndexedBlockKey(bNum)) in db.cells
  }

  /** The persisted marker is the one in memory, and every block up to it is stored. */
  ghost predicate MarkerJustified(s: NodeState) {
    && s.db.contiguous == s.catchUp.lastContiguous
    && (s.db.contiguous.Some? ==> forall b: nat | b <= s.db.contiguous.value :: Stored(s.db, b))
  }

  ghost predicate Grows(db: Db, db': Db) {
    db.cells.Keys <= db'.cells.Keys
  }

  lemma {:induction false} PutTxsGrows(db: Db, blk: StoredBlock, n: nat)
    requires n <= |blk.txHashes|
    ensures Grows(db, PutTxs(db, blk, n)) && PutTxs(db, blk, n).contiguous == db.contiguous
    decreases n
  {
    if n > 0 {
      PutTxsGrows(db, blk, n - 1);
    }
  }

  lemma {:induction false} PutItemsGrows(db: Db, items: seq<BlockchainItem>, n: nat)
    requires n <= |items|
    ensures Grows(db, PutItems(db, items, n)) && PutItems(db, items, n).contiguous == db.contiguous
    ensures forall i :: 0 <= i < n ==> (BC_NAMED, IndexKey(items[i].meta)) in PutItems(db, items, n).cells
    decreases n
  {
    hide IndexKey;
    if n > 0 {
      PutItemsGrows(db, items, n - 1);
    }
  }

  lemma StoredCompleteStores(db: Db, contiguous: bool, blk: StoredBlock)
    ensures var db' := StoredComplete(db, contiguous, blk);
            && Grows(db, db') && Stored(db', blk.bNum)
            && db'.contiguous == if contiguous then Some(blk.bNum) else db.contiguous
  {
    PutTxsGrows(db, blk, |blk.txHashes|);
  }

  lemma {:induction false} BlockPointerFound(items: seq<BlockchainItem>, bNum: nat, n: nat)
    requires n <= |items|
    ensures BlockPointer(items, bNum, n).Some? <==> exists i :: 0 <= i < n && items[i].meta.Block? && items[i].meta.blockNum == bNum
    decreases n
  {
    if n > 0 {
      BlockPointerFound(items, bNum, n - 1);
    }
  }

  lemma StoredFetchedStores(isUtf8: string -> bool, db: Db, lastStored: nat, contiguous: bool, blk: FetchedBlock)
    ensures StoredFetched(isUtf8, db, lastStored, contiguous, blk).Ok? ==>
              var db' := StoredFetched(isUtf8, db, lastStored, contiguous, blk).value;
              && Grows(db, db') && Stored(db', blk.bNum)
              && db'.contiguous == if contiguous then Some(blk.bNum) else db.contiguous
  {
    PutItemsGrows(db, blk.items, |blk.items|);
    BlockPointerFound(blk.items, blk.bNum, |blk.items|);
    if i :| 0 <= i < |blk.items| && blk.items[i].meta.Block? && blk.items[i].meta.blockNum == blk.bNum {
      assert IndexKey(blk.items[i].meta) == IndexedBlockKey(blk.bNum);
    }
  }

  lemma KeptJustified(s: NodeState, s': NodeState, bNum: nat)
    requires MarkerJustified(s) && Grows(s.db, s'.db) && Stored(s'.db, bNum)
    requires s'.catchUp.lastContiguous == Marked(s.catchUp, bNum).lastContiguous
    requires s'.db.contiguous == if IsContiguous(s.catchUp, bNum) then Some(bNum) else s.db.contiguous
    ensures MarkerJustified(s')
  {
    if s'.db.contiguous.Some? {
      forall b: nat | b <= s'.db.contiguous.value ensures Stored(s'.db, b) {
        assert b != bNum ==> Stored(s.db, b);
      }
    }
  }

  /** Each event keeps the marker justified, whatever it brings. */
  lemma StepJustified(isUtf8: string -> bool, s: NodeState, e: Event)
    requires MarkerJustified(s)
    ensures MarkerJustified(Step(isUtf8, s, e))
  {
    hide StoredComplete, StoredFetched, ReceiveItem, Grows, Stored;
    match e
    case BlockCommitted(blk) =>
      StoredCompleteStores(s.db, IsContiguous(s.catchUp, blk.bNum), blk);
      KeptJustified(s, HandleBlock(s, blk), blk.bNum);
    case SnapshotApplied(last) =>
    case ItemReceived(item) =>
      var (catchUp, block) := ReceiveAnswer(s.catchUp, item);
      if block.Some? && s.lastStored.Some? {
        var contiguous := IsContiguous(catchUp, block.value.bNum);
        StoredFetchedStores(isUtf8, s.db, s.lastStored.value, contiguous, block.value);
        if block.value.bNum <= s.lastStored.value && StoredFetched(isUtf8, s.db, s.lastStored.value, contiguous, block.value).Ok? {
          KeptJustified(s, HandleItem(isUtf8, s, item), block.value.bNum);
        }
      }
  }

  /** In every interleaving of live commits, snapshots and fetched items, marker n means blocks 0..n are stored. */
  lemma {:induction false} RunJustified(isUtf8: string -> bool, s: NodeState, events: seq<Event>)
    requires MarkerJustified(s)
    ensures MarkerJustified(Run(isUtf8, s, events))
    decreases |events|
  {
    if events != [] {
      RunJustified(isUtf8, s, events[..|events| - 1]);
      StepJustified(isUtf8, Run(isUtf8, s, events[..|events| - 1]), events[|events| - 1]);
    }
  }

  /* ---- Stored blocks can be read back ---- */

  ghost predicate AllKeys(p: string -> bool, items: seq<BlockchainItem>) {
    forall i :: 0 <= i < |items| ==> p(items[i].key)
  }

  /** What a key, a hash, stands for: one item, the same wherever it is stored. */
  datatype Content = Content(meta: Meta, data: string, dataJson: string)

  type Contents = string -> Content

  predicate IsGenuine(c: Contents, item: BlockchainItem) {
    POINTER_SEPARATOR !in item.key && c(item.key) == Content(item.meta, item.data, item.dataJson)
  }

  ghost predicate AllGenuine(c: Contents, items: seq<BlockchainItem>) {
    forall i :: 0 <= i < |items| ==> IsGenuine(c, items[i])
  }

  /** A name leads to a genuine item; unless it is that of the last block, to the item with this index key. */
  ghost predicate NameResolves(c: Contents, db: Db, name: string) {
    var found := Lookup(db, BC_NAMED, name);
    && found.Some? && IsGenuine(c, found.value)
    && (name != LAST_BLOCK_HASH_KEY ==> name == IndexKey(found.value.meta))
  }

  ghost predicate NamesResolve(c: Contents, db: Db) {
    forall name: string :: (BC_NAMED, name) in db.cells ==> NameResolves(c, db, name)
  }

  function BlockItem(blk: StoredBlock): BlockchainItem {
    BlockchainItem(5, Block(blk.bNum, |blk.txHashes|), blk.hash, blk.value, blk.json)
  }

  function TxItem(blk: StoredBlock, i: nat): BlockchainItem
    requires i < |blk.txHashes| && blk.txHashes[i] in blk.txs
  {
    var h := blk.txHashes[i];
    BlockchainItem(5, Tx(blk.bNum, i), h, blk.txs[h].0, blk.txs[h].1)
  }

  /** Items are genuine: those of a committed block, and those that the fetch accepts. */
  predicate BringsGenuine(c: Contents, s: NodeState, e: Event) {
    match e
    case BlockCommitted(blk) =>
      && IsGenuine(c, BlockItem(blk))
      && forall i :: 0 <= i < |blk.txHashes| && blk.txHashes[i] in blk.txs ==> IsGenuine(c, TxItem(blk, i))
    case SnapshotApplied(_) => true
    case ItemReceived(item) =>
      TakesIn(s, item) ==> IsGenuine(c, item)
  }

  function PutItem(db: Db, item: BlockchainItem): Db {
    Put(db, item.meta, item.key, item.data, item.dataJson)
  }

  /** Storing a genuine item changes no name but its own. */
  lemma NameKept(c: Contents, db: Db, item: BlockchainItem, name: string)
    requires (BC_NAMED, name) in db.cells && NameResolves(c, db, name) && IsGenuine(c, item) && name != IndexKey(item.meta)
    ensures (BC_NAMED, name) in PutItem(db, item).cells && NameResolves(c, PutItem(db, item), name)
    ensures Lookup(PutItem(db, item), BC_NAMED, name) == Lookup(db, BC_NAMED, name)
  {
    hide DecodeVersionPointer, VersionPointer, VersionOf, IndexKey;
    var pointer := db.cells[(BC_NAMED, name)];
    DecodedColumn(pointer);
    KnownColumn(DecodeVersionPointer(pointer).value.1);
    KnownNow();
    assert Lookup(PutItem(db, item), BC_NAMED, name) == Lookup(db, BC_NAMED, name);
  }

  lemma KnownNow()
    ensures VersionOf(BC_NOW, BC_COLUMNS) == Some(5)
    ensures BC_NOW != BC_JSON && BC_NOW != BC_ALL && BC_NOW != BC_NAMED
  {
  }

  lemma NamePut(c: Contents, db: Db, item: BlockchainItem)
    requires IsGenuine(c, item)
    ensures NameResolves(c, PutItem(db, item), IndexKey(item.meta))
  {
    hide DecodeVersionPointer, VersionPointer, VersionOf, IndexKey;
    KnownNow();
    PointerRoundTrip(BC_NOW, item.key);
  }

  lemma PutResolves(c: Contents, db: Db, item: BlockchainItem)
    requires NamesResolve(c, db) && IsGenuine(c, item)
    ensures NamesResolve(c, PutItem(db, item))
  {
    hide NameResolves, VersionPointer, IndexKey;
    var db' := PutItem(db, item);
    forall name: string | (BC_NAMED, name) in db'.cells ensures NameResolves(c, db', name) {
      if name == IndexKey(item.meta) {
        NamePut(c, db, item);
      } else {
        NameKept(c, db, item, name);
      }
    }
  }

  /** Naming the last block by the pointer to a genuine item that is stored. */
  lemma NameLastResolves(c: Contents, db: Db, item: BlockchainItem)
    requires NamesResolve(c, db) && Holds(db, item) && IsGenuine(c, item)
    ensures NamesResolve(c, NameLast(db, VersionPointer(BC_NOW, item.key)))
  {
    hide DecodeVersionPointer, VersionPointer, VersionOf, IndexKey;
    var db' := NameLast(db, VersionPointer(BC_NOW, item.key));
    KnownNow();
    PointerRoundTrip(BC_NOW, item.key);
    forall name: string | (BC_NAMED, name) in db'.cells ensures NameResolves(c, db', name) {
      if name != LAST_BLOCK_HASH_KEY {
        assert NameResolves(c, db, name);
        DecodedColumn(db.cells[(BC_NAMED, name)]);
        KnownColumn(DecodeVersionPointer(db.cells[(BC_NAMED, name)]).value.1);
        assert Lookup(db', BC_NAMED, name) == Lookup(db, BC_NAMED, name);
      }
    }
  }

  ghost predicate Holds(db: Db, item: BlockchainItem) {
    && (BC_NOW, item.key) in db.cells && db.cells[(BC_NOW, item.key)] == item.data
    && (BC_JSON, item.key) in db.cells && db.cells[(BC_JSON, item.key)] == item.dataJson
    && item.key in db.metas && db.metas[item.key] == item.meta
  }

  lemma PutHolds(c: Contents, db: Db, item: BlockchainItem, held: BlockchainItem)
    requires IsGenuine(c, item) && IsGenuine(c, held)
    ensures Holds(PutItem(db, item), item)
    ensures Holds(db, held) ==> Holds(PutItem(db, item), held)
  {
    hide VersionPointer, IndexKey;
    KnownNow();
  }

  /** The items gathered for the block being fetched. */
  function HeldItems(s: NodeState): seq<BlockchainItem> {
    if s.catchUp.fetch.Some? then s.catchUp.fetch.value.items else []
  }

  lemma HeldGenuine(c: Contents, s: NodeState, item: BlockchainItem)
    requires AllGenuine(c, HeldItems(s)) && BringsGenuine(c, s, ItemReceived(item))
    ensures var (catchUp, block) := ReceiveAnswer(s.catchUp, item);
            && AllGenuine(c, HeldItems(s.(catchUp := catchUp)))
            && (block.Some? ==> AllGenuine(c, block.value.items))
  {
    hide IsGenuine;
  }

  lemma {:induction false} PutTxsResolves(c: Contents, db: Db, blk: StoredBlock, n: nat)
    requires n <= |blk.txHashes| && NamesResolve(c, db)
    requires forall i :: 0 <= i < n && blk.txHashes[i] in blk.txs ==> IsGenuine(c, TxItem(blk, i))
    ensures NamesResolve(c, PutTxs(db, blk, n))
    decreases n
  {
    if n > 0 {
      hide NamesResolve, Put, IsGenuine;
      PutTxsResolves(c, db, blk, n - 1);
      if blk.txHashes[n - 1] in blk.txs {
        assert IsGenuine(c, TxItem(blk, n - 1));
        PutResolves(c, PutTxs(db, blk, n - 1), TxItem(blk, n - 1));
      }
    }
  }

  lemma {:induction false} PutItemsResolves(c: Contents, db: Db, items: seq<BlockchainItem>, bNum: nat, n: nat)
    requires n <= |items| && NamesResolve(c, db) && AllGenuine(c, items)
    ensures NamesResolve(c, PutItems(db, items, n))
    ensures forall i :: 0 <= i < n ==> Holds(PutItems(db, items, n), items[i])
    ensures BlockPointer(items, bNum, n).Some? ==>
              NamesResolve(c, NameLast(PutItems(db, items, n), BlockPointer(items, bNum, n).value))
    decreases n
  {
    hide NamesResolve, Put, NameLast, Holds, IsGenuine, VersionPointer;
    if n > 0 {
      var before := PutItems(db, items, n - 1);
      assert IsGenuine(c, items[n - 1]);
      PutItemsResolves(c, db, items, bNum, n - 1);
      PutResolves(c, before, items[n - 1]);
      assert PutItems(db, items, n) == PutItem(before, items[n - 1]);
      forall i | 0 <= i < n ensures Holds(PutItems(db, items, n), items[i]) {
        assert IsGenuine(c, items[i]);
        PutHolds(c, before, items[n - 1], items[i]);
      }
      PointerNames(c, PutItems(db, items, n), items, bNum, n);
    }
  }

  lemma {:induction false} PointerNames(c: Contents, db: Db, items: seq<BlockchainItem>, bNum: nat, n: nat)
    requires n <= |items| && NamesResolve(c, db) && AllGenuine(c, items)
    requires forall i :: 0 <= i < n ==> Holds(db, items[i])
    ensures BlockPointer(items, bNum, n).Some? ==> NamesResolve(c, NameLast(db, BlockPointer(items, bNum, n).value))
    decreases n
  {
    hide NamesResolve, NameLast, Holds, IsGenuine, VersionPointer;
    if n > 0 {
      PointerNames(c, db, items, bNum, n - 1);
      assert IsGenuine(c, items[n - 1]);
      NameLastResolves(c, db, items[n - 1]);
    }
  }

  lemma MarkResolves(c: Contents, db: Db, contiguous: bool, bNum: nat)
    requires NamesResolve(c, db)
    ensures NamesResolve(c, Mark(db, contiguous, bNum))
  {
    hide DecodeVersionPointer, IndexKey, IsGenuine;
    forall name: string | (BC_NAMED, name) in db.cells ensures NameResolves(c, Mark(db, contiguous, bNum), name) {
      assert NameResolves(c, db, name);
    }
  }

  lemma StepResolves(c: Contents, isUtf8: string -> bool, s: NodeState, e: Event)
    requires NamesResolve(c, s.db) && AllGenuine(c, HeldItems(s)) && BringsGenuine(c, s, e)
    ensures NamesResolve(c, Step(isUtf8, s, e).db) && AllGenuine(c, HeldItems(Step(isUtf8, s, e)))
  {
    hide NamesResolve, Put, ReceiveItem, PutTxs, PutItems, BlockPointer, NameLast, Mark, IsGenuine, Holds, VersionPointer;
    match e
    case BlockCommitted(blk) =>
      BlockResolves(c, s.db, IsContiguous(s.catchUp, blk.bNum), blk);
    case SnapshotApplied(last) =>
    case ItemReceived(item) =>
      HeldGenuine(c, s, item);
      var (catchUp, block) := ReceiveAnswer(s.catchUp, item);
      if block.Some? && s.lastStored.Some? {
        var b, items := block.value.bNum, block.value.items;
        PutItemsResolves(c, s.db, items, b, |items|);
        MarkResolves(c, PutItems(s.db, items, |items|), IsContiguous(catchUp, b), b);
        if BlockPointer(items, b, |items|).Some? {
          MarkResolves(c, NameLast(PutItems(s.db, items, |items|), BlockPointer(items, b, |items|).value), IsContiguous(catchUp, b), b);
        }
      }
  }

  lemma BlockResolves(c: Contents, db: Db, contiguous: bool, blk: StoredBlock)
    requires NamesResolve(c, db) && IsGenuine(c, BlockItem(blk))
    requires forall i :: 0 <= i < |blk.txHashes| && blk.txHashes[i] in blk.txs ==> IsGenuine(c, TxItem(blk, i))
    ensures NamesResolve(c, StoredComplete(db, contiguous, blk))
  {
    hide NamesResolve, Put, PutTxs, NameLast, Mark, IsGenuine, Holds, VersionPointer;
    var withTxs := PutTxs(db, blk, |blk.txHashes|);
    PutTxsResolves(c, db, blk, |blk.txHashes|);
    PutResolves(c, withTxs, BlockItem(blk));
    PutHolds(c, withTxs, BlockItem(blk), BlockItem(blk));
    NameLastResolves(c, PutItem(withTxs, BlockItem(blk)), BlockItem(blk));
    MarkResolves(c, NameLast(PutItem(withTxs, BlockItem(blk)), VersionPointer(BC_NOW, blk.hash)), contiguous, blk.bNum);
  }

  ghost predicate GenuineRun(c: Contents, isUtf8: string -> bool, s: NodeState, events: seq<Event>) {
    forall i :: 0 <= i < |events| ==> BringsGenuine(c, Run(isUtf8, s, events[..i]), events[i])
  }

  /** Numbers have the width of their index keys. */
  ghost predicate Numbered(c: Contents) {
    forall key :: c(key).meta.blockNum < U64_SIZE && (if c(key).meta.Block? then c(key).meta.txLen else c(key).meta.txNum) < U32_SIZE
  }

  /**
   With genuine items whose keys have no separator, reading the index key of any block up to the marker
   finds the block item of that number, with what its key stands for.
   */
  lemma {:induction false} RunReadable(c: Contents, isUtf8: string -> bool, s: NodeState, events: seq<Event>)
    requires MarkerJustified(s) && NamesResolve(c, s.db) && AllGenuine(c, HeldItems(s))
    requires Numbered(c) && GenuineRun(c, isUtf8, s, events)
    ensures var r := Run(isUtf8, s, events);
            && NamesResolve(c, r.db) && AllGenuine(c, HeldItems(r))
            && (r.db.contiguous.Some? ==> forall b: nat | b <= r.db.contiguous.value && b < U64_SIZE :: Readable(c, r.db, b))
    decreases |events|
  {
    hide Step, BringsGenuine, NamesResolve, Numbered, AllGenuine;
    if events != [] {
      var n := |events| - 1;
      forall i | 0 <= i < n ensures BringsGenuine(c, Run(isUtf8, s, events[..n][..i]), events[..n][i]) {
        assert events[..n][..i] == events[..i];
      }
      RunReadable(c, isUtf8, s, events[..n]);
      assert BringsGenuine(c, Run(isUtf8, s, events[..n]), events[n]);
      StepResolves(c, isUtf8, Run(isUtf8, s, events[..n]), events[n]);
    }
    RunJustified(isUtf8, s, events);
    JustifiedReadable(c, Run(isUtf8, s, events));
  }

  ghost predicate Readable(c: Contents, db: Db, b: nat) {
    var found := GetStoredValue(db, IndexedBlockKey(b));
    && found.Some?
    && found.value.meta.Block? && found.value.meta.blockNum == b
    && c(found.value.key) == Content(found.value.meta, found.value.data, found.value.dataJson)
  }

  lemma JustifiedReadable(c: Contents, r: NodeState)
    requires MarkerJustified(r) && NamesResolve(c, r.db) && Numbered(c)
    ensures r.db.contiguous.Some? ==> forall b: nat | b <= r.db.contiguous.value && b < U64_SIZE :: Readable(c, r.db, b)
  {
    hide Lookup, IndexedBlockKey, IndexedTxKey;
    if r.db.contiguous.Some? {
      forall b: nat | b <= r.db.contiguous.value && b < U64_SIZE ensures Readable(c, r.db, b) {
        assert Stored(r.db, b) && NameResolves(c, r.db, IndexedBlockKey(b));
        IndexKeyNamed(Block(b, 0));
        var meta := Lookup(r.db, BC_NAMED, IndexedBlockKey(b)).value.meta;
        KeyKindsDiffer(b, meta.blockNum, if meta.Tx? then meta.txNum else 0);
        assert meta.Block? && meta.blockNum < U64_SIZE;
        BlockKeysOrdered(b, meta.blockNum);
      }
    }
  }

  /* ---- The transactions of stored blocks can be read back too ---- */

  ghost predicate TxStored(db: Db, b: nat, t: nat) {
    (BC_NAMED, IndexedTxKey(b, t)) in db.cells
  }

  /** The key that the index key of a block points to. */
  function KeyOfBlock(db: Db, b: nat): string
    requires (BC_NAMED, IndexedBlockKey(b)) in db.cells
  {
    match DecodeVersionPointer(db.cells[(BC_NAMED, IndexedBlockKey(b))])
    case Some((_, _, key)) => key
    case None => ""
  }

  /** All transactions of the block that the index key of b points to are stored. */
  ghost predicate BlockWhole(c: Contents, db: Db, b: nat)
    requires Stored(db, b)
  {
    var meta := c(KeyOfBlock(db, b)).meta;
    meta.Block? ==> forall t: nat :: t < meta.txLen ==> TxStored(db, b, t)
  }

  ghost predicate BlocksWhole(c: Contents, db: Db) {
    forall b: nat :: b < U64_SIZE && Stored(db, b) ==> BlockWhole(c, db, b)
  }

  /** A committed block comes with all its transactions. */
  predicate BringsAll(e: Event) {
    e.BlockCommitted? ==> forall h <- e.block.txHashes :: h in e.block.txs
  }

  /** Storing an item touches the index key of no block but its own. */
  lemma BlockNameKept(db: Db, item: BlockchainItem, b: nat)
    requires b < U64_SIZE && item.meta.blockNum < U64_SIZE && (item.meta.Block? ==> item.meta.blockNum != b)
    ensures Stored(PutItem(db, item), b) <==> Stored(db, b)
    ensures Stored(db, b) ==> PutItem(db, item).cells[(BC_NAMED, IndexedBlockKey(b))] == db.cells[(BC_NAMED, IndexedBlockKey(b))]
  {
    hide IndexedBlockKey, IndexedTxKey, VersionPointer;
    KnownNow();
    KeyKindsDiffer(b, item.meta.blockNum, if item.meta.Tx? then item.meta.txNum else 0);
    BlockKeysOrdered(b, item.meta.blockNum);
  }

  lemma BlockPut(db: Db, item: BlockchainItem)
    requires item.meta.Block? && POINTER_SEPARATOR !in item.key
    ensures Stored(PutItem(db, item), item.meta.blockNum) && KeyOfBlock(PutItem(db, item), item.meta.blockNum) == item.key
  {
    hide DecodeVersionPointer, IndexedBlockKey, VersionPointer, VersionOf;
    KnownNow();
    PointerRoundTrip(BC_NOW, item.key);
  }

  /** Nothing but the block of number b changed among the index keys of blocks, and what was stored still is. */
  ghost predicate SameBlocks(db: Db, db': Db, b: nat) {
    && Grows(db, db')
    && forall n: nat :: n < U64_SIZE && n != b ==>
         && (Stored(db', n) <==> Stored(db, n))
         && (Stored(db, n) ==> db'.cells[(BC_NAMED, IndexedBlockKey(n))] == db.cells[(BC_NAMED, IndexedBlockKey(n))])
  }

  lemma PutSameBlocks(db: Db, item: BlockchainItem)
    requires item.meta.blockNum < U64_SIZE
    ensures SameBlocks(db, PutItem(db, item), item.meta.blockNum)
  {
    hide Put, IndexedBlockKey;
    forall n: nat | n < U64_SIZE && n != item.meta.blockNum
      ensures Stored(PutItem(db, item), n) <==> Stored(db, n)
      ensures Stored(db, n) ==>
                PutItem(db, item).cells[(BC_NAMED, IndexedBlockKey(n))] == db.cells[(BC_NAMED, IndexedBlockKey(n))]
    {
      BlockNameKept(db, item, n);
    }
    PutGrows(db, item);
  }

  lemma PutGrows(db: Db, item: BlockchainItem)
    ensures Grows(db, PutItem(db, item))
  {
  }

  lemma SameBlocksTrans(db: Db, db': Db, db'': Db, b: nat)
    requires SameBlocks(db, db', b) && SameBlocks(db', db'', b)
    ensures SameBlocks(db, db'', b)
  {
    hide IndexedBlockKey;
  }

  /** Other blocks stay whole; the block stored becomes whole with its transactions. */
  lemma WholeAfter(c: Contents, db: Db, db': Db, b: nat)
    requires BlocksWhole(c, db) && SameBlocks(db, db', b) && Stored(db', b) && BlockWhole(c, db', b)
    ensures BlocksWhole(c, db')
  {
    hide IndexedBlockKey, IndexedTxKey, DecodeVersionPointer;
    forall n: nat | n < U64_SIZE && Stored(db', n) ensures BlockWhole(c, db', n) {
      if n != b {
        assert Stored(db, n) && BlockWhole(c, db, n);
        assert forall t: nat :: TxStored(db, n, t) ==> TxStored(db', n, t);
      }
    }
  }

  lemma {:induction false} PutTxsWhole(db: Db, blk: StoredBlock, n: nat)
    requires n <= |blk.txHashes| && blk.bNum < U64_SIZE && forall h <- blk.txHashes :: h in blk.txs
    ensures SameBlocks(db, PutTxs(db, blk, n), blk.bNum)
    ensures forall t: nat :: t < n ==> TxStored(PutTxs(db, blk, n), blk.bNum, t)
    decreases n
  {
    hide SameBlocks, Put, TxStored, Stored, KeyOfBlock;
    if n > 0 {
      PutTxsWhole(db, blk, n - 1);
      var before, item := PutTxs(db, blk, n - 1), TxItem(blk, n - 1);
      assert blk.txHashes[n - 1] in blk.txHashes;
      assert PutTxs(db, blk, n) == PutItem(before, item);
      PutSameBlocks(before, item);
      SameBlocksTrans(db, before, PutItem(before, item), blk.bNum);
      TxPut(before, item, blk.bNum);
      forall t: nat | t < n ensures TxStored(PutItem(before, item), blk.bNum, t) {
        TxGrows(before, PutItem(before, item), blk.bNum, blk.bNum, t);
      }
    } else {
      SameBlocksSelf(db, blk.bNum);
    }
  }

  lemma SameBlocksSelf(db: Db, b: nat)
    ensures SameBlocks(db, db, b)
  {
  }

  lemma MarkedSame(db: Db, contiguous: bool, bNum: nat, b: nat)
    ensures SameBlocks(db, Mark(db, contiguous, bNum), b)
    ensures Stored(db, b) ==> Stored(Mark(db, contiguous, bNum), b) && KeyOfBlock(Mark(db, contiguous, bNum), b) == KeyOfBlock(db, b)
  {
    hide IndexedBlockKey;
  }

  lemma NamedSame(db: Db, pointer: string, b: nat)
    ensures SameBlocks(db, NameLast(db, pointer), b)
    ensures Stored(db, b) ==> Stored(NameLast(db, pointer), b) && KeyOfBlock(NameLast(db, pointer), b) == KeyOfBlock(db, b)
  {
    hide IndexedBlockKey, DecodeVersionPointer;
    forall n: nat ensures IndexedBlockKey(n) != LAST_BLOCK_HASH_KEY {
      KeyKindsDiffer(n, 0, 0);
    }
  }

  lemma BlockCommittedWhole(c: Contents, db: Db, contiguous: bool, blk: StoredBlock)
    requires BlocksWhole(c, db) && IsGenuine(c, BlockItem(blk)) && blk.bNum < U64_SIZE
    requires forall h <- blk.txHashes :: h in blk.txs
    ensures BlocksWhole(c, StoredComplete(db, contiguous, blk))
  {
    hide SameBlocks, BlocksWhole, PutTxs, Put, NameLast, Mark, Stored, IndexedTxKey, VersionPointer, Grows;
    var b, item := blk.bNum, BlockItem(blk);
    var db1 := PutTxs(db, blk, |blk.txHashes|);
    var db2 := PutItem(db1, item);
    var db3 := NameLast(db2, VersionPointer(BC_NOW, blk.hash));
    PutTxsWhole(db, blk, |blk.txHashes|);
    PutSameBlocks(db1, item);
    BlockPut(db1, item);
    NamedSame(db2, VersionPointer(BC_NOW, blk.hash), b);
    MarkedSame(db3, contiguous, b, b);
    SameBlocksTrans(db, db1, db2, b);
    SameBlocksTrans(db, db2, db3, b);
    var db4 := Mark(db3, contiguous, b);
    SameBlocksTrans(db, db3, db4, b);
    forall t: nat | t < |blk.txHashes| ensures TxStored(db4, b, t) {
      TxGrows(db1, db2, b, b, t);
      TxGrows(db2, db3, b, b, t);
      TxGrows(db3, db4, b, b, t);
    }
    WholeAfter(c, db, db4, b);
  }

  lemma TxGrows(db: Db, db': Db, same: nat, b: nat, t: nat)
    requires SameBlocks(db, db', same)
    ensures TxStored(db, b, t) ==> TxStored(db', b, t)
  {
    hide IndexedTxKey, IndexedBlockKey;
  }

  /** The items of a well shaped block, put in order: its index key points to the first, and each has its own name. */
  lemma {:induction false} PutItemsWhole(c: Contents, db: Db, b: nat, items: seq<BlockchainItem>, n: nat)
    requires WellShaped(b, items) && 0 < n <= |items| && b < U64_SIZE && AllGenuine(c, items)
    ensures var db' := PutItems(db, items, n);
            && SameBlocks(db, db', b) && Stored(db', b) && KeyOfBlock(db', b) == items[0].key
            && forall t: nat :: t < n - 1 ==> TxStored(db', b, t)
    decreases n
  {
    hide SameBlocks, Put, Stored, IndexedTxKey, IndexedBlockKey, DecodeVersionPointer;
    var before, item := PutItems(db, items, n - 1), items[n - 1];
    assert PutItems(db, items, n) == PutItem(before, item);
    assert item.meta.blockNum == b;
    PutSameBlocks(before, item);
    if n == 1 {
      assert IsGenuine(c, items[0]);
      BlockPut(before, item);
    } else {
      PutItemsWhole(c, db, b, items, n - 1);
      SameBlocksTrans(db, before, PutItem(before, item), b);
      TxPut(before, item, b);
      forall t: nat | t < n - 1 ensures TxStored(PutItem(before, item), b, t) {
        TxGrows(before, PutItem(before, item), b, b, t);
      }
    }
  }

  /** Storing a transaction gives it its name and leaves the index key of its block. */
  lemma TxPut(db: Db, item: BlockchainItem, b: nat)
    requires item.meta.Tx? && item.meta.blockNum == b
    ensures TxStored(PutItem(db, item), b, item.meta.txNum)
    ensures Stored(db, b) ==> Stored(PutItem(db, item), b) && KeyOfBlock(PutItem(db, item), b) == KeyOfBlock(db, b)
  {
    hide IndexedTxKey, IndexedBlockKey, DecodeVersionPointer, VersionPointer;
    KnownNow();
    KeyKindsDiffer(b, b, item.meta.txNum);
  }

  lemma BlockFetchedWhole(c: Contents, isUtf8: string -> bool, db: Db, lastStored: nat, contiguous: bool, blk: FetchedBlock)
    requires BlocksWhole(c, db) && WellShaped(blk.bNum, blk.items) && AllGenuine(c, blk.items) && blk.bNum < U64_SIZE
    ensures var r := StoredFetched(isUtf8, db, lastStored, contiguous, blk);
            r.Ok? ==> BlocksWhole(c, r.value)
  {
    hide SameBlocks, BlocksWhole, PutItems, NameLast, Mark, Stored, IndexedTxKey, IndexedBlockKey, DecodeVersionPointer, IsGenuine, BlockPointer;
    var r := StoredFetched(isUtf8, db, lastStored, contiguous, blk);
    var b, n := blk.bNum, |blk.items|;
    PutItemsWhole(c, db, b, blk.items, n);
    if r.Ok? {
      var filled := PutItems(db, blk.items, n);
      var pointer := BlockPointer(blk.items, b, n).value;
      var named := if lastStored == b then NameLast(filled, pointer) else filled;
      NamedSame(filled, pointer, b);
      SameBlocksSelf(filled, b);
      MarkedSame(named, contiguous, b, b);
      SameBlocksTrans(db, filled, named, b);
      SameBlocksTrans(db, named, r.value, b);
      FirstGenuine(c, b, blk.items);
      forall t: nat | t < n - 1 ensures TxStored(r.value, b, t) {
        TxGrows(filled, named, b, b, t);
        TxGrows(named, r.value, b, b, t);
      }
      WholeAfter(c, db, r.value, b);
    }
  }

  lemma FirstGenuine(c: Contents, b: nat, items: seq<BlockchainItem>)
    requires WellShaped(b, items) && AllGenuine(c, items)
    ensures c(items[0].key).meta == Block(b, |items| - 1)
  {
    assert IsGenuine(c, items[0]);
  }

  lemma StepWhole(c: Contents, isUtf8: string -> bool, s: NodeState, e: Event)
    requires BlocksWhole(c, s.db) && CatchUpValid(s.catchUp) && AllGenuine(c, HeldItems(s)) && Numbered(c)
    requires BringsGenuine(c, s, e) && BringsAll(e)
    ensures BlocksWhole(c, Step(isUtf8, s, e).db) && CatchUpValid(Step(isUtf8, s, e).catchUp)
  {
    hide BlocksWhole, StoredComplete, StoredFetched, IsGenuine, ReceiveItem, WellShaped;
    match e
    case BlockCommitted(blk) =>
      BlockNumbered(c, BlockItem(blk));
      BlockCommittedWhole(c, s.db, IsContiguous(s.catchUp, blk.bNum), blk);
    case SnapshotApplied(last) =>
    case ItemReceived(item) =>
      HeldGenuine(c, s, item);
      var (catchUp, block) := ReceiveAnswer(s.catchUp, item);
      if s.catchUp.fetch.Some? {
        ReceiveKeeps(s.catchUp.fetch.value, item);
      }
      if block.Some? && s.lastStored.Some? {
        FirstGenuine(c, block.value.bNum, block.value.items);
        assert c(block.value.items[0].key).meta.blockNum < U64_SIZE;
        BlockFetchedWhole(c, isUtf8, s.db, s.lastStored.value, IsContiguous(catchUp, block.value.bNum), block.value);
      }
  }

  lemma BlockNumbered(c: Contents, item: BlockchainItem)
    requires Numbered(c) && IsGenuine(c, item) && item.meta.Block?
    ensures item.meta.blockNum < U64_SIZE
  {
    assert c(item.key).meta == item.meta;
  }

  ghost predicate TxReadable(c: Contents, db: Db, b: nat, t: nat) {
    var found := GetStoredValue(db, IndexedTxKey(b, t));
    && found.Some? && found.value.meta == Tx(b, t)
    && c(found.value.key) == Content(found.value.meta, found.value.data, found.value.dataJson)
  }

  /** The block reads back as the item of its number, and so does each of its transactions, by its position. */
  ghost predicate ReadableWhole(c: Contents, db: Db, b: nat) {
    && Readable(c, db, b)
    && forall t: nat :: t < GetStoredValue(db, IndexedBlockKey(b)).value.meta.txLen ==> TxReadable(c, db, b, t)
  }

  lemma WholeReadable(c: Contents, db: Db, b: nat)
    requires NamesResolve(c, db) && BlocksWhole(c, db) && Numbered(c)
    requires b < U64_SIZE && Stored(db, b) && Readable(c, db, b)
    ensures ReadableWhole(c, db, b)
  {
    hide IndexedBlockKey, IndexedTxKey, DecodeVersionPointer, NamesResolve;
    IndexKeyNamed(Block(b, 0));
    var item := GetStoredValue(db, IndexedBlockKey(b)).value;
    assert BlockWhole(c, db, b) && KeyOfBlock(db, b) == item.key;
    assert item.meta.txLen < U32_SIZE;
    forall t: nat | t < item.meta.txLen ensures TxReadable(c, db, b, t) {
      assert TxStored(db, b, t);
      TxNameReadable(c, db, b, t);
    }
  }

  lemma TxNameReadable(c: Contents, db: Db, b: nat, t: nat)
    requires NamesResolve(c, db) && Numbered(c) && TxStored(db, b, t) && b < U64_SIZE && t < U32_SIZE
    ensures TxReadable(c, db, b, t)
  {
    hide IndexedBlockKey, IndexedTxKey, DecodeVersionPointer, Lookup;
    IndexKeyNamed(Tx(b, t));
    assert NameResolves(c, db, IndexedTxKey(b, t));
    var meta := Lookup(db, BC_NAMED, IndexedTxKey(b, t)).value.meta;
    KeyKindsDiffer(meta.blockNum, b, t);
    if meta.Tx? {
      TxKeysOrdered(b, t, meta.blockNum, meta.txNum);
    }
  }

  /**
   When committed blocks come with all their transactions, every block up to the marker reads back whole:
   the block item of that number, and each of its transactions by its position.
   */
  lemma {:induction false} RunWhole(c: Contents, isUtf8: string -> bool, s: NodeState, events: seq<Event>)
    requires MarkerJustified(s) && NamesResolve(c, s.db) && AllGenuine(c, HeldItems(s)) && BlocksWhole(c, s.db) && CatchUpValid(s.catchUp)
    requires Numbered(c) && GenuineRun(c, isUtf8, s, events) && forall e <- events :: BringsAll(e)
    ensures var r := Run(isUtf8, s, events);
            && BlocksWhole(c, r.db) && CatchUpValid(r.catchUp) && NamesResolve(c, r.db) && AllGenuine(c, HeldItems(r))
            && (r.db.contiguous.Some? ==> forall b: nat | b <= r.db.contiguous.value && b < U64_SIZE :: ReadableWhole(c, r.db, b))
    decreases |events|
  {
    hide Step, BringsGenuine, NamesResolve, Numbered, AllGenuine, BlocksWhole, CatchUpValid, BringsAll, ReadableWhole, Readable, Stored;
    var r := Run(isUtf8, s, events);
    if events != [] {
      var n := |events| - 1;
      forall i | 0 <= i < n ensures BringsGenuine(c, Run(isUtf8, s, events[..n][..i]), events[..n][i]) {
        assert events[..n][..i] == events[..i];
      }
      RunWhole(c, isUtf8, s, events[..n]);
      assert BringsGenuine(c, Run(isUtf8, s, events[..n]), events[n]) && BringsAll(events[n]);
      StepWhole(c, isUtf8, Run(isUtf8, s, events[..n]), events[n]);
    }
    RunReadable(c, isUtf8, s, events);
    RunJustified(isUtf8, s, events);
    if r.db.contiguous.Some? {
      forall b: nat | b <= r.db.contiguous.value && b < U64_SIZE ensures ReadableWhole(c, r.db, b) {
        WholeReadable(c, r.db, b);
      }
    }
  }

  /* ---- The name of the last block ---- */

  /** After a block is committed here, reading the last-block name gives that block, exactly if its hash has no separator. */
  lemma CommittedNamesLast(s: NodeState, blk: StoredBlock)
    ensures GetStoredValue(HandleBlock(s, blk).db, LAST_BLOCK_HASH_KEY) == Some(BlockItem(blk)) <==> POINTER_SEPARATOR !in blk.hash
  {
    hide PutTxs, DecodeVersionPointer, VersionPointer, Segment, VersionOf, IndexKey;
    KnownNow();
    PointerRoundTrip(BC_NOW, blk.hash);
    assert LAST_BLOCK_HASH_KEY[0] == NAMED_PREPEND;
  }

  /** Reading the last-block name gives the genuine block item of the number. */
  ghost predicate LastReadable(c: Contents, db: Db, b: nat) {
    var found := GetStoredValue(db, LAST_BLOCK_HASH_KEY);
    && found.Some? && IsGenuine(c, found.value)
    && found.value.meta.Block? && found.value.meta.blockNum == b
  }

  lemma LastIsNamed(c: Contents, db: Db, b: nat)
    ensures LastReadable(c, db, b) <==>
              var found := Lookup(db, BC_NAMED, LAST_BLOCK_HASH_KEY);
              found.Some? && IsGenuine(c, found.value) && found.value.meta.Block? && found.value.meta.blockNum == b
    ensures LastReadable(c, db, b) ==> (BC_NAMED, LAST_BLOCK_HASH_KEY) in db.cells && NameResolves(c, db, LAST_BLOCK_HASH_KEY)
  {
    hide DecodeVersionPointer, IsGenuine;
    assert LAST_BLOCK_HASH_KEY[0] == NAMED_PREPEND;
  }

  lemma IndexKeyNotLast(meta: Meta)
    ensures IndexKey(meta) != LAST_BLOCK_HASH_KEY
  {
    hide IndexedBlockKey, IndexedTxKey;
    KeyKindsDiffer(meta.blockNum, meta.blockNum, if meta.Tx? then meta.txNum else 0);
  }

  lemma {:induction false} ItemsKeepLast(c: Contents, db: Db, items: seq<BlockchainItem>, n: nat, b: nat)
    requires n <= |items| && AllGenuine(c, items) && LastReadable(c, db, b)
    ensures LastReadable(c, PutItems(db, items, n), b)
    decreases n
  {
    hide LastReadable, Put, IsGenuine, IndexKey, Lookup, NameResolves;
    if n > 0 {
      ItemsKeepLast(c, db, items, n - 1, b);
      var before := PutItems(db, items, n - 1);
      assert IsGenuine(c, items[n - 1]) && PutItems(db, items, n) == PutItem(before, items[n - 1]);
      LastIsNamed(c, before, b);
      IndexKeyNotLast(items[n - 1].meta);
      NameKept(c, before, items[n - 1], LAST_BLOCK_HASH_KEY);
      LastIsNamed(c, PutItem(before, items[n - 1]), b);
    }
  }

  lemma MarkKeepsLast(c: Contents, db: Db, contiguous: bool, bNum: nat, b: nat)
    ensures LastReadable(c, Mark(db, contiguous, bNum), b) <==> LastReadable(c, db, b)
  {
    hide DecodeVersionPointer, IsGenuine;
  }

  /** The name given for a well shaped block leads to its block item. */
  lemma NamedLast(c: Contents, db: Db, b: nat, items: seq<BlockchainItem>)
    requires WellShaped(b, items) && AllGenuine(c, items) && Holds(db, items[0])
    requires BlockPointer(items, b, |items|).Some?
    ensures LastReadable(c, NameLast(db, BlockPointer(items, b, |items|).value), b)
  {
    hide DecodeVersionPointer, VersionPointer, VersionOf, Segment, IndexKey;
    FirstPointer(items, b, |items|);
    assert IsGenuine(c, items[0]);
    KnownNow();
    PointerRoundTrip(BC_NOW, items[0].key);
    LastIsNamed(c, NameLast(db, VersionPointer(BC_NOW, items[0].key)), b);
  }

  lemma {:induction false} FirstPointer(items: seq<BlockchainItem>, b: nat, n: nat)
    requires WellShaped(b, items) && 0 < n <= |items|
    ensures BlockPointer(items, b, n) == Some(VersionPointer(BC_NOW, items[0].key))
    decreases n
  {
    hide VersionPointer;
    if n > 1 {
      FirstPointer(items, b, n - 1);
    }
  }

  /** The event leaves the last stored block named: it commits it, completes its fetch, or leaves both as they were. */
  ghost predicate NamesLast(isUtf8: string -> bool, s: NodeState, named: bool, e: Event) {
    match e
    case BlockCommitted(_) => true
    case SnapshotApplied(last) => named && last == s.lastStored
    case ItemReceived(item) =>
      var block := ReceiveAnswer(s.catchUp, item).1;
      named || (block.Some? && s.lastStored == Some(block.value.bNum) && AllKeys(isUtf8, block.value.items))
  }

  ghost predicate NamedBy(isUtf8: string -> bool, s: NodeState, events: seq<Event>) {
    if events == [] then false
    else
      var front := events[..|events| - 1];
      NamesLast(isUtf8, Run(isUtf8, s, front), NamedBy(isUtf8, s, front), events[|events| - 1])
  }

  lemma FetchedLast(c: Contents, isUtf8: string -> bool, db: Db, lastStored: nat, contiguous: bool, blk: FetchedBlock, named: bool)
    requires NamesResolve(c, db) && WellShaped(blk.bNum, blk.items) && AllGenuine(c, blk.items)
    requires named ==> LastReadable(c, db, lastStored)
    ensures var r := StoredFetched(isUtf8, db, lastStored, contiguous, blk);
            r.Ok? && (named || lastStored == blk.bNum) ==> LastReadable(c, r.value, lastStored)
  {
    hide LastReadable, NamesResolve, PutItems, NameLast, Mark, IsGenuine, Holds, BlockPointer, VersionPointer;
    var b, n := blk.bNum, |blk.items|;
    var r, filled := StoredFetched(isUtf8, db, lastStored, contiguous, blk), PutItems(db, blk.items, n);
    PutItemsResolves(c, db, blk.items, b, n);
    if r.Ok? && lastStored == b {
      NamedLast(c, filled, b, blk.items);
      MarkKeepsLast(c, NameLast(filled, BlockPointer(blk.items, b, n).value), contiguous, b, b);
    } else if r.Ok? && named {
      ItemsKeepLast(c, db, blk.items, n, lastStored);
      MarkKeepsLast(c, filled, contiguous, b, lastStored);
    }
  }

  lemma StepNamesLast(c: Contents, isUtf8: string -> bool, s: NodeState, named: bool, e: Event)
    requires NamesResolve(c, s.db) && CatchUpValid(s.catchUp) && AllGenuine(c, HeldItems(s)) && BringsGenuine(c, s, e)
    requires named ==> s.lastStored.Some? && LastReadable(c, s.db, s.lastStored.value)
    ensures var s' := Step(isUtf8, s, e);
            && CatchUpValid(s'.catchUp)
            && (NamesLast(isUtf8, s, named, e) ==> s'.lastStored.Some? && LastReadable(c, s'.db, s'.lastStored.value))
  {
    hide LastReadable, NamesResolve, StoredComplete, StoredFetched, IsGenuine, ReceiveItem, WellShaped, AllKeys;
    match e
    case BlockCommitted(blk) =>
      BlockNamesLast(c, s, blk);
    case SnapshotApplied(last) =>
    case ItemReceived(item) =>
      HeldGenuine(c, s, item);
      var (catchUp, block) := ReceiveAnswer(s.catchUp, item);
      if s.catchUp.fetch.Some? {
        ReceiveKeeps(s.catchUp.fetch.value, item);
      }
      if block.Some? && s.lastStored.Some? {
        var last, contiguous := s.lastStored.value, IsContiguous(catchUp, block.value.bNum);
        FetchedLast(c, isUtf8, s.db, last, contiguous, block.value, named);
        StoredIfWellFormed(isUtf8, s.db, last, contiguous, block.value);
      }
  }

  lemma BlockNamesLast(c: Contents, s: NodeState, blk: StoredBlock)
    requires IsGenuine(c, BlockItem(blk))
    ensures LastReadable(c, HandleBlock(s, blk).db, blk.bNum)
  {
    hide StoredComplete, Lookup;
    CommittedNamesLast(s, blk);
  }

  /**
   Over every run, once the last stored block was committed here, or was fetched as the last stored one with
   well formed keys, reading the last-block name gives the block item of its number.
   */
  lemma {:induction false} RunNamesLast(c: Contents, isUtf8: string -> bool, s: NodeState, events: seq<Event>)
    requires MarkerJustified(s) && NamesResolve(c, s.db) && AllGenuine(c, HeldItems(s)) && CatchUpValid(s.catchUp)
    requires Numbered(c) && GenuineRun(c, isUtf8, s, events)
    ensures var r := Run(isUtf8, s, events);
            && CatchUpValid(r.catchUp)
            && (NamedBy(isUtf8, s, events) ==> r.lastStored.Some? && LastReadable(c, r.db, r.lastStored.value))
    decreases |events|
  {
    hide Step, BringsGenuine, NamesResolve, Numbered, AllGenuine, CatchUpValid, LastReadable, NamesLast;
    if events != [] {
      var n := |events| - 1;
      forall i | 0 <= i < n ensures BringsGenuine(c, Run(isUtf8, s, events[..n][..i]), events[..n][i]) {
        assert events[..n][..i] == events[..i];
      }
      RunNamesLast(c, isUtf8, s, events[..n]);
      RunReadable(c, isUtf8, s, events[..n]);
      assert BringsGenuine(c, Run(isUtf8, s, events[..n]), events[n]);
      StepNamesLast(c, isUtf8, Run(isUtf8, s, events[..n]), NamedBy(isUtf8, s, events[..n]), events[n]);
    }
  }

  /* ---- When a finished fetch leaves the marker at the last stored block ---- */

  /** The items that the running fetch accepted, or the last one did; a fetch that starts has none. */
  function Fetched(s: NodeState, items: seq<BlockchainItem>, e: Event): seq<BlockchainItem> {
    match e
    case BlockCommitted(_) => items
    case SnapshotApplied(last) =>
      if s.catchUp.fetch.None? && HandleSnapshot(s, last).catchUp.fetch.Some? then [] else items
    case ItemReceived(item) =>
      if TakesIn(s, item) then items + [item] else items
  }

  /** The accepted items of the blocks that were handed out: all but those still held. */
  function HandedOut(f: Fetch, items: seq<BlockchainItem>): seq<BlockchainItem> {
    if |f.items| <= |items| then items[..|items| - |f.items|] else []
  }

  /**
   While a fetch is running it has the last stored block as its target, and waits for the block after
   the marker exactly if all keys of the blocks handed out were well formed; else it is past that block.
   When none is running, the marker is at or past the last stored block exactly if all keys were.
   */
  ghost predicate Tracked(isUtf8: string -> bool, s: NodeState, items: seq<BlockchainItem>) {
    && CatchUpValid(s.catchUp)
    && match s.catchUp.fetch
       case None =>
         if s.lastStored.None? then items == []
         else UpTo(s.catchUp.lastContiguous, s.lastStored.value) <==> AllKeys(isUtf8, items)
       case Some(f) =>
         && s.lastStored == Some(f.target)
         && Next(s.catchUp.lastContiguous) <= f.state.bNum <= f.target
         && |f.items| <= |items| && items[|items| - |f.items|..] == f.items
         && (f.state.bNum == Next(s.catchUp.lastContiguous) <==> AllKeys(isUtf8, HandedOut(f, items)))
  }

  /** Blocks commit one after the other, and a snapshot is no older than the node. Items may be anything. */
  predicate InOrder(s: NodeState, e: Event) {
    match e
    case BlockCommitted(blk) => blk.bNum == Next(s.lastStored)
    case SnapshotApplied(last) => s.lastStored.Some? ==> last.Some? && s.lastStored.value <= last.value
    case ItemReceived(item) => true
  }

  lemma AllKeysMore(isUtf8: string -> bool, front: seq<BlockchainItem>, back: seq<BlockchainItem>)
    ensures AllKeys(isUtf8, front + back) <==> AllKeys(isUtf8, front) && AllKeys(isUtf8, back)
  {
    if AllKeys(isUtf8, front + back) {
      assert forall i :: 0 <= i < |front| ==> (front + back)[i] == front[i];
      assert forall i :: 0 <= i < |back| ==> (front + back)[|front| + i] == back[i];
    }
  }

  /** A block handed out is stored exactly if its keys are well formed; no other error is possible. */
  lemma StoredIfWellFormed(isUtf8: string -> bool, db: Db, lastStored: nat, contiguous: bool, blk: FetchedBlock)
    requires WellShaped(blk.bNum, blk.items)
    ensures StoredFetched(isUtf8, db, lastStored, contiguous, blk).Ok? <==> AllKeys(isUtf8, blk.items)
  {
    BlockPointerFound(blk.items, blk.bNum, |blk.items|);
    assert blk.items[0].meta.Block?;
  }

  /** With a block handed out, the marker moves to it exactly if it is the next one and its keys are well formed. */
  lemma HandedOutMarks(isUtf8: string -> bool, s: NodeState, item: BlockchainItem)
    requires CatchUpValid(s.catchUp) && s.catchUp.fetch.Some?
    requires ReceiveAnswer(s.catchUp, item).1.Some?
    requires s.lastStored.Some? && s.catchUp.fetch.value.state.bNum <= s.lastStored.value
    ensures var b := ReceiveAnswer(s.catchUp, item).1.value;
            && b.items == s.catchUp.fetch.value.items + [item]
            && b.bNum == s.catchUp.fetch.value.state.bNum
            && HandleItem(isUtf8, s, item).catchUp.lastContiguous
               == if b.bNum == Next(s.catchUp.lastContiguous) && AllKeys(isUtf8, b.items) then Some(b.bNum) else s.catchUp.lastContiguous
  {
    hide StoredFetched, AllKeys, WellShaped;
    ReceiveKeeps(s.catchUp.fetch.value, item);
    var (catchUp, block) := ReceiveAnswer(s.catchUp, item);
    StoredIfWellFormed(isUtf8, s.db, s.lastStored.value, IsContiguous(catchUp, block.value.bNum), block.value);
  }

  lemma GatheredTracked(isUtf8: string -> bool, s: NodeState, items: seq<BlockchainItem>, item: BlockchainItem)
    requires Tracked(isUtf8, s, items) && TakesIn(s, item) && ReceiveAnswer(s.catchUp, item).1.None?
    ensures Tracked(isUtf8, HandleItem(isUtf8, s, item), items + [item])
  {
    hide StoredFetched, AllKeys, WellShaped, UpTo;
    var f := s.catchUp.fetch.value;
    ReceiveKeeps(f, item);
    var out := HandedOut(f, items);
    assert items == out + f.items;
    assert HandedOut(f.(items := f.items + [item]), items + [item]) == out;
  }

  lemma CompletedTracked(isUtf8: string -> bool, s: NodeState, items: seq<BlockchainItem>, item: BlockchainItem)
    requires Tracked(isUtf8, s, items) && TakesIn(s, item) && ReceiveAnswer(s.catchUp, item).1.Some?
    ensures Tracked(isUtf8, HandleItem(isUtf8, s, item), items + [item])
  {
    hide StoredFetched, AllKeys, WellShaped, HandleItem, ReceiveItem, HandedOut;
    HandedOutMarks(isUtf8, s, item);
    CompletedFetch(isUtf8, s, item);
    CompletedKeys(isUtf8, s.catchUp.fetch.value, items, item);
  }

  lemma CompletedKeys(isUtf8: string -> bool, f: Fetch, items: seq<BlockchainItem>, item: BlockchainItem)
    requires |f.items| <= |items| && items[|items| - |f.items|..] == f.items
    ensures AllKeys(isUtf8, items + [item]) <==> AllKeys(isUtf8, HandedOut(f, items)) && AllKeys(isUtf8, f.items + [item])
    ensures forall g: Fetch | g.items == [] ::
              HandedOut(g, items + [item]) == items + [item] && (items + [item])[|items + [item]| - |g.items|..] == g.items
  {
    var out := HandedOut(f, items);
    assert items + [item] == out + (f.items + [item]);
    AllKeysMore(isUtf8, out, f.items + [item]);
  }

  /** After its last block the fetch is over; else it waits for the next one, holding nothing. */
  lemma CompletedFetch(isUtf8: string -> bool, s: NodeState, item: BlockchainItem)
    requires CatchUpValid(s.catchUp) && TakesIn(s, item) && ReceiveAnswer(s.catchUp, item).1.Some?
    ensures var f, s' := s.catchUp.fetch.value, HandleItem(isUtf8, s, item);
            && s'.lastStored == s.lastStored
            && s'.catchUp.fetch == if f.state.bNum < f.target then Some(Fetch(f.target, WaitBlock(f.state.bNum + 1), [])) else None
  {
    hide StoredFetched;
  }

  lemma ItemTracked(isUtf8: string -> bool, s: NodeState, items: seq<BlockchainItem>, item: BlockchainItem)
    requires Tracked(isUtf8, s, items)
    ensures Tracked(isUtf8, HandleItem(isUtf8, s, item), Fetched(s, items, ItemReceived(item)))
  {
    hide StoredFetched, AllKeys, WellShaped, UpTo;
    if TakesIn(s, item) {
      if ReceiveAnswer(s.catchUp, item).1.Some? {
        CompletedTracked(isUtf8, s, items, item);
      } else {
        GatheredTracked(isUtf8, s, items, item);
      }
    }
  }

  /** Every in-order event, whatever items it brings, leaves the marker tracked. */
  lemma StepTracked(isUtf8: string -> bool, s: NodeState, items: seq<BlockchainItem>, e: Event)
    requires Tracked(isUtf8, s, items) && InOrder(s, e)
    ensures Tracked(isUtf8, Step(isUtf8, s, e), Fetched(s, items, e))
  {
    hide StoredComplete, HandleItem;
    match e
    case BlockCommitted(blk) =>
    case SnapshotApplied(last) =>
    case ItemReceived(item) => ItemTracked(isUtf8, s, items, item);
  }

  /** The step that ends a fetch leaves the marker at the last stored block if and only if all its keys were well formed. */
  lemma FetchEnds(isUtf8: string -> bool, s: NodeState, items: seq<BlockchainItem>, e: Event)
    requires Tracked(isUtf8, s, items) && InOrder(s, e)
    requires s.catchUp.fetch.Some? && Step(isUtf8, s, e).catchUp.fetch.None?
    ensures var s' := Step(isUtf8, s, e);
            && s'.lastStored.Some?
            && (s'.catchUp.lastContiguous == s'.lastStored <==> AllKeys(isUtf8, Fetched(s, items, e)))
            && (s'.catchUp.lastContiguous != s'.lastStored ==> !UpTo(s'.catchUp.lastContiguous, s'.lastStored.value))
  {
    hide StoredComplete, StoredFetched, WellShaped, AllKeys;
    StepTracked(isUtf8, s, items, e);
    if e.ItemReceived? && ReceiveAnswer(s.catchUp, e.item).1.Some? {
      HandedOutMarks(isUtf8, s, e.item);
    }
  }

  ghost predicate InOrderRun(isUtf8: string -> bool, s: NodeState, events: seq<Event>) {
    forall i :: 0 <= i < |events| ==> InOrder(Run(isUtf8, s, events[..i]), events[i])
  }

  /** The items that the running or the last fetch of a run accepted. */
  function FetchedBy(isUtf8: string -> bool, s: NodeState, items: seq<BlockchainItem>, events: seq<Event>): seq<BlockchainItem> {
    if events == [] then items
    else
      var front := events[..|events| - 1];
      Fetched(Run(isUtf8, s, front), FetchedBy(isUtf8, s, items, front), events[|events| - 1])
  }

  /**
   Over every in-order run, whatever items arrive: whenever nothing is being fetched, the persisted marker
   is at or past the last stored block, and all blocks up to that are stored, if and only if every key of
   an item that the last fetch accepted is UTF-8.
   */
  lemma {:induction false} RunSynced(isUtf8: string -> bool, s: NodeState, items: seq<BlockchainItem>, events: seq<Event>)
    requires MarkerJustified(s) && Tracked(isUtf8, s, items) && InOrderRun(isUtf8, s, events)
    ensures var r, fetched := Run(isUtf8, s, events), FetchedBy(isUtf8, s, items, events);
            && Tracked(isUtf8, r, fetched) && MarkerJustified(r)
            && (r.catchUp.fetch.None? && r.lastStored.Some? ==>
                  && (UpTo(r.db.contiguous, r.lastStored.value) <==> AllKeys(isUtf8, fetched))
                  && (AllKeys(isUtf8, fetched) ==> forall b: nat | b <= r.lastStored.value :: Stored(r.db, b)))
    decreases |events|
  {
    hide Step, InOrder, Stored, Fetched, AllKeys;
    RunJustified(isUtf8, s, events);
    if events != [] {
      var n := |events| - 1;
      forall i | 0 <= i < n ensures InOrder(Run(isUtf8, s, events[..n][..i]), events[..n][i]) {
        assert events[..n][..i] == events[..i];
      }
      RunSynced(isUtf8, s, items, events[..n]);
      assert InOrder(Run(isUtf8, s, events[..n]), events[n]);
      StepTracked(isUtf8, Run(isUtf8, s, events[..n]), FetchedBy(isUtf8, s, items, events[..n]), events[n]);
    }
  }

  /** A node starting on a database whose marker is justified starts tracked. */
  lemma StartSynced(isUtf8: string -> bool, db: Db)
    requires db.contiguous.Some? ==> forall b: nat | b <= db.contiguous.value :: Stored(db, b)
    ensures var s := NodeState(db, CatchUp(db.contiguous, None), None);
            MarkerJustified(s) && Tracked(isUtf8, s, []) && HeldItems(s) == []
  {
  }

  /** One key that is not UTF-8 is enough: the fetch finishes, and the marker stays behind. */
  lemma MalformedKeyLeavesGap(isUtf8: string -> bool, key: string)
    requires key != "" && !isUtf8(key)
    ensures var s := NodeState(Db(map[], map[], None), CatchUp(None, Some(Fetch(0, WaitBlock(0), []))), Some(0));
            var s' := Step(isUtf8, s, ItemReceived(BlockchainItem(5, Block(0, 0), key, "", "")));
            Tracked(isUtf8, s, []) && s'.catchUp.fetch == None && s'.db.contiguous == None && s'.lastStored == Some(0)
  {
    hide StoredFetched;
    var s := NodeState(Db(map[], map[], None), CatchUp(None, Some(Fetch(0, WaitBlock(0), []))), Some(0));
    var item := BlockchainItem(5, Block(0, 0), key, "", "");
    HandedOutMarks(isUtf8, s, item);
    assert !AllKeys(isUtf8, [] + [item]) by {
      assert ([] + [item])[0] == item;
    }
    StepJustified(isUtf8, s, ItemReceived(item));
  }
}
