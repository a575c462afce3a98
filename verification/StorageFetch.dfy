/** Catching up on missing blocks item by item, src/storage_fetch.rs. */
module StorageFetch {
  import opened Wrappers
  import opened ChainDb

  /* ---- Specification: receiving one block after the other ---- */

  datatype ReceiveState =
    | NoWait
    | WaitBlock(bNum: nat)
    | WaitTxs(bNum: nat, start: nat, end: nat)

  datatype Fetch = Fetch(target: nat, state: ReceiveState, items: seq<BlockchainItem>)

  datatype FetchedBlock = FetchedBlock(bNum: nat, items: seq<BlockchainItem>)

  function Max(a: nat, b: nat): nat {
    if a < b then b else a
  }

  predicate Accepts(f: Fetch, meta: Meta) {
    match f.state
    case NoWait => false
    case WaitBlock(b) => meta.Block? && meta.blockNum == b
    case WaitTxs(b, start, _) => meta.Tx? && meta.blockNum == b && meta.txNum == start
  }

  /** Whether the accepted item is the last one of its block. */
  predicate Completes(f: Fetch, meta: Meta) {
    match f.state
    case NoWait => false
    case WaitBlock(_) => meta.Block? && meta.txLen == 0
    case WaitTxs(_, start, end) => end <= start + 1
  }

  function ReceiveItem(f: Fetch, item: BlockchainItem): (Fetch, Option<FetchedBlock>) {
    if !Accepts(f, item.meta) then (f, None)
    else
      var b, items := f.state.bNum, f.items + [item];
      if Completes(f, item.meta) then
        (Fetch(f.target, if b < f.target then WaitBlock(b + 1) else NoWait, []), Some(FetchedBlock(b, items)))
      else if f.state.WaitBlock? then (Fetch(f.target, WaitTxs(b, 0, item.meta.txLen), items), None)
      else (Fetch(f.target, WaitTxs(b, f.state.start + 1, f.state.end), items), None)
  }

  /** A block item followed by exactly its transactions in order. */
  ghost predicate WellShaped(b: nat, items: seq<BlockchainItem>) {
    && items != []
    && items[0].meta == Block(b, |items| - 1)
    && forall k :: 1 <= k < |items| ==> items[k].meta == Tx(b, k - 1)
  }

  /** The items held are the beginning of the block waited for. */
  ghost predicate FetchValid(f: Fetch) {
    match f.state
    case NoWait => f.items == []
    case WaitBlock(_) => f.items == []
    case WaitTxs(b, start, end) =>
      && start < end && |f.items| == start + 1
      && f.items[0].meta == Block(b, end)
      && forall k :: 1 <= k < |f.items| ==> f.items[k].meta == Tx(b, k - 1)
  }

  lemma ReceiveKeeps(f: Fetch, item: BlockchainItem)
    requires FetchValid(f)
    ensures var (f', out) := ReceiveItem(f, item);
            && FetchValid(f')
            && (out.Some? ==> WellShaped(out.value.bNum, out.value.items) && out.value.bNum == f.state.bNum)
            && (out.Some? ==> f'.state == if f.state.bNum < f.target then WaitBlock(f.state.bNum + 1) else NoWait)
            && (out.None? && !f.state.NoWait? ==> !f'.state.NoWait? && f'.state.bNum == f.state.bNum)
  {
  }

  /** Blocks still to come, then a block item over transactions, then transactions still to come. */
  ghost function Remaining(f: Fetch): (int, nat, nat) {
    match f.state
    case NoWait => (-1, 0, 0)
    case WaitBlock(b) => (if b < f.target then f.target - b else 0, 1, 0)
    case WaitTxs(b, start, end) => (if b < f.target then f.target - b else 0, 0, if start < end then end - start else 0)
  }

  ghost predicate Less(x: (int, nat, nat), y: (int, nat, nat)) {
    x.0 < y.0 || (x.0 == y.0 && (x.1 < y.1 || (x.1 == y.1 && x.2 < y.2)))
  }

  /** Every accepted item makes progress; any other item changes nothing. */
  lemma ReceiveProgress(f: Fetch, item: BlockchainItem)
    requires FetchValid(f)
    ensures Accepts(f, item.meta) ==> Less(Remaining(ReceiveItem(f, item).0), Remaining(f))
    ensures !Accepts(f, item.meta) ==> ReceiveItem(f, item) == (f, None)
  {
  }

  datatype FetchEvent = Receive(item: BlockchainItem) | RaiseTarget(bNum: nat)

  function FetchStep(f: Fetch, e: FetchEvent): (Fetch, seq<FetchedBlock>) {
    match e
    case RaiseTarget(b) => (f.(target := Max(f.target, b)), [])
    case Receive(item) =>
      var (f', out) := ReceiveItem(f, item);
      (f', if out.Some? then [out.value] else [])
  }

  function FetchRun(f: Fetch, events: seq<FetchEvent>): (Fetch, seq<FetchedBlock>) {
    if events == [] then (f, [])
    else
      var (before, blocks) := FetchRun(f, events[..|events| - 1]);
      var (after, more) := FetchStep(before, events[|events| - 1]);
      (after, blocks + more)
  }

  /** Whatever arrives, the blocks delivered are start, start + 1, ... without gap, each whole. */
  lemma {:induction false} DeliveredInOrder(start: nat, target: nat, events: seq<FetchEvent>)
    ensures var (f, blocks) := FetchRun(Fetch(target, WaitBlock(start), []), events);
            && FetchValid(f)
            && (forall i :: 0 <= i < |blocks| ==> blocks[i].bNum == start + i && WellShaped(blocks[i].bNum, blocks[i].items))
            && (!f.state.NoWait? ==> f.state.bNum == start + |blocks|)
    decreases |events|
  {
    if events != [] {
      var f0 := Fetch(target, WaitBlock(start), []);
      var front, last := events[..|events| - 1], events[|events| - 1];
      DeliveredInOrder(start, target, front);
      if last.Receive? {
        ReceiveKeeps(FetchRun(f0, front).0, last.item);
      }
    }
  }

  function Receives(items: seq<BlockchainItem>): seq<FetchEvent> {
    seq(|items|, i requires 0 <= i < |items| => Receive(items[i]))
  }

  lemma ReceiveLast(f: Fetch, items: seq<BlockchainItem>)
    requires items != []
    ensures var (before, blocks) := FetchRun(f, Receives(items[..|items| - 1]));
            var (after, out) := ReceiveItem(before, items[|items| - 1]);
            FetchRun(f, Receives(items)) == (after, blocks + if out.Some? then [out.value] else [])
  {
    assert Receives(items)[..|items| - 1] == Receives(items[..|items| - 1]);
  }

  lemma {:induction false} PartReceived(f: Fetch, b: nat, items: seq<BlockchainItem>, n: nat)
    requires f.state == WaitBlock(b) && f.items == [] && WellShaped(b, items) && 0 < n < |items|
    ensures FetchRun(f, Receives(items[..n])) == (Fetch(f.target, WaitTxs(b, n - 1, |items| - 1), items[..n]), [])
    decreases n
  {
    var part := items[..n];
    assert part[..n - 1] == items[..n - 1];
    ReceiveLast(f, part);
    if n == 1 {
      NothingReceived(f);
      assert part[..0] == [] && Receives(part[..0]) == [];
      assert f.items + [items[0]] == items[..1];
      assert ReceiveItem(f, items[0]) == (Fetch(f.target, WaitTxs(b, 0, |items| - 1), items[..1]), None);
    } else {
      PartReceived(f, b, items, n - 1);
      assert items[..n - 1] + [items[n - 1]] == part;
    }
    assert FetchRun(f, Receives(part)).1 == [];
  }

  /** The items of the block waited for, received in order, are delivered as that block, and the next one is waited for. */
  lemma WholeReceived(f: Fetch, b: nat, items: seq<BlockchainItem>)
    requires f.state == WaitBlock(b) && f.items == [] && WellShaped(b, items)
    ensures FetchRun(f, Receives(items))
            == (Fetch(f.target, if b < f.target then WaitBlock(b + 1) else NoWait, []), [FetchedBlock(b, items)])
  {
    hide FetchRun;
    var n := |items|;
    ReceiveLast(f, items);
    if n == 1 {
      NothingReceived(f);
      assert items[..0] == [] && Receives(items[..0]) == [];
      assert f.items + [items[0]] == items;
      assert ReceiveItem(f, items[0])
             == (Fetch(f.target, if b < f.target then WaitBlock(b + 1) else NoWait, []), Some(FetchedBlock(b, items)));
    } else {
      PartReceived(f, b, items, n - 1);
      assert items[..n - 1] + [items[n - 1]] == items;
    }
    assert FetchRun(f, Receives(items)).1 == [FetchedBlock(b, items)];
  }

  lemma NothingReceived(f: Fetch)
    ensures FetchRun(f, []) == (f, [])
  {
  }

  /* ---- The code ---- */

  class FetchReceive {
    var targetBNum: nat
    var state: ReceiveState
    var blockchainItems: seq<BlockchainItem>

    ghost function View(): Fetch
      reads this
    {
      Fetch(targetBNum, state, blockchainItems)
    }

    constructor (startBNum: nat, targetBNum: nat)
      ensures View() == Fetch(targetBNum, WaitBlock(startBNum), [])
    {
      this.targetBNum := targetBNum;
      state, blockchainItems := WaitBlock(startBNum), [];
    }

    method IncreaseRunningTarget(bNum: nat)
      modifies this
      ensures View() == old(View()).(target := Max(old(targetBNum), bNum))
    {
      targetBNum := Max(targetBNum, bNum);
    }

    method ReceiveBlockchainItems(item: BlockchainItem) returns (block: Option<FetchedBlock>)
      requires FetchValid(View())
      modifies this
      ensures (View(), block) == ReceiveItem(old(View()), item) && FetchValid(View())
    {
      ReceiveKeeps(View(), item);
      var newState: Option<ReceiveState>, done := None, false;
      match (item.meta, state) {
        case (Block(blockNum, txLen), WaitBlock(bNum)) =>
          if blockNum == bNum {
            done := txLen == 0;
            newState := Some(WaitTxs(bNum, 0, txLen));
          }
        case (Tx(blockNum, txNum), WaitTxs(bNum, start, end)) =>
          if blockNum == bNum && txNum == start {
            done := !(1 < end - start);
            newState := Some(WaitTxs(bNum, start + 1, end));
          }
        case _ =>
      }
      if newState.Some? {
        blockchainItems := blockchainItems + [item];
        state := newState.value;
      }
      block := None;
      if done {
        var bNum := state.bNum;
        state := if bNum < targetBNum then WaitBlock(bNum + 1) else NoWait;
        block := Some(FetchedBlock(bNum, blockchainItems));
        blockchainItems := [];
      }
    }

    method GetKey() returns (key: Option<string>)
      requires FetchValid(View())
      ensures match state
              case NoWait => key == None
              case WaitBlock(b) => key == Some(IndexedBlockKey(b))
              case WaitTxs(b, start, _) => key == Some(IndexedTxKey(b, start))
    {
      match state {
        case WaitBlock(bNum) => key := Some(IndexedBlockKey(bNum));
        case WaitTxs(bNum, start, end) => key := if start < end then Some(IndexedTxKey(bNum, start)) else None;
        case NoWait => key := None;
      }
    }
  }

  /* ---- Specification: the catch-up as a whole ---- */

  datatype CatchUp = CatchUp(lastContiguous: Option<nat>, fetch: Option<Fetch>)

  function Next(last: Option<nat>): nat {
    if last.Some? then last.value + 1 else 0
  }

  predicate IsContiguous(c: CatchUp, bNum: nat) {
    bNum == Next(c.lastContiguous)
  }

  function Marked(c: CatchUp, bNum: nat): CatchUp {
    if IsContiguous(c, bNum) then c.(lastContiguous := Some(bNum)) else c
  }

  function Raised(c: CatchUp, bNum: nat): CatchUp {
    if c.fetch.Some? then c.(fetch := Some(c.fetch.value.(target := Max(c.fetch.value.target, bNum)))) else c
  }

  predicate UpTo(last: Option<nat>, bNum: nat) {
    last.Some? && bNum <= last.value
  }

  function FetchMissing(c: CatchUp, bNum: nat): CatchUp {
    if c.fetch.Some? then Raised(c, bNum)
    else if UpTo(c.lastContiguous, bNum) then c
    else c.(fetch := Some(Fetch(bNum, WaitBlock(Next(c.lastContiguous)), [])))
  }

  /** An empty key is the answer that the item was not found. */
  function ReceiveAnswer(c: CatchUp, item: BlockchainItem): (CatchUp, Option<FetchedBlock>) {
    if c.fetch.None? || item.key == "" then (c, None)
    else
      var (f, block) := ReceiveItem(c.fetch.value, item);
      (c.(fetch := if f.state.NoWait? then None else Some(f)), block)
  }

  ghost predicate CatchUpValid(c: CatchUp) {
    c.fetch.Some? ==> FetchValid(c.fetch.value) && !c.fetch.value.state.NoWait?
  }

  /** The index reached from `i` after k changes of peer among n. */
  function PeerAfter(i: nat, k: nat, n: nat): nat {
    if k == 0 then i
    else
      var before := PeerAfter(i, k - 1, n);
      if before + 1 < n then before + 1 else 0
  }

  lemma {:induction false} PeerAfterIs(i: nat, k: nat, n: nat)
    requires i < n && k <= n
    ensures PeerAfter(i, k, n) == if i + k < n then i + k else i + k - n
  {
    if k > 0 {
      PeerAfterIs(i, k - 1, n);
    }
  }

  /** Fewer changes than there are peers reach every peer, each after its own number of changes; n lead back. */
  lemma PeersVisited(i: nat, p: nat, n: nat)
    requires i < n && p < n
    ensures exists k: nat :: k < n && PeerAfter(i, k, n) == p
    ensures forall k: nat, j: nat | k < j < n :: PeerAfter(i, k, n) != PeerAfter(i, j, n)
    ensures PeerAfter(i, n, n) == i
  {
    var k := if i <= p then p - i else p + n - i;
    PeerAfterIs(i, k, n);
    PeerAfterIs(i, n, n);
    forall k: nat, j: nat | k < j < n ensures PeerAfter(i, k, n) != PeerAfter(i, j, n) {
      PeerAfterIs(i, k, n);
      PeerAfterIs(i, j, n);
    }
  }

  class StorageFetch {
    const storageNodes: seq<nat>
    var fetchPeerIdx: nat
    var lastContiguousBlockNum: Option<nat>
    var toReceive: FetchReceive?

    ghost function View(): CatchUp
      reads this, toReceive
    {
      CatchUp(lastContiguousBlockNum, if toReceive == null then None else Some(toReceive.View()))
    }

    ghost predicate Valid()
      reads this, toReceive
    {
      CatchUpValid(View()) && (fetchPeerIdx == 0 || fetchPeerIdx < |storageNodes|)
    }

    constructor (storageNodes: seq<nat>, lastContiguous: Option<nat>)
      ensures Valid() && View() == CatchUp(lastContiguous, None) && toReceive == null
    {
      this.storageNodes := storageNodes;
      fetchPeerIdx, lastContiguousBlockNum, toReceive := 0, lastContiguous, null;
    }

    method IncreaseRunningTarget(blockNum: nat)
      requires Valid()
      modifies toReceive
      ensures Valid() && View() == Raised(old(View()), blockNum)
    {
      if toReceive != null {
        toReceive.IncreaseRunningTarget(blockNum);
      }
    }

    method FetchMissingBlockchainItems(blockNum: nat) returns (started: bool)
      requires Valid()
      modifies this`toReceive, toReceive
      ensures Valid() && View() == FetchMissing(old(View()), blockNum)
      ensures started <==> old(toReceive) == null && toReceive != null
      ensures toReceive != old(toReceive) ==> fresh(toReceive)
    {
      if toReceive != null {
        toReceive.IncreaseRunningTarget(blockNum);
        return false;
      }
      if lastContiguousBlockNum.Some? && blockNum <= lastContiguousBlockNum.value {
        return false;
      }
      var next := if lastContiguousBlockNum.Some? then lastContiguousBlockNum.value + 1 else 0;
      toReceive := new FetchReceive(next, blockNum);
      return true;
    }

    /** One step around the list; `PeersVisited` says what a round of these reaches. */
    method ChangeToNextFetchPeer()
      modifies this`fetchPeerIdx
      ensures |storageNodes| > 0 ==> fetchPeerIdx < |storageNodes|
      ensures 0 < old(fetchPeerIdx) + 1 <= |storageNodes| ==> fetchPeerIdx == PeerAfter(old(fetchPeerIdx), 1, |storageNodes|)
      ensures |storageNodes| == 0 ==> fetchPeerIdx == 0
    {
      var next := fetchPeerIdx + 1;
      fetchPeerIdx := if next < |storageNodes| then next else 0;
    }

    method ReceiveBlockchainItems(item: BlockchainItem) returns (block: Option<FetchedBlock>)
      requires Valid()
      modifies this`fetchPeerIdx, this`toReceive, toReceive
      ensures Valid() && (View(), block) == ReceiveAnswer(old(View()), item)
      ensures toReceive == old(toReceive) || toReceive == null
      ensures old(toReceive) != null && item.key == "" ==> toReceive == old(toReceive)
      ensures old(toReceive) != null && item.key == "" && |storageNodes| > 0 ==> fetchPeerIdx == PeerAfter(old(fetchPeerIdx), 1, |storageNodes|)
      ensures old(toReceive) == null || item.key != "" ==> fetchPeerIdx == old(fetchPeerIdx)
    {
      if toReceive != null && item.key == "" {
        ChangeToNextFetchPeer();
        return None;
      }
      if toReceive == null {
        return None;
      }
      block := toReceive.ReceiveBlockchainItems(item);
      if toReceive.state.NoWait? {
        toReceive := null;
      }
    }

    method UpdateContiguousBlockNum(contiguous: bool, blockNum: nat)
      modifies this`lastContiguousBlockNum
      ensures lastContiguousBlockNum == if contiguous then Some(blockNum) else old(lastContiguousBlockNum)
    {
      if contiguous {
        lastContiguousBlockNum := Some(blockNum);
      }
    }
  }
}
