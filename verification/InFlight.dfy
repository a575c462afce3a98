/** Proposals in flight to raft and the count of transactions among them, src/raft_util.rs and src/compute_raft.rs. */
module InFlight {
  import opened Wrappers
  import opened Collections
  import opened Ledger
  import BlockRules
  import opened LedgerCommits
  import opened ComputeConsensused

  datatype Key = Key(proposerId: nat, proposerRun: nat, proposalId: nat)

  /** A proposed item; those that are not transactions are told apart by their payload. */
  datatype Item =
    | Transactions(txs: TxMap)
    | PipelineItem(payload: nat)
    | Other(payload: nat)

  type Items = map<Key, Item>

  /* ---- The proposals of one node: specification ---- */

  /** Serialized items are hashed injectively, so an item stands for its own hash. */
  datatype Proposals = Proposals(
    inFlight: Items,
    keysBNum: map<Key, nat>,
    lastId: nat,
    alreadyProposed: map<Item, (Key, nat)>,
    minBNum: nat)

  /** None when the proposal is dropped; else the block number to remember it by, if any. */
  function CheckDeduplication(p: Proposals, item: Item, dedup: Option<nat>): Option<Option<nat>> {
    if dedup.None? then Some(None)
    else if p.minBNum > dedup.value || item in p.alreadyProposed then None
    else Some(dedup)
  }

  function NextKey(p: Proposals, peer: nat, run: nat): Key {
    Key(peer, run, p.lastId + 1)
  }

  function Proposed(p: Proposals, peer: nat, run: nat, item: Item, dedup: Option<nat>): Proposals {
    match CheckDeduplication(p, item, dedup)
    case None => p
    case Some(remember) =>
      var key := NextKey(p, peer, run);
      var p' := p.(inFlight := p.inFlight[key := item], lastId := p.lastId + 1);
      if remember.None? then p'
      else p'.(alreadyProposed := p.alreadyProposed[item := (key, remember.value)], keysBNum := p.keysBNum[key := remember.value])
  }

  function Received(p: Proposals, key: Key): Proposals {
    p.(inFlight := p.inFlight - {key}, keysBNum := p.keysBNum - {key})
  }

  function WithoutKeys(p: Proposals, keys: set<Key>): Proposals {
    p.(inFlight := p.inFlight - keys,
       keysBNum := p.keysBNum - keys,
       alreadyProposed := map i | i in p.alreadyProposed && p.alreadyProposed[i].0 !in keys :: p.alreadyProposed[i])
  }

  /** The filters keep the entries below the new minimum. */
  function Ignoring(p: Proposals, minBNum: nat): Proposals {
    p.(minBNum := minBNum,
       alreadyProposed := map i | i in p.alreadyProposed && minBNum > p.alreadyProposed[i].1 :: p.alreadyProposed[i],
       keysBNum := map k | k in p.keysBNum && minBNum > p.keysBNum[k] :: p.keysBNum[k])
  }

  class RaftInFlightProposals {
    var proposedKeyRun: Option<nat>
    var proposedInFlight: Items
    var proposedKeysBNum: map<Key, nat>
    var proposedLastId: nat
    var alreadyProposed: map<Item, (Key, nat)>
    var minBNum: nat

    ghost function View(): Proposals
      reads this
    {
      Proposals(proposedInFlight, proposedKeysBNum, proposedLastId, alreadyProposed, minBNum)
    }

    constructor ()
      ensures proposedKeyRun == None && View() == Proposals(map[], map[], 0, map[], 0)
    {
      proposedKeyRun := None;
      proposedInFlight, proposedKeysBNum, proposedLastId, alreadyProposed, minBNum := map[], map[], 0, map[], 0;
    }

    method SetKeyRun(keyRun: nat)
      modifies this`proposedKeyRun
      ensures proposedKeyRun == Some(keyRun)
    {
      proposedKeyRun := Some(keyRun);
    }

    /** A commit whose data or context does not decode changes nothing. */
    method ReceivedCommitProposal(data: Option<Item>, ctx: Option<Key>) returns (r: Option<(Key, Item, bool)>)
      modifies this
      ensures proposedKeyRun == old(proposedKeyRun)
      ensures data.None? || ctx.None? ==> r == None && View() == old(View())
      ensures data.Some? && ctx.Some? ==>
                && r == Some((ctx.value, data.value, ctx.value in old(proposedInFlight)))
                && View() == Received(old(View()), ctx.value)
    {
      if data.None? || ctx.None? {
        return None;
      }
      var key := ctx.value;
      var removed := key in proposedInFlight;
      proposedInFlight := proposedInFlight - {key};
      proposedKeysBNum := proposedKeysBNum - {key};
      return Some((key, data.value, removed));
    }

    /** The run of the keys is loaded before the first proposal. */
    method ProposeItem(peer: nat, item: Item, dedup: Option<nat>) returns (r: Option<Key>)
      requires proposedKeyRun.Some?
      modifies this
      ensures proposedKeyRun == old(proposedKeyRun)
      ensures View() == Proposed(old(View()), peer, proposedKeyRun.value, item, dedup)
      ensures r == if CheckDeduplication(old(View()), item, dedup).Some? then Some(NextKey(old(View()), peer, proposedKeyRun.value)) else None
    {
      var info := CheckDeduplication(Proposals(proposedInFlight, proposedKeysBNum, proposedLastId, alreadyProposed, minBNum), item, dedup);
      if info.None? {
        return None;
      }
      proposedLastId := proposedLastId + 1;
      var key := Key(peer, proposedKeyRun.value, proposedLastId);
      proposedInFlight := proposedInFlight[key := item];
      if info.value.Some? {
        alreadyProposed := alreadyProposed[item := (key, info.value.value)];
        proposedKeysBNum := proposedKeysBNum[key := info.value.value];
      }
      return Some(key);
    }

    method RemoveAllKeys(keys: set<Key>)
      modifies this
      ensures proposedKeyRun == old(proposedKeyRun)
      ensures View() == WithoutKeys(old(View()), keys)
    {
      var todo := keys;
      ghost var p := View();
      assert p.inFlight - {} == p.inFlight && p.keysBNum - {} == p.keysBNum;
      while todo != {}
        invariant todo <= keys && proposedKeyRun == old(proposedKeyRun)
        invariant View() == WithoutKeys(p, keys - todo)
        decreases todo
      {
        var key :| key in todo;
        proposedInFlight := proposedInFlight - {key};
        proposedKeysBNum := proposedKeysBNum - {key};
        alreadyProposed := map i | i in alreadyProposed && alreadyProposed[i].0 != key :: alreadyProposed[i];
        RemoveStep(p, keys - todo, key);
        assert keys - (todo - {key}) == (keys - todo) + {key};
        todo := todo - {key};
      }
      assert keys - {} == keys;
    }

    /** What was refused as a duplicate is refused no more, unless the new minimum refuses it. */
    method IgnoreDedupBNumLessThan(minBNum: nat)
      modifies this
      ensures proposedKeyRun == old(proposedKeyRun) && View() == Ignoring(old(View()), minBNum)
      ensures forall item, b: nat :: CheckDeduplication(View(), item, Some(b)).Some? <==>
                minBNum <= b && (item in old(View()).alreadyProposed ==> minBNum <= old(View()).alreadyProposed[item].1)
    {
      ghost var p := View();
      this.minBNum := minBNum;
      alreadyProposed := map i | i in alreadyProposed && minBNum > alreadyProposed[i].1 :: alreadyProposed[i];
      proposedKeysBNum := map k | k in proposedKeysBNum && minBNum > proposedKeysBNum[k] :: proposedKeysBNum[k];
      forall item, b: nat
        ensures CheckDeduplication(View(), item, Some(b)).Some? <==>
                  minBNum <= b && (item in p.alreadyProposed ==> minBNum <= p.alreadyProposed[item].1)
      {
        IgnoringForgets(p, minBNum, item, b);
      }
    }
  }

  /** Under the new minimum a recorded item passes as a new one would, unless its record is below that minimum. */
  lemma IgnoringForgets(p: Proposals, minBNum: nat, item: Item, b: nat)
    ensures CheckDeduplication(Ignoring(p, minBNum), item, Some(b)).Some? <==>
              minBNum <= b && (item in p.alreadyProposed ==> minBNum <= p.alreadyProposed[item].1)
  {
  }

  lemma RemoveStep(p: Proposals, done: set<Key>, key: Key)
    ensures var q, r := WithoutKeys(p, done), WithoutKeys(p, done + {key});
            && r.inFlight == q.inFlight - {key} && r.keysBNum == q.keysBNum - {key}
            && r.alreadyProposed == map i | i in q.alreadyProposed && q.alreadyProposed[i].0 != key :: q.alreadyProposed[i]
  {
  }

  /* ---- Counting the transactions in flight ---- */

  ghost function Sizes(items: Items): map<Key, nat> {
    map k | k in items && items[k].Transactions? :: |items[k].txs|
  }

  ghost function InFlightTotal(items: Items): nat {
    Sum(Sizes(items))
  }

  /** The node: the run it is in since its last start, its proposals, the running count, and the pools that bound it. */
  datatype Node = Node(
    run: nat,
    proposals: Proposals,
    poolLen: int,
    localPool: TxMap,
    committedPool: TxMap,
    pipelineKeys: set<Key>)

  /** Which node proposes, and how much it may have in flight. */
  datatype Limits = Limits(peer: nat, poolLenMax: nat, totalMax: nat)

  /**
   What happens to a node. The commit of the vote that decides a block is followed by `BlockCommitted`:
   the pool keeps what block generation leaves, a snapshot sets the minimum, and the pipeline keys are cleared.
   */
  datatype Event =
    | LocalTransactions(txs: TxMap)
    | ProposeTimeout
    | ProposePipeline(item: Item, bNum: nat)
    | ProposeOther(item: Item, dedup: Option<nat>)
    | Committed(data: Option<Item>, ctx: Option<Key>, resets: bool)
    | BlockCommitted(leftover: TxMap, minBNum: nat)
    | SnapshotApplied(txPool: TxMap, pipelineKeys: set<Key>, minBNum: nat)
    | Restart(run: nat, stored: TxMap)
    | NewLeader

  function MinInt(a: int, b: int): int {
    if a < b then a else b
  }

  /** How many transactions may be proposed now. */
  function MaxPropose(l: Limits, n: Node): nat {
    var room := l.totalMax - (n.poolLen + |n.committedPool|);
    MinInt(if room < 0 then 0 else room, l.poolLenMax)
  }

  ghost function AtTimeout(l: Limits, n: Node): Node {
    var txs := FirstN(n.localPool, MaxPropose(l, n));
    var n' := n.(localPool := n.localPool - txs.Keys);
    if txs == map[] then n'
    else n'.(poolLen := n.poolLen + |txs|, proposals := Proposed(n.proposals, l.peer, n.run, Transactions(txs), None))
  }

  function AtCommit(n: Node, item: Item, key: Key, resets: bool): Node {
    var n' := n.(
      poolLen := if key in n.proposals.inFlight && item.Transactions? then n.poolLen - |item.txs| else n.poolLen,
      proposals := Received(n.proposals, key));
    match item
    case Transactions(txs) => n'.(committedPool := n.committedPool + txs)
    case PipelineItem(_) =>
      if resets then n'.(proposals := WithoutKeys(n'.proposals, n.pipelineKeys), pipelineKeys := {}) else n'
    case Other(_) => n'
  }

  ghost function Step(l: Limits, n: Node, e: Event): Node {
    match e
    case LocalTransactions(txs) => n.(localPool := n.localPool + txs)
    case ProposeTimeout => AtTimeout(l, n)
    case ProposePipeline(item, bNum) =>
      var n' := n.(proposals := Proposed(n.proposals, l.peer, n.run, item, Some(bNum)));
      if CheckDeduplication(n.proposals, item, Some(bNum)).Some? then
        n'.(pipelineKeys := n.pipelineKeys + {NextKey(n.proposals, l.peer, n.run)})
      else n'
    case ProposeOther(item, dedup) => n.(proposals := Proposed(n.proposals, l.peer, n.run, item, dedup))
    case Committed(data, ctx, resets) =>
      if data.None? || ctx.None? then n else AtCommit(n, data.value, ctx.value, resets)
    case BlockCommitted(leftover, minBNum) =>
      n.(committedPool := leftover, pipelineKeys := {}, proposals := Ignoring(n.proposals, minBNum))
    case SnapshotApplied(txPool, keys, minBNum) =>
      n.(committedPool := txPool, pipelineKeys := keys, proposals := Ignoring(n.proposals, minBNum))
    case Restart(run, stored) => NewNode(run, stored)
    case NewLeader => n
  }

  /** The proposal an event makes, under the key it makes it with. */
  ghost function Made(l: Limits, n: Node, e: Event): Items {
    match e
    case ProposeTimeout =>
      var txs := FirstN(n.localPool, MaxPropose(l, n));
      if txs == map[] then map[] else map[NextKey(n.proposals, l.peer, n.run) := Transactions(txs)]
    case ProposePipeline(item, bNum) =>
      if CheckDeduplication(n.proposals, item, Some(bNum)).None? then map[] else map[NextKey(n.proposals, l.peer, n.run) := item]
    case ProposeOther(item, dedup) =>
      if CheckDeduplication(n.proposals, item, dedup).None? then map[] else map[NextKey(n.proposals, l.peer, n.run) := item]
    case _ => map[]
  }

  class ComputeProposals {
    const limits: Limits
    const inFlight: RaftInFlightProposals
    var proposedTxPoolLen: int
    var localTxPool: TxMap
    var txPool: TxMap
    var pipelineKeys: set<Key>

    ghost function View(): Node
      reads this, inFlight
      requires Valid()
    {
      Node(inFlight.proposedKeyRun.value, inFlight.View(), proposedTxPoolLen, localTxPool, txPool, pipelineKeys)
    }

    ghost predicate Valid()
      reads this, inFlight
    {
      inFlight.proposedKeyRun.Some?
    }

    /** A node starts with nothing proposed, in a run of its own, and with the transactions of its database. */
    constructor (peer: nat, peersLen: nat, keyRun: nat, stored: TxMap)
      requires 0 < peersLen
      ensures Valid() && limits == Limits(peer, 2000 / peersLen, 4000) && View() == NewNode(keyRun, stored)
    {
      limits := Limits(peer, BlockRules.BLOCK_SIZE_IN_TX / peersLen, BlockRules.BLOCK_SIZE_IN_TX * 2);
      var proposals := new RaftInFlightProposals();
      proposals.SetKeyRun(keyRun);
      inFlight := proposals;
      proposedTxPoolLen, localTxPool, txPool, pipelineKeys := 0, stored, map[], {};
    }

    method ApplySnapshot(txPool: TxMap, pipelineKeys: set<Key>, minBNum: nat)
      requires Valid()
      modifies this, inFlight
      ensures Valid() && View() == Step(limits, old(View()), SnapshotApplied(txPool, pipelineKeys, minBNum))
    {
      hide Ignoring;
      this.txPool, this.pipelineKeys := txPool, pipelineKeys;
      inFlight.IgnoreDedupBNumLessThan(minBNum);
    }

    /** A block was committed, a shutdown block included: its snapshot, then the reset of the mining process. */
    method HandleBlockCommitted(leftover: TxMap, currentBNum: nat)
      requires Valid()
      modifies this, inFlight
      ensures Valid() && View() == Step(limits, old(View()), BlockCommitted(leftover, currentBNum))
    {
      hide Ignoring;
      txPool := leftover;
      GenerateSnapshot(currentBNum);
      ResetMiningBlockProcess();
    }

    method GenerateSnapshot(currentBNum: nat)
      requires Valid()
      modifies inFlight
      ensures Valid() && View() == old(View()).(proposals := Ignoring(old(View()).proposals, currentBNum))
    {
      hide Ignoring;
      inFlight.IgnoreDedupBNumLessThan(currentBNum);
    }

    method ResetMiningBlockProcess()
      requires Valid()
      modifies this`pipelineKeys
      ensures Valid() && View() == old(View()).(pipelineKeys := {})
    {
      pipelineKeys := {};
    }

    method AppendToTxPool(transactions: TxMap)
      requires Valid()
      modifies this`localTxPool
      ensures Valid() && View() == Step(limits, old(View()), LocalTransactions(transactions))
      ensures localTxPool.Keys == old(localTxPool).Keys + transactions.Keys
      ensures forall h <- localTxPool :: localTxPool[h] == if h in transactions then transactions[h] else old(localTxPool)[h]
    {
      localTxPool := localTxPool + transactions;
    }

    method ProposeLocalTransactionsAtTimeout()
      requires Valid()
      modifies this, inFlight
      ensures Valid() && View() == Step(limits, old(View()), ProposeTimeout)
    {
      hide FirstN, Proposed;
      var used := proposedTxPoolLen + |txPool|;
      var maxAdd := if limits.totalMax - used < 0 then 0 else limits.totalMax - used;
      var maxProposeLen := MinInt(maxAdd, limits.poolLenMax);
      assert maxProposeLen == MaxPropose(limits, View());
      var txs;
      txs, localTxPool := TakeFirstN(maxProposeLen, localTxPool);
      if txs != map[] {
        proposedTxPoolLen := proposedTxPoolLen + |txs|;
        var _ := inFlight.ProposeItem(limits.peer, Transactions(txs), None);
      }
    }

    method ProposeMiningPipelineItem(item: Item, bNum: nat) returns (proposed: bool)
      requires Valid()
      modifies this, inFlight
      ensures Valid() && View() == Step(limits, old(View()), ProposePipeline(item, bNum))
      ensures proposed <==> CheckDeduplication(old(inFlight.View()), item, Some(bNum)).Some?
    {
      var key := inFlight.ProposeItem(limits.peer, item, Some(bNum));
      if key.Some? {
        pipelineKeys := pipelineKeys + {key.value};
      }
      proposed := key.Some?;
    }

    /** The part of the commit handling that concerns proposals; `resets` is the pipeline's verdict. */
    method ReceivedCommitProposal(data: Option<Item>, ctx: Option<Key>, resets: bool)
      requires Valid()
      modifies this, inFlight
      ensures Valid() && View() == Step(limits, old(View()), Committed(data, ctx, resets))
    {
      hide WithoutKeys, Received, Proposed, AtTimeout, AtCommit, MaxPropose, FirstN;
      var received := inFlight.ReceivedCommitProposal(data, ctx);
      if received.Some? {
        var (key, item, removed) := received.value;
        ghost var n := old(View());
        assert removed == (key in n.proposals.inFlight);
        assert View() == n.(proposals := Received(n.proposals, key));
        CountAndApply(n, key, item, removed, resets);
      }
    }

    method CountAndApply(ghost n: Node, key: Key, item: Item, removed: bool, resets: bool)
      requires Valid() && View() == n.(proposals := Received(n.proposals, key))
      requires removed == (key in n.proposals.inFlight)
      modifies this, inFlight
      ensures Valid() && View() == AtCommit(n, item, key, resets)
    {
      hide WithoutKeys, Received;
      if removed && item.Transactions? {
        proposedTxPoolLen := proposedTxPoolLen - |item.txs|;
      }
      if item.Transactions? {
        txPool := txPool + item.txs;
      } else if item.PipelineItem? && resets {
        ResetPipelineProposals();
      }
    }

    method ResetPipelineProposals()
      requires Valid()
      modifies this, inFlight
      ensures Valid()
      ensures View() == old(View()).(proposals := WithoutKeys(old(View()).proposals, old(pipelineKeys)), pipelineKeys := {})
    {
      hide WithoutKeys;
      inFlight.RemoveAllKeys(pipelineKeys);
      pipelineKeys := {};
    }
  }

  const NO_PROPOSALS := Proposals(map[], map[], 0, map[], 0)

  function NewNode(run: nat, stored: TxMap): Node {
    Node(run, NO_PROPOSALS, 0, stored, map[], {})
  }

  /* ---- Runs ---- */

  ghost function Run(l: Limits, events: seq<Event>): Node {
    if events == [] then NewNode(0, map[]) else Step(l, Run(l, events[..|events| - 1]), events[|events| - 1])
  }

  /** All proposals made so far, by key. */
  ghost function History(l: Limits, events: seq<Event>): Items {
    if events == [] then map[]
    else History(l, events[..|events| - 1]) + Made(l, Run(l, events[..|events| - 1]), events[|events| - 1])
  }

  /** The keys of a snapshot are those of pipeline proposals, of whichever node. */
  ghost predicate ArePipelineKeys(l: Limits, history: Items, keys: set<Key>) {
    forall k <- keys :: if k in history then history[k].PipelineItem? else k.proposerId != l.peer
  }

  /**
   Pipeline proposals carry pipeline items, other ones no transactions; a commit under a key of ours is
   what we proposed; a block takes transactions out of the pool; a snapshot has pipeline keys only; each
   start of the node counts its run up.
   */
  ghost predicate LegalEvent(l: Limits, n: Node, history: Items, e: Event) {
    match e
    case ProposePipeline(item, _) => item.PipelineItem?
    case ProposeOther(item, _) => !item.Transactions?
    case Committed(data, ctx, _) => data.Some? && ctx.Some? && ctx.value in history ==> history[ctx.value] == data.value
    case BlockCommitted(leftover, _) => leftover.Keys <= n.committedPool.Keys
    case SnapshotApplied(_, keys, _) => ArePipelineKeys(l, history, keys)
    case Restart(run, _) => n.run < run
    case _ => true
  }

  ghost predicate LegalRun(l: Limits, events: seq<Event>) {
    forall i :: 0 <= i < |events| ==> LegalEvent(l, Run(l, events[..i]), History(l, events[..i]), events[i])
  }

  ghost predicate Accounted(l: Limits, n: Node, history: Items) {
    && n.poolLen == InFlightTotal(n.proposals.inFlight)
    && (forall k <- history :: k.proposerId == l.peer && (k.proposerRun < n.run || (k.proposerRun == n.run && k.proposalId <= n.proposals.lastId)))
    && (forall k <- n.proposals.inFlight :: k in history && history[k] == n.proposals.inFlight[k])
    && ArePipelineKeys(l, history, n.pipelineKeys)
  }

  lemma TotalInsert(items: Items, k: Key, item: Item)
    requires k !in items
    ensures InFlightTotal(items[k := item]) == InFlightTotal(items) + if item.Transactions? then |item.txs| else 0
  {
    if item.Transactions? {
      SumInsert(Sizes(items), k, |item.txs|);
      assert Sizes(items[k := item]) == Sizes(items)[k := |item.txs|];
    } else {
      assert Sizes(items[k := item]) == Sizes(items);
    }
  }

  lemma TotalRemove(items: Items, k: Key)
    requires k in items
    ensures InFlightTotal(items) == InFlightTotal(items - {k}) + if items[k].Transactions? then |items[k].txs| else 0
  {
    TotalInsert(items - {k}, k, items[k]);
    assert (items - {k})[k := items[k]] == items;
  }

  lemma TotalWithoutOthers(items: Items, keys: set<Key>)
    requires forall k <- keys :: k in items ==> !items[k].Transactions?
    ensures InFlightTotal(items - keys) == InFlightTotal(items)
  {
    assert Sizes(items - keys) == Sizes(items);
  }

  /** A new proposal is made under a key that none before it had. */
  lemma MadeFresh(l: Limits, n: Node, history: Items, e: Event)
    requires Accounted(l, n, history)
    ensures Made(l, n, e).Keys !! history.Keys
    ensures |Made(l, n, e)| <= 1
  {
    hide FirstN;
  }

  lemma ProposedAccounted(l: Limits, n: Node, history: Items, item: Item, dedup: Option<nat>)
    requires Accounted(l, n, history)
    requires CheckDeduplication(n.proposals, item, dedup).Some?
    ensures var key := NextKey(n.proposals, l.peer, n.run);
            var more := if item.Transactions? then |item.txs| else 0;
            Accounted(l, n.(proposals := Proposed(n.proposals, l.peer, n.run, item, dedup), poolLen := n.poolLen + more), history[key := item])
  {
    hide InFlightTotal;
    var key := NextKey(n.proposals, l.peer, n.run);
    TotalInsert(n.proposals.inFlight, key, item);
  }

  lemma CommittedAccounted(l: Limits, n: Node, history: Items, item: Item, key: Key, resets: bool)
    requires Accounted(l, n, history) && (key in history ==> history[key] == item)
    ensures Accounted(l, AtCommit(n, item, key, resets), history)
    ensures 0 <= AtCommit(n, item, key, resets).poolLen
  {
    var items := n.proposals.inFlight;
    if key in items {
      TotalRemove(items, key);
    } else {
      assert items - {key} == items;
    }
    if item.PipelineItem? && resets {
      TotalWithoutOthers(items - {key}, n.pipelineKeys);
    }
  }

  lemma AccountedElsewhere(l: Limits, n: Node, n': Node, history: Items)
    requires Accounted(l, n, history)
    requires n'.run == n.run && n'.proposals == n.proposals && n'.poolLen == n.poolLen && n'.pipelineKeys == n.pipelineKeys
    ensures Accounted(l, n', history)
  {
    hide InFlightTotal;
  }

  lemma ProposedNothing(p: Proposals, peer: nat, run: nat, item: Item, dedup: Option<nat>)
    requires CheckDeduplication(p, item, dedup).None?
    ensures Proposed(p, peer, run, item, dedup) == p
  {
  }

  lemma TimeoutProposes(l: Limits, n: Node, history: Items, txs: TxMap)
    requires Accounted(l, n, history) && txs == FirstN(n.localPool, MaxPropose(l, n)) && txs != map[]
    ensures Accounted(l, AtTimeout(l, n), history[NextKey(n.proposals, l.peer, n.run) := Transactions(txs)])
  {
    hide InFlightTotal, FirstN, Proposed, Accounted, MaxPropose;
    var proposed := n.(proposals := Proposed(n.proposals, l.peer, n.run, Transactions(txs), None), poolLen := n.poolLen + |txs|);
    ProposedAccounted(l, n, history, Transactions(txs), None);
    AccountedElsewhere(l, proposed, AtTimeout(l, n), history[NextKey(n.proposals, l.peer, n.run) := Transactions(txs)]);
  }

  lemma TimeoutAccounted(l: Limits, n: Node, history: Items)
    requires Accounted(l, n, history)
    ensures Accounted(l, AtTimeout(l, n), history + Made(l, n, ProposeTimeout))
  {
    hide InFlightTotal, FirstN, Proposed, Accounted, MaxPropose, NextKey;
    var txs := FirstN(n.localPool, MaxPropose(l, n));
    if txs != map[] {
      TimeoutProposes(l, n, history, txs);
      assert history + Made(l, n, ProposeTimeout) == history[NextKey(n.proposals, l.peer, n.run) := Transactions(txs)];
    } else {
      assert history + Made(l, n, ProposeTimeout) == history;
      AccountedElsewhere(l, n, AtTimeout(l, n), history);
    }
  }

  lemma PipelineAccounted(l: Limits, n: Node, history: Items, item: Item, bNum: nat)
    requires Accounted(l, n, history) && item.PipelineItem?
    ensures var e := ProposePipeline(item, bNum); Accounted(l, Step(l, n, e), history + Made(l, n, e))
  {
    hide InFlightTotal, Proposed;
    var e := ProposePipeline(item, bNum);
    if CheckDeduplication(n.proposals, item, Some(bNum)).Some? {
      ProposedAccounted(l, n, history, item, Some(bNum));
      assert history + Made(l, n, e) == history[NextKey(n.proposals, l.peer, n.run) := item];
    } else {
      ProposedNothing(n.proposals, l.peer, n.run, item, Some(bNum));
      assert history + Made(l, n, e) == history;
    }
  }

  lemma OtherAccounted(l: Limits, n: Node, history: Items, item: Item, dedup: Option<nat>)
    requires Accounted(l, n, history) && !item.Transactions?
    ensures var e := ProposeOther(item, dedup); Accounted(l, Step(l, n, e), history + Made(l, n, e))
  {
    hide InFlightTotal, Proposed;
    var e := ProposeOther(item, dedup);
    if CheckDeduplication(n.proposals, item, dedup).Some? {
      ProposedAccounted(l, n, history, item, dedup);
      assert history + Made(l, n, e) == history[NextKey(n.proposals, l.peer, n.run) := item];
    } else {
      ProposedNothing(n.proposals, l.peer, n.run, item, dedup);
      assert history + Made(l, n, e) == history;
    }
  }

  /** One event of any kind keeps the count exact. */
  lemma StepAccounted(l: Limits, n: Node, history: Items, e: Event)
    requires Accounted(l, n, history) && LegalEvent(l, n, history, e)
    ensures Accounted(l, Step(l, n, e), history + Made(l, n, e))
  {
    hide InFlightTotal, FirstN, AtTimeout, AtCommit, Proposed;
    match e
    case ProposeTimeout => TimeoutAccounted(l, n, history);
    case ProposePipeline(item, bNum) => PipelineAccounted(l, n, history, item, bNum);
    case ProposeOther(item, dedup) => OtherAccounted(l, n, history, item, dedup);
    case Committed(data, ctx, resets) =>
      assert history + Made(l, n, e) == history;
      if data.Some? && ctx.Some? {
        CommittedAccounted(l, n, history, data.value, ctx.value, resets);
      }
    case Restart(run, stored) =>
      assert history + Made(l, n, e) == history;
      NothingInFlight(l, run, stored, history);
    case _ =>
      assert history + Made(l, n, e) == history;
  }

  /**
   Over every run, restarts included, the count equals the transactions of the node's proposals in
   flight, so it never goes below zero; and no two proposals were ever made under one key.
   */
  lemma {:induction false} RunAccounted(l: Limits, events: seq<Event>)
    requires LegalRun(l, events)
    ensures Accounted(l, Run(l, events), History(l, events))
    ensures 0 <= Run(l, events).poolLen == InFlightTotal(Run(l, events).proposals.inFlight)
    ensures KeysDistinct(l, events)
    decreases |events|
  {
    hide Step, Made, LegalEvent, LegalRun, Accounted, InFlightTotal, KeysDistinct;
    if events == [] {
      NothingInFlight(l, 0, map[], map[]);
      KeysStart(l, events);
    } else {
      var n := |events| - 1;
      var front := events[..n];
      LegalFront(l, events);
      RunAccounted(l, front);
      StepAccounted(l, Run(l, front), History(l, front), events[n]);
      MadeFresh(l, Run(l, front), History(l, front), events[n]);
      KeysStep(l, events);
    }
    AccountedCount(l, Run(l, events), History(l, events));
  }

  lemma LegalFront(l: Limits, events: seq<Event>)
    requires LegalRun(l, events) && events != []
    ensures var n := |events| - 1;
            LegalRun(l, events[..n]) && LegalEvent(l, Run(l, events[..n]), History(l, events[..n]), events[n])
  {
    hide LegalEvent, History, Run;
    var n := |events| - 1;
    var front := events[..n];
    forall i | 0 <= i < n ensures LegalEvent(l, Run(l, front[..i]), History(l, front[..i]), front[i]) {
      assert front[..i] == events[..i];
    }
  }

  /** No key is used by two events. */
  ghost predicate KeysDistinct(l: Limits, events: seq<Event>) {
    forall i, j :: 0 <= i < j < |events| ==> MadeBy(l, events, i) !! MadeBy(l, events, j)
  }

  ghost function MadeBy(l: Limits, events: seq<Event>, i: nat): set<Key>
    requires i < |events|
  {
    Made(l, Run(l, events[..i]), events[i]).Keys
  }

  /** A node just started has nothing in flight, whatever it proposed in earlier runs. */
  lemma NothingInFlight(l: Limits, run: nat, stored: TxMap, history: Items)
    requires forall k <- history :: k.proposerId == l.peer && k.proposerRun < run
    ensures Accounted(l, NewNode(run, stored), history)
  {
    assert Sizes(map[]) == map[];
  }

  lemma AccountedCount(l: Limits, n: Node, history: Items)
    requires Accounted(l, n, history)
    ensures n.poolLen == InFlightTotal(n.proposals.inFlight)
  {
  }

  lemma KeysStart(l: Limits, events: seq<Event>)
    requires events == []
    ensures KeysDistinct(l, events)
  {
  }

  lemma KeysStep(l: Limits, events: seq<Event>)
    requires events != []
    requires var n := |events| - 1;
             KeysDistinct(l, events[..n]) && Made(l, Run(l, events[..n]), events[n]).Keys !! History(l, events[..n]).Keys
    ensures KeysDistinct(l, events)
  {
    hide Step, Made, Run, History;
    var n := |events| - 1;
    forall i, j | 0 <= i < j < |events| ensures MadeBy(l, events, i) !! MadeBy(l, events, j) {
      assert events[..n][..i] == events[..i];
      assert MadeBy(l, events, i) == MadeBy(l, events[..n], i);
      if j < n {
        assert events[..n][..j] == events[..j];
        assert MadeBy(l, events, j) == MadeBy(l, events[..n], j);
      } else {
        MadeRecorded(l, events[..n], i);
      }
    }
  }

  lemma {:induction false} MadeRecorded(l: Limits, events: seq<Event>, i: nat)
    requires i < |events|
    ensures Made(l, Run(l, events[..i]), events[i]).Keys <= History(l, events).Keys
    decreases |events|
  {
    hide Step, Made;
    var n := |events| - 1;
    if i < n {
      assert events[..n][..i] == events[..i];
      MadeRecorded(l, events[..n], i);
    }
  }

  /** The local transactions to propose now: as many as fit below both limits, those with the smallest hashes. */
  ghost predicate IsProposable(l: Limits, n: Node, taken: TxMap, rest: TxMap) {
    var room := l.totalMax - (n.poolLen + |n.committedPool|);
    && taken + rest == n.localPool && taken.Keys !! rest.Keys
    && |taken| == MinInt(|n.localPool|, MinInt(l.poolLenMax, if room < 0 then 0 else room))
    && forall h <- taken, k <- rest :: h < k
  }

  lemma TakenProposable(l: Limits, n: Node)
    ensures var taken := FirstN(n.localPool, MaxPropose(l, n)); IsProposable(l, n, taken, n.localPool - taken.Keys)
  {
    hide FirstN;
    PoolSplit(n.localPool, MaxPropose(l, n));
  }

  /** Proposing takes exactly these, loses none, and never takes what is in flight and committed past the total limit. */
  lemma ProposingRespectsLimit(l: Limits, n: Node)
    ensures var n' := Step(l, n, ProposeTimeout);
            exists taken: TxMap ::
              && IsProposable(l, n, taken, n'.localPool)
              && n'.poolLen == n.poolLen + |taken|
              && n'.proposals == if taken == map[] then n.proposals else Proposed(n.proposals, l.peer, n.run, Transactions(taken), None)
    ensures var used, n' := n.poolLen + |n.committedPool|, Step(l, n, ProposeTimeout);
            n'.poolLen + |n'.committedPool| <= if used < l.totalMax then l.totalMax else used
  {
    hide FirstN, Proposed, IsProposable;
    var taken := FirstN(n.localPool, MaxPropose(l, n));
    TakenProposable(l, n);
    ProposableFits(l, n, taken, n.localPool - taken.Keys);
    assert IsProposable(l, n, taken, Step(l, n, ProposeTimeout).localPool);
    assert taken == map[] ==> |taken| == 0;
  }

  lemma ProposableFits(l: Limits, n: Node, taken: TxMap, rest: TxMap)
    requires IsProposable(l, n, taken, rest)
    ensures var used := n.poolLen + |n.committedPool|; used + |taken| <= if used < l.totalMax then l.totalMax else used
  {
  }

  /** A local transaction stays in the local pool until it is proposed, or the node restarts. */
  lemma LocalFate(l: Limits, n: Node, e: Event, h: Hash)
    requires h in n.localPool || (e.LocalTransactions? && h in e.txs)
    ensures || h in Step(l, n, e).localPool || e.Restart?
            || exists key <- Made(l, n, e) :: Made(l, n, e)[key].Transactions? && h in Made(l, n, e)[key].txs
  {
    hide FirstN, Proposed, MaxPropose, NextKey, CheckDeduplication;
    if e.ProposeTimeout? {
      var txs := FirstN(n.localPool, MaxPropose(l, n));
      var key := NextKey(n.proposals, l.peer, n.run);
      assert Step(l, n, e).localPool == n.localPool - txs.Keys;
      if h in txs {
        assert Made(l, n, e) == map[key := Transactions(txs)];
        assert key in Made(l, n, e);
      }
    }
  }

  /* ---- How long a proposal is in flight ---- */

  /** The event takes the proposal under the key out of flight: its commit, a reset that it is listed for, or a restart. */
  predicate LandsNow(n: Node, e: Event, key: Key) {
    match e
    case Committed(data, ctx, _) => data.Some? && ctx.Some? && (ctx.value == key || (Resets(e) && key in n.pipelineKeys))
    case Restart(_, _) => true
    case _ => false
  }

  ghost predicate Lands(l: Limits, events: seq<Event>, f: nat, key: Key)
    requires f < |events|
  {
    LandsNow(Run(l, events[..f]), events[f], key)
  }

  lemma ProposedFlight(p: Proposals, peer: nat, run: nat, item: Item, dedup: Option<nat>)
    ensures Proposed(p, peer, run, item, dedup).inFlight
            == if CheckDeduplication(p, item, dedup).Some? then p.inFlight[NextKey(p, peer, run) := item] else p.inFlight
  {
  }

  lemma FlightStep(l: Limits, n: Node, e: Event, key: Key)
    ensures key in Step(l, n, e).proposals.inFlight <==> key in Made(l, n, e) || (key in n.proposals.inFlight && !LandsNow(n, e, key))
    ensures key in Step(l, n, e).proposals.inFlight ==>
              Step(l, n, e).proposals.inFlight[key] == if key in Made(l, n, e) then Made(l, n, e)[key] else n.proposals.inFlight[key]
  {
    hide FirstN, Proposed, CheckDeduplication, NextKey, MaxPropose;
    match e
    case ProposeTimeout =>
      ProposedFlight(n.proposals, l.peer, n.run, Transactions(FirstN(n.localPool, MaxPropose(l, n))), None);
      NoDeduplication(n.proposals, Transactions(FirstN(n.localPool, MaxPropose(l, n))));
    case ProposePipeline(item, b) => ProposedFlight(n.proposals, l.peer, n.run, item, Some(b));
    case ProposeOther(item, dedup) => ProposedFlight(n.proposals, l.peer, n.run, item, dedup);
    case Committed(data, ctx, resets) =>
      if data.Some? && ctx.Some? {
        CommitFlight(n, data.value, ctx.value, resets, key);
      }
    case _ =>
  }

  lemma NoDeduplication(p: Proposals, item: Item)
    ensures CheckDeduplication(p, item, None) == Some(None)
  {
  }

  lemma CommitFlight(n: Node, item: Item, ctx: Key, resets: bool, key: Key)
    ensures var after := AtCommit(n, item, ctx, resets).proposals.inFlight;
            && (key in after <==> key in n.proposals.inFlight && ctx != key && !(item.PipelineItem? && resets && key in n.pipelineKeys))
            && (key in after ==> after[key] == n.proposals.inFlight[key])
  {
  }

  /**
   In every run, what an event proposes stays in flight under its key until it is committed, a reset takes it
   back, or the node restarts.
   */
  lemma {:induction false} InFlightLasts(l: Limits, events: seq<Event>, i: nat, m: nat, key: Key)
    requires LegalRun(l, events) && i < m <= |events| && key in Made(l, Run(l, events[..i]), events[i])
    ensures var flying := Run(l, events[..m]).proposals.inFlight;
            && (key in flying <==> forall f :: i < f < m ==> !Lands(l, events, f, key))
            && (key in flying ==> flying[key] == Made(l, Run(l, events[..i]), events[i])[key])
    decreases m
  {
    hide Step, Made, LegalRun, LandsNow;
    var before, e := events[..m - 1], events[m - 1];
    assert events[..m][..m - 1] == before && events[..m][m - 1] == e;
    FlightStep(l, Run(l, before), e, key);
    if i + 1 < m {
      InFlightLasts(l, events, i, m - 1, key);
      NotMadeAgain(l, events, i, m - 1, key);
      assert Lands(l, events, m - 1, key) <==> LandsNow(Run(l, before), e, key);
    }
  }

  lemma NotMadeAgain(l: Limits, events: seq<Event>, i: nat, f: nat, key: Key)
    requires LegalRun(l, events) && i < f < |events| && key in Made(l, Run(l, events[..i]), events[i])
    ensures key !in Made(l, Run(l, events[..f]), events[f])
  {
    hide Run, Made, LegalRun;
    RunAccounted(l, events);
    assert key in MadeBy(l, events, i);
    assert key !in MadeBy(l, events, f);
  }

  /* ---- What is left to re-propose ---- */

  /** The event drops the number remembered for the key: it lands, or the minimum is no later than the number. */
  predicate DropsNumber(n: Node, e: Event, key: Key, bNum: nat) {
    LandsNow(n, e, key) || (e.BlockCommitted? && e.minBNum <= bNum) || (e.SnapshotApplied? && e.minBNum <= bNum)
  }

  lemma ProposedNumbers(p: Proposals, peer: nat, run: nat, item: Item, dedup: Option<nat>)
    ensures Proposed(p, peer, run, item, dedup).keysBNum
            == if dedup.Some? && CheckDeduplication(p, item, dedup).Some? then p.keysBNum[NextKey(p, peer, run) := dedup.value] else p.keysBNum
  {
  }

  lemma CommitNumbers(n: Node, item: Item, ctx: Key, resets: bool, key: Key)
    ensures var after := AtCommit(n, item, ctx, resets).proposals.keysBNum;
            && (key in after <==> key in n.proposals.keysBNum && ctx != key && !(item.PipelineItem? && resets && key in n.pipelineKeys))
            && (key in after ==> after[key] == n.proposals.keysBNum[key])
  {
  }

  lemma NumberStep(l: Limits, n: Node, e: Event, key: Key)
    requires key in n.proposals.keysBNum && key !in Made(l, n, e)
    ensures var after, bNum := Step(l, n, e).proposals.keysBNum, n.proposals.keysBNum[key];
            (key in after <==> !DropsNumber(n, e, key, bNum)) && (key in after ==> after[key] == bNum)
  {
    hide FirstN, Proposed, NextKey, MaxPropose;
    match e
    case ProposeTimeout =>
      ProposedNumbers(n.proposals, l.peer, n.run, Transactions(FirstN(n.localPool, MaxPropose(l, n))), None);
    case ProposePipeline(item, b) => ProposedNumbers(n.proposals, l.peer, n.run, item, Some(b));
    case ProposeOther(item, dedup) => ProposedNumbers(n.proposals, l.peer, n.run, item, dedup);
    case Committed(data, ctx, resets) =>
      if data.Some? && ctx.Some? {
        CommitNumbers(n, data.value, ctx.value, resets, key);
      }
    case _ =>
  }

  lemma NoNumberStep(l: Limits, n: Node, e: Event, key: Key)
    requires key !in n.proposals.keysBNum && key !in Made(l, n, e)
    ensures key !in Step(l, n, e).proposals.keysBNum
  {
    hide FirstN, Proposed, NextKey, MaxPropose;
    match e
    case ProposeTimeout =>
      ProposedNumbers(n.proposals, l.peer, n.run, Transactions(FirstN(n.localPool, MaxPropose(l, n))), None);
    case ProposePipeline(item, b) => ProposedNumbers(n.proposals, l.peer, n.run, item, Some(b));
    case ProposeOther(item, dedup) => ProposedNumbers(n.proposals, l.peer, n.run, item, dedup);
    case Committed(data, ctx, resets) =>
      if data.Some? && ctx.Some? {
        CommitNumbers(n, data.value, ctx.value, resets, key);
      }
    case _ =>
  }

  lemma NumberMade(l: Limits, n: Node, e: Event, item: Item, bNum: nat)
    requires Repeatable(e) == Some((item, bNum)) && CheckDeduplication(n.proposals, item, Some(bNum)).Some?
    ensures var key, after := NextKey(n.proposals, l.peer, n.run), Step(l, n, e).proposals.keysBNum;
            key in Made(l, n, e) && key in after && after[key] == bNum
  {
    hide Proposed;
    ProposedNumbers(n.proposals, l.peer, n.run, item, Some(bNum));
  }

  ghost predicate Drops(l: Limits, events: seq<Event>, f: nat, key: Key, bNum: nat)
    requires f < |events|
  {
    DropsNumber(Run(l, events[..f]), events[f], key, bNum)
  }

  lemma {:induction false} NumberLasts(l: Limits, events: seq<Event>, i: nat, m: nat, item: Item, bNum: nat)
    requires LegalRun(l, events) && i < m <= |events| && Proposes(l, events, i, item, bNum)
    ensures var key, numbers := KeyAt(l, events, i), Run(l, events[..m]).proposals.keysBNum;
            && (key in numbers <==> forall f :: i < f < m ==> !Drops(l, events, f, key, bNum))
            && (key in numbers ==> numbers[key] == bNum)
    decreases m
  {
    hide Step, Made, LegalRun, DropsNumber;
    var before, e, key := events[..m - 1], events[m - 1], KeyAt(l, events, i);
    assert events[..m][..m - 1] == before && events[..m][m - 1] == e;
    NumberMade(l, Run(l, events[..i]), events[i], item, bNum);
    if i + 1 < m {
      NumberLasts(l, events, i, m - 1, item, bNum);
      NotMadeAgain(l, events, i, m - 1, key);
      assert Drops(l, events, m - 1, key, bNum) <==> DropsNumber(Run(l, before), e, key, bNum);
      if key in Run(l, before).proposals.keysBNum {
        NumberStep(l, Run(l, before), e, key);
      } else {
        NoNumberStep(l, Run(l, before), e, key);
      }
    }
  }

  /**
   In every run, a proposal is among those to re-propose for its block exactly if since it was made nothing
   took it out of flight and no block commit or applied snapshot set a minimum no later than that block.
   */
  lemma ReProposedExactly(l: Limits, events: seq<Event>, i: nat, m: nat, item: Item, bNum: nat)
    requires LegalRun(l, events) && i < m <= |events| && Proposes(l, events, i, item, bNum)
    ensures var key := KeyAt(l, events, i);
            key in ReProposed(Run(l, events[..m]).proposals, bNum) <==> forall f :: i < f < m ==> !Drops(l, events, f, key, bNum)
  {
    hide Run, Made, LegalRun, Drops, Lands;
    var key := KeyAt(l, events, i);
    NumberLasts(l, events, i, m, item, bNum);
    MadeUnder(l, Run(l, events[..i]), events[i], item, bNum);
    InFlightLasts(l, events, i, m, key);
    forall f | i < f < m && !Drops(l, events, f, key, bNum) ensures !Lands(l, events, f, key) {
      DropsLanded(l, events, f, key, bNum);
    }
  }

  lemma DropsLanded(l: Limits, events: seq<Event>, f: nat, key: Key, bNum: nat)
    requires f < |events|
    ensures Lands(l, events, f, key) ==> Drops(l, events, f, key, bNum)
  {
  }

  lemma MadeUnder(l: Limits, n: Node, e: Event, item: Item, bNum: nat)
    requires Repeatable(e) == Some((item, bNum)) && CheckDeduplication(n.proposals, item, Some(bNum)).Some?
    ensures NextKey(n.proposals, l.peer, n.run) in Made(l, n, e)
  {
  }

  /* ---- When a repeated proposal is refused ---- */

  /** The item an event proposes for deduplication, with the block number to remember it by. */
  function Repeatable(e: Event): Option<(Item, nat)> {
    match e
    case ProposePipeline(item, bNum) => Some((item, bNum))
    case ProposeOther(item, Some(bNum)) => Some((item, bNum))
    case _ => None
  }

  /** Whether event i proposes the item with the number and is not refused. */
  ghost predicate Proposes(l: Limits, events: seq<Event>, i: nat, item: Item, bNum: nat)
    requires i < |events|
  {
    Repeatable(events[i]) == Some((item, bNum)) && CheckDeduplication(Run(l, events[..i]).proposals, item, Some(bNum)).Some?
  }

  ghost function KeyAt(l: Limits, events: seq<Event>, i: nat): Key
    requires i < |events|
  {
    NextKey(Run(l, events[..i]).proposals, l.peer, Run(l, events[..i]).run)
  }

  predicate Resets(e: Event) {
    e.Committed? && e.data.Some? && e.ctx.Some? && e.data.value.PipelineItem? && e.resets
  }

  /**
   Event f forgets a proposal recorded under the key with the number: a block commit or an applied snapshot
   with a minimum no later than that number, a reset of the pipeline that the key is listed for, or a restart.
   */
  ghost predicate Forgets(l: Limits, events: seq<Event>, f: nat, key: Key, bNum: nat)
    requires f < |events|
  {
    ForgetsNow(Run(l, events[..f]), events[f], key, bNum)
  }

  predicate ForgetsNow(n: Node, e: Event, key: Key, bNum: nat) {
    match e
    case BlockCommitted(_, minBNum) => minBNum <= bNum
    case SnapshotApplied(_, _, minBNum) => minBNum <= bNum
    case Restart(_, _) => true
    case Committed(_, _, _) => Resets(e) && key in n.pipelineKeys
    case _ => false
  }

  /** The minimum that the last snapshot since the last start set. */
  function MinAfter(events: seq<Event>): nat {
    if events == [] then 0
    else
      match events[|events| - 1]
      case BlockCommitted(_, minBNum) => minBNum
      case SnapshotApplied(_, _, minBNum) => minBNum
      case Restart(_, _) => 0
      case _ => MinAfter(events[..|events| - 1])
  }

  lemma {:induction false} MinIs(l: Limits, events: seq<Event>)
    ensures Run(l, events).proposals.minBNum == MinAfter(events)
    decreases |events|
  {
    hide Step;
    if events != [] {
      MinIs(l, events[..|events| - 1]);
      MinStep(l, Run(l, events[..|events| - 1]), events[|events| - 1]);
    }
  }

  lemma MinStep(l: Limits, n: Node, e: Event)
    ensures Step(l, n, e).proposals.minBNum ==
            match e
            case BlockCommitted(_, minBNum) => minBNum
            case SnapshotApplied(_, _, minBNum) => minBNum
            case Restart(_, _) => 0
            case _ => n.proposals.minBNum
  {
    hide FirstN, MaxPropose, Proposed, AtCommit;
    match e
    case ProposeTimeout => ProposedMin(n.proposals, l.peer, n.run, Transactions(FirstN(n.localPool, MaxPropose(l, n))), None);
    case ProposePipeline(item, b) => ProposedMin(n.proposals, l.peer, n.run, item, Some(b));
    case ProposeOther(item, dedup) => ProposedMin(n.proposals, l.peer, n.run, item, dedup);
    case Committed(data, ctx, resets) =>
      if data.Some? && ctx.Some? {
        CommitMin(n, data.value, ctx.value, resets);
      }
    case _ =>
  }

  lemma ProposedMin(p: Proposals, peer: nat, run: nat, item: Item, dedup: Option<nat>)
    ensures Proposed(p, peer, run, item, dedup).minBNum == p.minBNum
  {
  }

  lemma CommitMin(n: Node, item: Item, key: Key, resets: bool)
    ensures AtCommit(n, item, key, resets).proposals.minBNum == n.proposals.minBNum
  {
  }

  /** Proposing leaves the records of other items alone, and refuses a recorded item. */
  lemma ProposedRecords(p: Proposals, peer: nat, run: nat, item: Item, dedup: Option<nat>, recorded: Item)
    requires recorded in p.alreadyProposed
    ensures var after := Proposed(p, peer, run, item, dedup).alreadyProposed;
            recorded in after && after[recorded] == p.alreadyProposed[recorded]
  {
  }

  /** What one event does to the record of an item that it does not propose anew. */
  lemma RecordStep(l: Limits, n: Node, e: Event, item: Item, key: Key, bNum: nat)
    requires item in n.proposals.alreadyProposed && n.proposals.alreadyProposed[item] == (key, bNum)
    ensures var after := Step(l, n, e).proposals.alreadyProposed;
            (item in after <==> !ForgetsNow(n, e, key, bNum)) && (item in after ==> after[item] == (key, bNum))
  {
    hide FirstN, Proposed;
    match e
    case ProposeTimeout => ProposedRecords(n.proposals, l.peer, n.run, Transactions(FirstN(n.localPool, MaxPropose(l, n))), None, item);
    case ProposePipeline(other, b) => ProposedRecords(n.proposals, l.peer, n.run, other, Some(b), item);
    case ProposeOther(other, dedup) => ProposedRecords(n.proposals, l.peer, n.run, other, dedup, item);
    case Committed(data, ctx, resets) =>
      if data.Some? && ctx.Some? {
        CommitRecords(n, e, item, key, bNum);
      }
    case _ =>
  }

  lemma CommitRecords(n: Node, e: Event, item: Item, key: Key, bNum: nat)
    requires e.Committed? && e.data.Some? && e.ctx.Some?
    requires item in n.proposals.alreadyProposed && n.proposals.alreadyProposed[item] == (key, bNum)
    ensures var after := AtCommit(n, e.data.value, e.ctx.value, e.resets).proposals.alreadyProposed;
            (item in after <==> !(Resets(e) && key in n.pipelineKeys)) && (item in after ==> after[item] == (key, bNum))
  {
  }

  /** An event records no item but the one it proposes for deduplication. */
  lemma NoRecordStep(l: Limits, n: Node, e: Event, item: Item)
    requires item !in n.proposals.alreadyProposed && (Repeatable(e).Some? ==> Repeatable(e).value.0 != item)
    ensures item !in Step(l, n, e).proposals.alreadyProposed
  {
    hide FirstN;
  }

  lemma RecordMade(l: Limits, n: Node, e: Event, item: Item, bNum: nat)
    requires Repeatable(e) == Some((item, bNum)) && CheckDeduplication(n.proposals, item, Some(bNum)).Some?
    ensures var after := Step(l, n, e).proposals.alreadyProposed;
            item in after && after[item] == (NextKey(n.proposals, l.peer, n.run), bNum)
  {
  }

  /** The record of a proposal lasts until an event forgets it. */
  lemma {:induction false} RecordLasts(l: Limits, events: seq<Event>, i: nat, m: nat, item: Item, bNum: nat)
    requires i < m <= |events| && Proposes(l, events, i, item, bNum)
    requires forall k :: i < k < m && Repeatable(events[k]).Some? ==> Repeatable(events[k]).value.0 != item
    ensures var recorded := Run(l, events[..m]).proposals.alreadyProposed;
            && (item in recorded <==> forall f :: i < f < m ==> !Forgets(l, events, f, KeyAt(l, events, i), bNum))
            && (item in recorded ==> recorded[item] == (KeyAt(l, events, i), bNum))
    decreases m
  {
    hide Step, ForgetsNow;
    var before, e := events[..m - 1], events[m - 1];
    assert events[..m][..m - 1] == before && events[..m][m - 1] == e;
    if m == i + 1 {
      RecordMade(l, Run(l, before), e, item, bNum);
    } else {
      RecordLasts(l, events, i, m - 1, item, bNum);
      if item in Run(l, before).proposals.alreadyProposed {
        RecordStep(l, Run(l, before), e, item, KeyAt(l, events, i), bNum);
        assert Forgets(l, events, m - 1, KeyAt(l, events, i), bNum) <==> ForgetsNow(Run(l, before), e, KeyAt(l, events, i), bNum);
      } else {
        NoRecordStep(l, Run(l, before), e, item);
      }
    }
  }

  /**
   Over every run: the next time an item is proposed after it was, with the same number, it is proposed
   again if and only if some event in between forgot it and the minimum then is no later than that number.
   */
  lemma ProposedAgain(l: Limits, events: seq<Event>, i: nat, j: nat, item: Item, bNum: nat)
    requires i < j < |events| && Proposes(l, events, i, item, bNum) && Repeatable(events[j]) == Some((item, bNum))
    requires forall k :: i < k < j && Repeatable(events[k]).Some? ==> Repeatable(events[k]).value.0 != item
    ensures Proposes(l, events, j, item, bNum) <==>
              && MinAfter(events[..j]) <= bNum
              && exists f :: i < f < j && Forgets(l, events, f, KeyAt(l, events, i), bNum)
  {
    hide Run, Forgets, KeyAt;
    RecordLasts(l, events, i, j, item, bNum);
    MinIs(l, events[..j]);
  }

  /** An item that was never proposed for deduplication is refused by the minimum only. */
  lemma {:induction false} FirstProposal(l: Limits, events: seq<Event>, item: Item, bNum: nat)
    requires forall k :: 0 <= k < |events| && Repeatable(events[k]).Some? ==> Repeatable(events[k]).value.0 != item
    ensures item !in Run(l, events).proposals.alreadyProposed
    ensures CheckDeduplication(Run(l, events).proposals, item, Some(bNum)).Some? <==> MinAfter(events) <= bNum
    decreases |events|
  {
    hide Step;
    MinIs(l, events);
    if events != [] {
      var front := events[..|events| - 1];
      assert forall k :: 0 <= k < |front| ==> front[k] == events[k];
      FirstProposal(l, front, item, bNum);
      NoRecordStep(l, Run(l, front), events[|events| - 1], item);
    }
  }

  lemma {:induction false} MinSince(events: seq<Event>, i: nat, bNum: nat)
    requires i <= |events| && MinAfter(events[..i]) <= bNum
    requires forall f :: i <= f < |events| ==>
               (events[f].BlockCommitted? ==> events[f].minBNum <= bNum) && (events[f].SnapshotApplied? ==> events[f].minBNum <= bNum)
    ensures MinAfter(events) <= bNum
    decreases |events|
  {
    if i < |events| {
      var front := events[..|events| - 1];
      assert front[..i] == events[..i];
      MinSince(front, i, bNum);
    } else {
      assert events[..i] == events;
    }
  }

  /** Unless the minimum passes its number, one block commit or applied snapshot is enough for a repeat to be proposed again. */
  lemma SnapshotReadmits(l: Limits, events: seq<Event>, i: nat, j: nat, item: Item, bNum: nat)
    requires i < j < |events| && Proposes(l, events, i, item, bNum) && Repeatable(events[j]) == Some((item, bNum))
    requires forall k :: i < k < j && Repeatable(events[k]).Some? ==> Repeatable(events[k]).value.0 != item
    requires forall f :: i < f < j ==>
               (events[f].BlockCommitted? ==> events[f].minBNum <= bNum) && (events[f].SnapshotApplied? ==> events[f].minBNum <= bNum)
    ensures (exists f :: i < f < j && (events[f].BlockCommitted? || events[f].SnapshotApplied?)) ==> Proposes(l, events, j, item, bNum)
  {
    hide Run, KeyAt;
    ProposedAgain(l, events, i, j, item, bNum);
    if f :| i < f < j && (events[f].BlockCommitted? || events[f].SnapshotApplied?) {
      assert Forgets(l, events, f, KeyAt(l, events, i), bNum);
      MinIs(l, events[..i]);
      assert Repeatable(events[i]).Some?;
      assert events[..j][..i + 1] == events[..i + 1] && events[..i + 1][..i] == events[..i];
      MinSince(events[..j], i + 1, bNum);
    }
  }

  /** Event f lists the key for a reset: a pipeline proposal under it, or an applied snapshot that lists it. */
  ghost predicate Lists(l: Limits, events: seq<Event>, f: nat, key: Key)
    requires f < |events|
  {
    ListsNow(l, Run(l, events[..f]), events[f], key)
  }

  predicate ListsNow(l: Limits, n: Node, e: Event, key: Key) {
    match e
    case ProposePipeline(item, bNum) =>
      CheckDeduplication(n.proposals, item, Some(bNum)).Some? && key == NextKey(n.proposals, l.peer, n.run)
    case SnapshotApplied(_, keys, _) => key in keys
    case _ => false
  }

  /** The events that drop the keys listed before them. */
  predicate Unlists(e: Event) {
    Resets(e) || e.BlockCommitted? || e.SnapshotApplied? || e.Restart?
  }

  lemma ListedStep(l: Limits, n: Node, e: Event, key: Key)
    ensures key in Step(l, n, e).pipelineKeys <==> ListsNow(l, n, e, key) || (key in n.pipelineKeys && !Unlists(e))
  {
    hide FirstN, Proposed, Ignoring, Received, WithoutKeys;
  }

  /** In every run a key is listed for a reset exactly if some event listed it and none since dropped the list. */
  lemma {:induction false} ListedForReset(l: Limits, events: seq<Event>, key: Key)
    ensures key in Run(l, events).pipelineKeys <==>
              exists f :: 0 <= f < |events| && Lists(l, events, f, key) && forall g :: f < g < |events| ==> !Unlists(events[g])
    decreases |events|
  {
    hide Step, ListsNow, Unlists;
    if events != [] {
      var n := |events| - 1;
      var front := events[..n];
      ListedForReset(l, front, key);
      ListedStep(l, Run(l, front), events[n], key);
      assert forall f :: 0 <= f < n ==> front[..f] == events[..f];
      if key in Run(l, front).pipelineKeys {
        var f :| 0 <= f < n && Lists(l, front, f, key) && forall g :: f < g < n ==> !Unlists(front[g]);
        assert Lists(l, events, f, key);
      }
      if f :| 0 <= f < n && Lists(l, events, f, key) && forall g :: f < g < |events| ==> !Unlists(events[g]) {
        assert Lists(l, front, f, key) && forall g :: f < g < n ==> !Unlists(front[g]);
      }
      assert Lists(l, events, n, key) <==> ListsNow(l, Run(l, front), events[n], key);
    }
  }

  /**
   A reset spares the proposals of earlier blocks: once a block is committed, a proposal made before it is
   listed no more, unless an applied snapshot lists it again.
   */
  lemma ResetSparesEarlierBlocks(l: Limits, events: seq<Event>, i: nat, c: nat, item: Item, bNum: nat)
    requires LegalRun(l, events) && i < c < |events| && Proposes(l, events, i, item, bNum) && events[c].BlockCommitted?
    requires forall f :: c < f < |events| && events[f].SnapshotApplied? ==> KeyAt(l, events, i) !in events[f].pipelineKeys
    ensures KeyAt(l, events, i) !in Run(l, events).pipelineKeys
  {
    hide Run, LegalRun, CheckDeduplication;
    var key := KeyAt(l, events, i);
    ListedForReset(l, events, key);
    forall f | 0 <= f < |events| && Lists(l, events, f, key) ensures f < c {
      if i < f {
        ListedOnce(l, events, i, f, item, bNum);
      }
    }
    assert Unlists(events[c]);
  }

  lemma ListedOnce(l: Limits, events: seq<Event>, i: nat, f: nat, item: Item, bNum: nat)
    requires LegalRun(l, events) && i < f < |events| && Proposes(l, events, i, item, bNum)
    ensures Lists(l, events, f, KeyAt(l, events, i)) ==> events[f].SnapshotApplied? && KeyAt(l, events, i) in events[f].pipelineKeys
  {
    hide Run, LegalRun, CheckDeduplication;
    RunAccounted(l, events);
    var key := KeyAt(l, events, i);
    assert key in MadeBy(l, events, i);
    assert key !in MadeBy(l, events, f);
  }

  /** A concrete run: after a commit that stays at its block, a shutdown, an item in flight is proposed a second time. */
  lemma ProposedTwice(l: Limits)
    ensures var item := PipelineItem(0);
            var events := [ProposePipeline(item, 5), BlockCommitted(map[], 5), ProposePipeline(item, 5)];
            && Proposes(l, events, 0, item, 5) && Proposes(l, events, 2, item, 5)
            && Run(l, events).proposals.inFlight == map[Key(l.peer, 0, 1) := item, Key(l.peer, 0, 2) := item]
  {
    var item := PipelineItem(0);
    var events := [ProposePipeline(item, 5), BlockCommitted(map[], 5), ProposePipeline(item, 5)];
    var p0, p1 := NO_PROPOSALS, Proposed(NO_PROPOSALS, l.peer, 0, item, Some(5));
    var p2 := Ignoring(p1, 5);
    assert p1.inFlight == map[Key(l.peer, 0, 1) := item] && p2.inFlight == p1.inFlight && p2.lastId == 1;
    IgnoringForgets(p1, 5, item, 5);
    assert events[..0] == [] && events[..1] == [events[0]] && events[..2] == [events[0], events[1]] && events[..3] == events;
    assert events[..1][..0] == [] && events[..2][..1] == events[..1] && events[..3][..2] == events[..2];
    assert Run(l, events[..0]) == NewNode(0, map[]);
    assert Run(l, events[..1]).proposals == p1 && Run(l, events[..1]).run == 0;
    assert Run(l, events[..2]).proposals == p2 && Run(l, events[..2]).run == 0;
  }

  /** The keys re-proposed for a block: those recorded with its number and still in flight. */
  function ReProposed(p: Proposals, bNum: nat): set<Key> {
    set k | k in p.keysBNum && p.keysBNum[k] == bNum && k in p.inFlight
  }

  /** Once the minimum is at a block, nothing is left to re-propose for that block or any later one. */
  lemma NothingReProposed(p: Proposals, minBNum: nat, bNum: nat)
    ensures ReProposed(Ignoring(p, minBNum), bNum) == if bNum < minBNum then ReProposed(p, bNum) else {}
  {
  }
}
