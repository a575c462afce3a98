/** The consensused compute state that builds blocks over the UTXO set, src/compute_raft.rs. */
module ComputeConsensused {
  import opened Wrappers
  import opened Collections
  import opened Ledger
  import opened BlockRules
  import opened LedgerCommits
  import opened TrackedUtxo

  datatype BlockHeader = BlockHeader(previousHash: Option<Hash>, bNum: nat)

  datatype Block = Block(header: BlockHeader, transactions: seq<Hash>)

  class ComputeConsensused {
    /** The transaction each hash stands for: hashing is taken to be injective. */
    ghost const names: Hash -> Transaction
    const utxoSet: TrackedUtxoSet
    var txPool: TxMap
    var txDruidPool: seq<TxMap>
    var initialUtxoTxs: Option<TxMap>
    var currentCirculation: nat
    var specialHandling: Option<SpecialHandling>
    var previousHash: Option<Hash>
    var lastMiningTxHashes: seq<Hash>
    var currentBlockNum: Option<nat>
    var currentBlock: Option<Block>
    var currentBlockTx: TxMap

    ghost function View(): LedgerState
      reads this, utxoSet
    {
      LedgerState(utxoSet.base, txPool, txDruidPool, currentCirculation, specialHandling, currentBlockNum, currentBlockTx)
    }

    ghost predicate Valid()
      reads this, utxoSet
    {
      && utxoSet.Valid()
      && PoolsNamed(names, View())
      && NamedOutputs(names, utxoSet.base)
    }

    constructor (ghost names: Hash -> Transaction, utxo: UtxoSet, circulation: nat, blockNum: Option<nat>, special: Option<SpecialHandling>)
      requires NamedOutputs(names, utxo)
      ensures Valid() && fresh(utxoSet)
      ensures View() == LedgerState(utxo, map[], [], circulation, special, blockNum, map[])
      ensures IsFullIndex(utxoSet.base, utxoSet.pkCache)
    {
      this.names := names;
      utxoSet := new TrackedUtxoSet(utxo);
      txPool, txDruidPool, initialUtxoTxs := map[], [], None;
      currentCirculation, specialHandling, previousHash := circulation, special, None;
      lastMiningTxHashes, currentBlockNum, currentBlock, currentBlockTx := [], blockNum, None, map[];
    }

    /* ---- Selection ---- */

    /** One transaction of the greedy pass: insert its inputs, rolling back at the first clash. */
    method InsertInputs(inputs: seq<OutPoint>, removedAll0: set<OutPoint>) returns (ok: bool, removedAll: set<OutPoint>)
      ensures ok <==> Distinct(inputs) && ToSet(inputs) <= utxoSet.base.Keys - removedAll0
      ensures removedAll == removedAll0 + if ok then ToSet(inputs) else {}
    {
      removedAll := removedAll0;
      var rollBack: seq<OutPoint> := [];
      for j := 0 to |inputs|
        invariant rollBack == inputs[..j]
        invariant Distinct(rollBack) && ToSet(rollBack) <= utxoSet.base.Keys - removedAll0
        invariant removedAll == removedAll0 + ToSet(rollBack)
      {
        var hashIn := inputs[j];
        assert inputs[..j + 1] == inputs[..j] + [hashIn];
        ToSetLast(inputs[..j + 1]);
        if hashIn in utxoSet.base && hashIn !in removedAll {
          removedAll := removedAll + {hashIn};
          rollBack := rollBack + [hashIn];
        } else {
          assert hashIn in ToSet(inputs);
          assert removedAll - ToSet(rollBack) == removedAll0;
          removedAll := RollBack(removedAll, rollBack);
          return false, removedAll;
        }
      }
      assert inputs[..|inputs|] == inputs;
      return true, removedAll;
    }

    static method RollBack(s: set<OutPoint>, rollBack: seq<OutPoint>) returns (r: set<OutPoint>)
      ensures r == s - ToSet(rollBack)
    {
      r := s;
      for i := 0 to |rollBack|
        invariant r == s - ToSet(rollBack[..i])
      {
        ToSetLast(rollBack[..i + 1]);
        assert rollBack[..i + 1][..i] == rollBack[..i];
        r := r - {rollBack[i]};
      }
      assert rollBack[..|rollBack|] == rollBack;
    }

    /** The hashes, ascending, of the transactions that the greedy pass does not accept. */
    method FindInvalidNewTxs(newTxs: TxMap) returns (invalid: seq<Hash>)
      ensures StrictlyAscending(invalid)
      ensures ToSet(invalid) == newTxs.Keys - ValidTxs(newTxs, utxoSet.base).Keys
    {
      hide Accept, SpentBy, Singles, ValidTxs, Ascending, Distinct, ToSet, IsListed;
      invalid := [];
      var removedAll: set<OutPoint> := {};
      var ks := Ascending(newTxs.Keys);
      ghost var accepted: set<nat> := {};
      GreedyStart(newTxs, utxoSet.base);
      for i := 0 to |ks|
        invariant accepted == Accept(utxoSet.base, Singles(newTxs), i)
        invariant removedAll == SpentBy(Singles(newTxs), accepted)
        invariant IsListed(ks, accepted, i, invalid)
      {
        var ok;
        ok, removedAll := InsertInputs(newTxs[ks[i]].inputs, removedAll);
        GreedyStep(newTxs, utxoSet.base, i, ok);
        ListStep(ks, accepted, i, invalid, ok);
        if ok {
          accepted := accepted + {i};
        } else {
          invalid := invalid + [ks[i]];
        }
      }
      ListedInvalid(newTxs, utxoSet.base, invalid);
    }

    /* ---- Block building ---- */

    static method PreviousOutPoints(txs: TxMap) returns (ops: seq<OutPoint>)
      ensures ToSet(ops) == InputsOf(txs)
    {
      hide Ascending;
      ops := [];
      var ks := Ascending(txs.Keys);
      for i := 0 to |ks|
        invariant forall op :: op in ops <==> exists j :: 0 <= j < i && op in txs[ks[j]].inputs
      {
        ops := ops + txs[ks[i]].inputs;
      }
      forall op ensures op in ops <==> op in InputsOf(txs) {
        if op in InputsOf(txs) {
          var h :| h in txs && op in txs[h].inputs;
          assert h in ks;
          var j :| 0 <= j < |ks| && ks[j] == h;
        }
      }
    }

    /** Take a group of valid transactions into the block and its inputs out of the set. */
    method UpdateWithValidTxs(txs: TxMap, transactions: seq<Hash>, blockTx: TxMap) returns (transactions': seq<Hash>, blockTx': TxMap)
      requires utxoSet.Valid()
      modifies utxoSet
      ensures utxoSet.Valid()
      ensures utxoSet.base == old(utxoSet.base) - InputsOf(txs)
      ensures blockTx' == blockTx + txs && transactions' == transactions + Ascending(txs.Keys)
    {
      var ops := PreviousOutPoints(txs);
      for i := 0 to |ops|
        invariant utxoSet.Valid()
        invariant utxoSet.base == old(utxoSet.base) - ToSet(ops[..i])
      {
        assert ops[..i + 1][..i] == ops[..i];
        ToSetLast(ops[..i + 1]);
        var _ := utxoSet.Remove(ops[i]);
      }
      assert ops[..|ops|] == ops;
      transactions' := transactions + Ascending(txs.Keys);
      blockTx' := blockTx + txs;
    }

    method UpdateCommittedDdeTx() returns (transactions: seq<Hash>, blockTx: TxMap)
      requires Valid()
      modifies this`txDruidPool, utxoSet
      ensures utxoSet.Valid() && txDruidPool == []
      ensures var pool := old(txDruidPool);
              var chosen := Accept(old(utxoSet.base), pool, |pool|);
              && utxoSet.base == old(utxoSet.base) - SpentBy(pool, chosen)
              && blockTx == Merge(pool, chosen, |pool|)
              && transactions == DropletHashes(pool, chosen, |pool|)
      ensures ToSet(transactions) == blockTx.Keys
    {
      hide Accept, SpentBy, Merge, Spendable, ValidTxs, InputsOf, Ascending, IsSound, AreTaken;
      var pool := txDruidPool;
      txDruidPool := [];
      transactions, blockTx := [], map[];
      ghost var base := utxoSet.base;
      NoDroplets(base, pool);
      for i := 0 to |pool|
        invariant utxoSet.Valid() && txDruidPool == []
        invariant AreTaken(base, pool, i, utxoSet.base, transactions, blockTx)
        invariant ToSet(transactions) == blockTx.Keys
      {
        ghost var utxo0, transactions0, blockTx0 := utxoSet.base, transactions, blockTx;
        var taken;
        taken, transactions, blockTx := TakeDroplet(pool[i], transactions, blockTx);
        if taken {
          TakenOne(base, pool, i, utxo0, transactions0, blockTx0);
        } else {
          TakenNone(base, pool, i, utxo0, transactions0, blockTx0);
          TakenNothing(utxo0, transactions0, blockTx0);
        }
      }
      TakenMeans(base, pool, utxoSet.base, transactions, blockTx);
    }

    /** A droplet enters the block whole, or is dropped. */
    method TakeDroplet(txs: TxMap, transactions: seq<Hash>, blockTx: TxMap) returns (taken: bool, transactions': seq<Hash>, blockTx': TxMap)
      requires utxoSet.Valid() && ToSet(transactions) == blockTx.Keys
      modifies utxoSet
      ensures utxoSet.Valid()
      ensures taken <==> Spendable(txs, old(utxoSet.base))
      ensures utxoSet.base == old(utxoSet.base) - if taken then InputsOf(txs) else {}
      ensures blockTx' == blockTx + (if taken then txs else map[]) && ToSet(transactions') == blockTx'.Keys
      ensures transactions' == transactions + if taken then Ascending(txs.Keys) else []
    {
      hide Spendable, ValidTxs, InputsOf, Ascending, IsSound, ToSet;
      var invalid := FindInvalidNewTxs(txs);
      NoneInvalid(txs, utxoSet.base, invalid);
      taken, transactions', blockTx' := invalid == [], transactions, blockTx;
      if taken {
        transactions', blockTx' := UpdateWithValidTxs(txs, transactions, blockTx);
        KeysListed(transactions, txs, blockTx);
      } else {
        assert blockTx + map[] == blockTx && utxoSet.base - {} == utxoSet.base;
      }
    }

    method UpdateCurrentBlockTx(transactions: seq<Hash>, blockTx: TxMap) returns (transactions': seq<Hash>, blockTx': TxMap)
      requires utxoSet.Valid() && ToSet(transactions) == blockTx.Keys
      modifies this`txPool, utxoSet
      ensures utxoSet.Valid()
      ensures var valid := ValidTxs(old(txPool), old(utxoSet.base));
              var taken := FirstN(valid, BLOCK_SIZE_IN_TX);
              && utxoSet.base == old(utxoSet.base) - InputsOf(taken)
              && txPool == valid - taken.Keys
              && blockTx' == blockTx + taken
              && transactions' == transactions + Ascending(taken.Keys)
      ensures ToSet(transactions') == blockTx'.Keys
    {
      hide ValidTxs, FirstN, InputsOf, Ascending, IsSound, ToSet;
      ValidTxsPart(txPool, utxoSet.base);
      var invalid := FindInvalidNewTxs(txPool);
      txPool := WithoutInvalid(txPool, invalid);
      assert txPool == ValidTxs(old(txPool), utxoSet.base);
      var taken;
      taken, txPool := TakeFirstN(BLOCK_SIZE_IN_TX, txPool);
      transactions', blockTx' := UpdateWithValidTxs(taken, transactions, blockTx);
      KeysListed(transactions, taken, blockTx);
    }

    static method WithoutInvalid(pool: TxMap, invalid: seq<Hash>) returns (r: TxMap)
      ensures r == pool - ToSet(invalid)
    {
      r := pool;
      for i := 0 to |invalid|
        invariant r == pool - ToSet(invalid[..i])
      {
        assert invalid[..i + 1][..i] == invalid[..i];
        ToSetLast(invalid[..i + 1]);
        r := r - {invalid[i]};
      }
      assert invalid[..|invalid|] == invalid;
    }

    method SetCommittedMiningBlock(block: Block, blockTx: TxMap)
      requires Valid() && Named(names, blockTx)
      modifies this`currentBlock, this`currentBlockTx, utxoSet
      ensures Valid()
      ensures View() == old(View()).(base := old(utxoSet.base) + OutputsOf(blockTx), blockTx := blockTx)
      ensures currentBlock == Some(block)
    {
      hide OutputsOf, Named, NamedOutputs, IsSound, IsExtended, IsFullIndex, Agree;
      NamedExtend(names, utxoSet.base, blockTx);
      utxoSet.Extend(blockTx);
      currentBlock, currentBlockTx := Some(block), blockTx;
    }

    method GenerateFirstBlock()
      requires Valid() && initialUtxoTxs.Some? && Named(names, initialUtxoTxs.value)
      modifies this`currentBlock, this`currentBlockTx, this`initialUtxoTxs, utxoSet
      ensures Valid()
      ensures var txs := old(initialUtxoTxs.value);
              View() == old(View()).(base := old(utxoSet.base) + OutputsOf(txs), blockTx := txs)
    {
      var txs := initialUtxoTxs.value;
      initialUtxoTxs := None;
      SetCommittedMiningBlock(Block.Block(BlockHeader(None, 0), Ascending(txs.Keys)), txs);
    }

    /** The droplets first, then the pool. */
    method SelectBlockTx() returns (transactions: seq<Hash>, blockTx: TxMap)
      requires Valid()
      modifies this`txPool, this`txDruidPool, utxoSet
      ensures utxoSet.Valid() && txDruidPool == []
      ensures var s := old(View());
              && txPool == Generate(s).txPool && blockTx == Generate(s).blockTx
              && transactions == BlockHashes(s) && ToSet(transactions) == blockTx.Keys
              && utxoSet.base + OutputsOf(blockTx) == Generate(s).base
              && forall op <- utxoSet.base :: op in s.base && utxoSet.base[op] == s.base[op]
    {
      hide OutputsOf, Named, NamedOutputs, IsSound, Accept, SpentBy, Merge, FirstN, ValidTxs, InputsOf, Spendable, Ascending, DropletHashes, ToSet;
      transactions, blockTx := UpdateCommittedDdeTx();
      transactions, blockTx := UpdateCurrentBlockTx(transactions, blockTx);
    }

    method GenerateBlock()
      requires Valid() && previousHash.Some? && currentBlockNum.Some?
      modifies this`txPool, this`txDruidPool, this`previousHash, this`currentBlock, this`currentBlockTx, utxoSet
      ensures Valid()
      ensures View() == Generate(old(View()))
      ensures currentBlock.Some? && ToSet(currentBlock.value.transactions) == currentBlockTx.Keys
      ensures currentBlock.value.transactions == BlockHashes(old(View()))
      ensures currentBlock.value.header == BlockHeader(old(previousHash), old(currentBlockNum.value)) && previousHash == None
    {
      hide OutputsOf, Named, NamedOutputs, IsSound, Accept, SpentBy, Merge, FirstN, ValidTxs, InputsOf, Spendable, Ascending, BlockHashes, ToSet;
      ghost var s := View();
      GeneratedBlock(names, s);
      LeftoverNamed(names, s);
      var transactions, blockTx := SelectBlockTx();
      NamedPart(names, s.base, utxoSet.base);
      var header := BlockHeader(previousHash, currentBlockNum.value);
      previousHash := None;
      SetCommittedMiningBlock(Block.Block(header, transactions), blockTx);
    }

    /* ---- Stored blocks ---- */

    static method TotalCoinbaseTokens(txs: TxMap) returns (total: nat)
      ensures total == TokenTotal(txs)
    {
      total := 0;
      var todo := txs.Keys;
      assert txs - todo == map[] && Totals(txs - todo) == map[];
      while todo != {}
        invariant todo <= txs.Keys
        invariant total == TokenTotal(txs - todo)
      {
        var h :| h in todo;
        var amount := OutputTotalOf(txs[h].outputs);
        TokenTotalRemove(txs - (todo - {h}), h);
        assert txs - (todo - {h}) - {h} == txs - todo;
        total := total + amount;
        todo := todo - {h};
      }
      assert txs - {} == txs;
    }

    static method OutputTotalOf(outputs: seq<TxOut>) returns (total: nat)
      ensures total == OutputTotal(outputs)
    {
      total := 0;
      for i := 0 to |outputs|
        invariant total == OutputTotal(outputs[..i])
      {
        assert outputs[..i + 1][..i] == outputs[..i];
        total := total + outputs[i].amount;
      }
      assert outputs[..|outputs|] == outputs;
    }

    method ApplyFirstBlock(txs: TxMap)
      requires Valid() && Named(names, txs)
      modifies this`currentCirculation, this`initialUtxoTxs, this`currentBlock, this`currentBlockTx, this`currentBlockNum
      ensures Valid() && initialUtxoTxs == Some(txs)
      ensures View() == old(View()).(circulation := TokenTotal(txs), blockNum := Some(0), blockTx := map[])
    {
      currentCirculation := TotalCoinbaseTokens(txs);
      initialUtxoTxs := Some(txs);
      PipelineBlockStored(0);
    }

    method ApplyStoredBlock(info: BlockStoredInfo)
      requires Valid() && Named(names, info.miningTxs)
      modifies this, utxoSet
      ensures Valid()
      ensures IsShutdown(old(View()), info) ==> View() == old(View()).(special := Some(Shutdown))
      ensures !IsShutdown(old(View()), info) ==>
                && View() == ApplyStored(old(View()), info)
                && previousHash == Some(info.blockHash)
                && lastMiningTxHashes == Ascending(info.miningTxs.Keys)
    {
      hide OutputsOf, Named, NamedOutputs, IsSound, IsExtended, IsFullIndex, Agree, TokenTotal, Ascending;
      if specialHandling.None? && info.shutdown {
        specialHandling := Some(Shutdown);
      } else {
        specialHandling := None;
        previousHash := Some(info.blockHash);
        MinedTxs(info.miningTxs);
        PipelineBlockStored(info.blockNum + 1);
      }
    }

    method MinedTxs(txs: TxMap)
      requires Valid() && Named(names, txs)
      modifies this`currentCirculation, this`lastMiningTxHashes, utxoSet
      ensures Valid() && lastMiningTxHashes == Ascending(txs.Keys)
      ensures View() == old(View()).(circulation := old(currentCirculation) + TokenTotal(txs), base := old(utxoSet.base) + OutputsOf(txs))
    {
      hide OutputsOf, Named, NamedOutputs, IsSound, IsExtended, IsFullIndex, Agree, TokenTotal, Ascending;
      var mined := TotalCoinbaseTokens(txs);
      currentCirculation := currentCirculation + mined;
      NamedExtend(names, utxoSet.base, txs);
      utxoSet.Extend(txs);
      lastMiningTxHashes := Ascending(txs.Keys);
    }

    /** The pipeline forgets a block that was not mined and moves to the next number. */
    method PipelineBlockStored(blockNum: nat)
      modifies this`currentBlock, this`currentBlockTx, this`currentBlockNum
      ensures currentBlock == None && currentBlockTx == map[] && currentBlockNum == Some(blockNum)
    {
      currentBlock, currentBlockTx := None, map[];
      currentBlockNum := Some(blockNum);
    }

    /* ---- Commits ---- */

    method FirstBlockCommitted(txs: TxMap)
      requires Valid() && Named(names, txs)
      modifies this, utxoSet
      ensures Valid() && View() == Commit(old(View()), FirstBlockReady(txs))
    {
      if currentBlockNum.Some? {
        return;
      }
      ApplyFirstBlock(txs);
      GenerateFirstBlock();
    }

    method TransactionsCommitted(txs: TxMap)
      requires Valid() && Named(names, txs)
      modifies this`txPool
      ensures Valid() && View() == Commit(old(View()), Event.TransactionsCommitted(txs))
    {
      txPool := txPool + txs;
    }

    method DruidTransactionsCommitted(droplets: seq<TxMap>)
      requires Valid() && forall g <- droplets :: Named(names, g)
      modifies this`txDruidPool
      ensures Valid() && View() == Commit(old(View()), DruidCommitted(droplets))
    {
      txDruidPool := txDruidPool + droplets;
    }

    /** A stored block won its vote: apply it and, unless shutting down, generate the next one. */
    method BlockCommitted(info: BlockStoredInfo, modulo: Option<nat>)
      requires Valid() && Named(names, info.miningTxs)
      requires modulo.Some? ==> modulo.value != 0
      modifies this, utxoSet
      ensures Valid() && View() == Commit(old(View()), BlockReady(info))
      ensures old(currentBlockNum) == Some(info.blockNum) && CheckDue(info.blockNum, modulo) ==>
                IsFullIndex(utxoSet.base, utxoSet.pkCache)
    {
      hide Generate, OutputsOf, NamedOutputs, IsSound, IsFullIndex, TokenTotal, BlockHashes, Ascending, ToSet, Named;
      if currentBlockNum != Some(info.blockNum) {
        return;
      }
      ApplyStoredBlock(info);
      if specialHandling != Some(Shutdown) {
        GenerateBlock();
      }
      utxoSet.EventProcessedReAlign(info.blockNum, modulo);
    }
  }

  /** The ledger and the block after the first n droplets. */
  ghost predicate AreTaken(base: UtxoSet, pool: seq<TxMap>, n: nat, utxo: UtxoSet, transactions: seq<Hash>, blockTx: TxMap)
    requires n <= |pool|
  {
    var chosen := Accept(base, pool, n);
    && utxo == base - SpentBy(pool, chosen)
    && blockTx == Merge(pool, chosen, n)
    && transactions == DropletHashes(pool, chosen, n)
  }

  lemma MinusTwice(utxo: UtxoSet, s: set<OutPoint>, t: set<OutPoint>)
    ensures utxo - s - t == utxo - (s + t)
  {
  }

  lemma AcceptedNext(base: UtxoSet, pool: seq<TxMap>, n: nat)
    requires n < |pool| && Spendable(pool[n], base - SpentBy(pool, Accept(base, pool, n)))
    ensures var before, a := Accept(base, pool, n), Accept(base, pool, n + 1);
            && Merge(pool, a, n + 1) == Merge(pool, before, n) + pool[n]
            && SpentBy(pool, a) == SpentBy(pool, before) + InputsOf(pool[n])
            && DropletHashes(pool, a, n + 1) == DropletHashes(pool, before, n) + Ascending(pool[n].Keys)
  {
    hide Accept, SpentBy, Merge, DropletHashes, Spendable, InputsOf, Ascending;
    AcceptStep(base, pool, n + 1);
    DropletHashesStep(base, pool, n + 1);
  }

  lemma TakenOne(base: UtxoSet, pool: seq<TxMap>, n: nat, utxo: UtxoSet, transactions: seq<Hash>, blockTx: TxMap)
    requires n < |pool| && AreTaken(base, pool, n, utxo, transactions, blockTx) && Spendable(pool[n], utxo)
    ensures AreTaken(base, pool, n + 1, utxo - InputsOf(pool[n]), transactions + Ascending(pool[n].Keys), blockTx + pool[n])
  {
    hide Accept, SpentBy, Merge, DropletHashes, Spendable, InputsOf, Ascending;
    AcceptedNext(base, pool, n);
    MinusTwice(base, SpentBy(pool, Accept(base, pool, n)), InputsOf(pool[n]));
  }

  lemma TakenNone(base: UtxoSet, pool: seq<TxMap>, n: nat, utxo: UtxoSet, transactions: seq<Hash>, blockTx: TxMap)
    requires n < |pool| && AreTaken(base, pool, n, utxo, transactions, blockTx) && !Spendable(pool[n], utxo)
    ensures AreTaken(base, pool, n + 1, utxo, transactions, blockTx)
  {
    hide Accept, SpentBy, Merge, DropletHashes, Spendable, InputsOf, Ascending;
    AcceptStep(base, pool, n + 1);
    DropletHashesStep(base, pool, n + 1);
    TakenNothing(utxo, transactions, blockTx);
    assert SpentBy(pool, Accept(base, pool, n)) + {} == SpentBy(pool, Accept(base, pool, n));
  }

  lemma TakenNothing(utxo: UtxoSet, transactions: seq<Hash>, blockTx: TxMap)
    ensures utxo - {} == utxo && transactions + [] == transactions && blockTx + map[] == blockTx
  {
  }

  lemma TakenMeans(base: UtxoSet, pool: seq<TxMap>, utxo: UtxoSet, transactions: seq<Hash>, blockTx: TxMap)
    requires AreTaken(base, pool, |pool|, utxo, transactions, blockTx)
    ensures var chosen := Accept(base, pool, |pool|);
            utxo == base - SpentBy(pool, chosen) && blockTx == Merge(pool, chosen, |pool|) && transactions == DropletHashes(pool, chosen, |pool|)
  {
  }

  lemma NoDroplets(base: UtxoSet, pool: seq<TxMap>)
    ensures Accept(base, pool, 0) == {} && Merge(pool, {}, 0) == map[] && DropletHashes(pool, {}, 0) == []
    ensures base - SpentBy(pool, {}) == base
    ensures AreTaken(base, pool, 0, base, [], map[])
  {
    assert SpentBy(pool, {}) == {};
  }

  lemma KeysListed(transactions: seq<Hash>, txs: TxMap, blockTx: TxMap)
    requires ToSet(transactions) == blockTx.Keys
    ensures ToSet(transactions + Ascending(txs.Keys)) == (blockTx + txs).Keys
  {
    hide Ascending;
  }

  method TakeFirstN(n: nat, from: TxMap) returns (result: TxMap, rest: TxMap)
    ensures result == FirstN(from, n) && rest == from - result.Keys
  {
    hide Ascending, FirstN;
    var ks := Ascending(from.Keys);
    result, rest := from, map[];
    if n < |ks| {
      var maxKey := ks[n];
      rest := map h | h in from && maxKey <= h :: from[h];
      result := map h | h in from && h < maxKey :: from[h];
    }
    forall h <- from ensures h in result <==> h in FirstN(from, n) {
      TakenKey(from, n, h);
    }
    FirstNPart(from, n);
    assert result.Keys == FirstN(from, n).Keys;
  }

  lemma TakenKey(from: TxMap, n: nat, h: Hash)
    requires h in from
    ensures var ks := Ascending(from.Keys);
            h in FirstN(from, n) <==> n >= |ks| || h < ks[n]
  {
    hide Ascending, FirstN;
    var ks := Ascending(from.Keys);
    FirstNMember(from, n, h);
    assert h in ks;
    if n < |ks| {
      KeysBelow(ks, n, h);
    } else {
      assert ks[..|ks|] == ks;
    }
  }

  lemma KeysBelow(ks: seq<nat>, n: nat, h: nat)
    requires StrictlyAscending(ks) && n < |ks| && h in ks
    ensures h < ks[n] <==> h in ks[..n]
  {
    var i :| 0 <= i < |ks| && ks[i] == h;
    if i < n {
      assert ks[..n][i] == h;
    }
  }

  /** `invalid` lists, ascending, the keys among the first n whose index was not accepted. */
  ghost predicate IsListed(ks: seq<Hash>, accepted: set<nat>, n: nat, invalid: seq<Hash>)
    requires n <= |ks|
  {
    && StrictlyAscending(invalid)
    && (forall h :: h in invalid ==> h in ks[..n])
    && (forall j: nat :: j < n ==> (ks[j] in invalid <==> j !in accepted))
  }

  lemma GreedyStart(txs: TxMap, utxo: UtxoSet)
    ensures Accept(utxo, Singles(txs), 0) == {} && SpentBy(Singles(txs), {}) == {}
    ensures IsListed(Ascending(txs.Keys), {}, 0, [])
  {
  }

  lemma GreedyStep(txs: TxMap, utxo: UtxoSet, i: nat, ok: bool)
    requires i < |txs|
    requires var inputs := txs[Ascending(txs.Keys)[i]].inputs;
             ok <==> Distinct(inputs) && ToSet(inputs) <= utxo.Keys - SpentBy(Singles(txs), Accept(utxo, Singles(txs), i))
    ensures var before := Accept(utxo, Singles(txs), i);
            var after := if ok then before + {i} else before;
            && Accept(utxo, Singles(txs), i + 1) == after
            && SpentBy(Singles(txs), after)
               == SpentBy(Singles(txs), before) + (if ok then ToSet(txs[Ascending(txs.Keys)[i]].inputs) else {})
            && forall j <- before :: j < i
  {
    hide Ascending;
    var ks, groups := Ascending(txs.Keys), Singles(txs);
    var before, inputs := Accept(utxo, groups, i), txs[ks[i]].inputs;
    assert groups[i] == map[ks[i] := txs[ks[i]]];
    InputsOfSingle(ks[i], txs[ks[i]]);
    assert InputsOf(groups[i]) == ToSet(inputs);
    SpentByStep(groups, before, i);
    AcceptRange(utxo, groups, i);
  }

  lemma ListStep(ks: seq<Hash>, accepted: set<nat>, n: nat, invalid: seq<Hash>, ok: bool)
    requires n < |ks| && StrictlyAscending(ks) && IsListed(ks, accepted, n, invalid)
    requires forall j <- accepted :: j < n
    ensures IsListed(ks, if ok then accepted + {n} else accepted, n + 1, if ok then invalid else invalid + [ks[n]])
  {
    var accepted', invalid' := if ok then accepted + {n} else accepted, if ok then invalid else invalid + [ks[n]];
    assert ks[..n + 1] == ks[..n] + [ks[n]];
    forall h | h in ks[..n] ensures h < ks[n] {
      var j :| 0 <= j < n && ks[..n][j] == h;
    }
    assert forall h :: h in invalid' <==> h in invalid || (!ok && h == ks[n]);
    assert ks[n] !in invalid;
    forall i, j | 0 <= i < j < |invalid'| ensures invalid'[i] < invalid'[j] {
      assert invalid'[i] == invalid[i];
      if j < |invalid| {
        assert invalid'[j] == invalid[j];
      } else {
        assert invalid[i] in ks[..n];
      }
    }
    forall j: nat | j < n + 1 ensures ks[j] in invalid' <==> j !in accepted' {
      if j < n {
        assert ks[j] < ks[n];
      }
    }
  }

  lemma ListedInvalid(txs: TxMap, utxo: UtxoSet, invalid: seq<Hash>)
    requires IsListed(Ascending(txs.Keys), Accept(utxo, Singles(txs), |txs|), |txs|, invalid)
    ensures StrictlyAscending(invalid)
    ensures ToSet(invalid) == txs.Keys - ValidTxs(txs, utxo).Keys
  {
    hide Accept, Singles, Ascending;
    var ks, all := Ascending(txs.Keys), Accept(utxo, Singles(txs), |txs|);
    assert ks[..|ks|] == ks;
    forall h | h in txs ensures h in invalid <==> h !in ValidTxs(txs, utxo) {
      assert h in ks;
      var i: nat :| i < |ks| && ks[i] == h;
      OnlyIndex(ks, i);
      ValidTxsMember(txs, utxo, i);
    }
    forall h | h in invalid ensures h in txs {
      assert h in ks[..|ks|];
    }
  }

  /** A droplet has no invalid transaction exactly when it can be spent as a whole. */
  lemma NoneInvalid(txs: TxMap, utxo: UtxoSet, invalid: seq<Hash>)
    requires ToSet(invalid) == txs.Keys - ValidTxs(txs, utxo).Keys
    ensures invalid == [] <==> Spendable(txs, utxo)
  {
    hide Spendable, ValidTxs;
    ValidTxsPart(txs, utxo);
    if invalid == [] {
      forall h | h in txs ensures h in ValidTxs(txs, utxo) {
        assert h !in ToSet(invalid);
      }
      assert ValidTxs(txs, utxo).Keys == txs.Keys;
      assert ValidTxs(txs, utxo) == txs;
      ValidTxsSpendable(txs, utxo);
    } else {
      assert invalid[0] in ToSet(invalid);
      if Spendable(txs, utxo) {
        SpendableAllValid(txs, utxo);
      }
    }
  }
}
