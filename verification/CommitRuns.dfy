/**
 What becomes of committed transactions and blocks over every run of commits (src/compute_raft.rs): no
 transaction is lost but by the greedy pass, and blocks are applied in order, each once.
 */
module CommitRuns {
  import opened Wrappers
  import opened Collections
  import opened Ledger
  import opened BlockRules
  import opened LedgerCommits

  ghost function LedgerAt(s: LedgerState, events: seq<Event>, n: nat): LedgerState
    requires n <= |events|
  {
    if n == 0 then s else Commit(LedgerAt(s, events, n - 1), events[n - 1])
  }

  /** Whether the event is the stored block that is due, and is not held back by a shutdown. */
  predicate Applies(s: LedgerState, e: Event) {
    e.BlockReady? && s.blockNum == Some(e.info.blockNum) && (s.special.Some? || !e.info.shutdown)
  }

  /* ---- One commit ---- */

  /** A stored block that is due: its mining outputs enter, then the next block takes out what it spends and adds its outputs. */
  lemma AppliedBlock(names: Hash -> Transaction, s: LedgerState, e: Event)
    requires PoolsNamed(names, s) && Applies(s, e)
    ensures var s', mined := Commit(s, e), s.base + OutputsOf(e.info.miningTxs);
            && s'.blockNum == Some(e.info.blockNum + 1) && s'.special == None
            && s'.circulation == s.circulation + TokenTotal(e.info.miningTxs)
            && InputsOf(s'.blockTx) <= mined.Keys
            && s'.base == (mined - InputsOf(s'.blockTx)) + OutputsOf(s'.blockTx)
  {
    hide Generate, Spendable, OutputsOf, InputsOf, TokenTotal, Named;
    GeneratedBlock(names, ApplyStored(s, e.info));
    SpendableMeans(Commit(s, e).blockTx, ApplyStored(s, e.info).base);
    GenerateLeaves(ApplyStored(s, e.info));
  }

  lemma SpendableMeans(txs: TxMap, utxo: UtxoSet)
    requires Spendable(txs, utxo)
    ensures InputsOf(txs) <= utxo.Keys
  {
  }

  lemma GenerateLeaves(s: LedgerState)
    ensures var s' := Generate(s);
            s'.blockNum == s.blockNum && s'.special == s.special && s'.circulation == s.circulation && s'.druidPool == []
  {
  }

  /** Any other stored block changes nothing, but that a due shutdown block marks the shutdown. */
  lemma OtherBlock(s: LedgerState, e: Event)
    requires e.BlockReady? && !Applies(s, e)
    ensures Commit(s, e) == if s.blockNum == Some(e.info.blockNum) then s.(special := Some(Shutdown)) else s
  {
  }

  /** The first block is applied to a ledger without one, and to no other. */
  lemma FirstBlock(s: LedgerState, e: Event)
    requires e.FirstBlockReady?
    ensures var s' := Commit(s, e);
            && (s.blockNum.Some? ==> s' == s)
            && (s.blockNum.None? ==>
                  && s'.blockNum == Some(0) && s'.blockTx == e.txs && s'.circulation == TokenTotal(e.txs)
                  && s'.base == s.base + OutputsOf(e.txs)
                  && s'.txPool == s.txPool && s'.druidPool == s.druidPool)
  {
    hide OutputsOf, TokenTotal;
  }

  /* ---- What becomes of a pooled transaction ---- */

  /** The transaction is in the block that event k makes. */
  ghost predicate EntersAt(s: LedgerState, events: seq<Event>, k: nat, h: Hash)
    requires k < |events|
  {
    Applies(LedgerAt(s, events, k), events[k]) && h in LedgerAt(s, events, k + 1).blockTx
  }

  /**
   The commit makes a block and drops the pooled transaction: an input of it is missing, or repeated, or is
   taken by a transaction with a smaller hash that is kept.
   */
  ghost predicate Rejects(s: LedgerState, e: Event, h: Hash) {
    && Applies(s, e) && h in s.txPool
    && var utxo := AfterDroplets(ApplyStored(s, e.info));
       || !Distinct(s.txPool[h].inputs)
       || (exists op <- s.txPool[h].inputs :: op !in utxo)
       || exists k <- ValidTxs(s.txPool, utxo).Keys :: k < h && k in s.txPool && SharesInput(s.txPool[h], s.txPool[k])
  }

  ghost predicate RejectedAt(s: LedgerState, events: seq<Event>, k: nat, h: Hash)
    requires k < |events|
  {
    Rejects(LedgerAt(s, events, k), events[k], h)
  }

  lemma NotValid(s: LedgerState, e: Event, h: Hash)
    requires Applies(s, e) && h in s.txPool && h !in ValidTxs(s.txPool, AfterDroplets(ApplyStored(s, e.info)))
    ensures Rejects(s, e, h)
  {
    hide Generate, ValidTxs, OutputsOf, TokenTotal, Distinct, SharesInput, AfterDroplets;
    var utxo := AfterDroplets(ApplyStored(s, e.info));
    ValidTxsExactly(s.txPool, utxo, h);
    ValidTxsPart(s.txPool, utxo);
  }

  lemma ValidKept(s: LedgerState, h: Hash)
    requires h in ValidTxs(s.txPool, AfterDroplets(s))
    ensures h in Generate(s).txPool || h in Generate(s).blockTx
  {
    hide Generate, ValidTxs, AfterDroplets, Merge, Accept;
    GenerateKeepsAccepted(s);
    var taken: TxMap :| IsShare(ValidTxs(s.txPool, AfterDroplets(s)), taken, Generate(s).txPool)
                        && Generate(s).blockTx == Merge(s.druidPool, Accept(s.base, s.druidPool, |s.druidPool|), |s.druidPool|) + taken;
  }

  /** One commit leaves a pooled transaction in the pool, puts it into the block it makes, or rejects it. */
  lemma PooledFate(s: LedgerState, e: Event, h: Hash)
    requires h in s.txPool
    ensures h in Commit(s, e).txPool || (Applies(s, e) && h in Commit(s, e).blockTx) || Rejects(s, e, h)
  {
    hide Generate, ValidTxs, OutputsOf, TokenTotal, AfterDroplets, Rejects;
    if Applies(s, e) {
      var mid := ApplyStored(s, e.info);
      if h in ValidTxs(s.txPool, AfterDroplets(mid)) {
        ValidKept(mid, h);
      } else {
        NotValid(s, e, h);
      }
    } else if e.BlockReady? {
      OtherBlock(s, e);
    }
  }

  /**
   Over every run, a committed transaction is in the pool, or entered a block since, or was dropped at a
   block that it could not enter.
   */
  lemma {:induction false} CommittedFate(s: LedgerState, events: seq<Event>, i: nat, n: nat, h: Hash)
    requires i < n <= |events| && events[i].TransactionsCommitted? && h in events[i].txs
    ensures || h in LedgerAt(s, events, n).txPool
            || exists k :: i < k < n && (EntersAt(s, events, k, h) || RejectedAt(s, events, k, h))
    decreases n
  {
    hide Commit, Rejects, Applies;
    if n == i + 1 {
      PoolTakes(LedgerAt(s, events, i), events[i]);
      assert LedgerAt(s, events, n) == Commit(LedgerAt(s, events, i), events[i]);
    } else {
      CommittedFate(s, events, i, n - 1, h);
      if h in LedgerAt(s, events, n - 1).txPool {
        PooledFate(LedgerAt(s, events, n - 1), events[n - 1], h);
        assert EntersAt(s, events, n - 1, h) <==> Applies(LedgerAt(s, events, n - 1), events[n - 1]) && h in LedgerAt(s, events, n).blockTx;
        assert RejectedAt(s, events, n - 1, h) <==> Rejects(LedgerAt(s, events, n - 1), events[n - 1], h);
      }
    }
  }

  lemma PoolTakes(s: LedgerState, e: Event)
    requires e.TransactionsCommitted?
    ensures Commit(s, e).txPool.Keys == s.txPool.Keys + e.txs.Keys
    ensures forall h <- e.txs :: Commit(s, e).txPool[h] == e.txs[h]
  {
    hide Generate;
  }

  /** The pool holds committed transactions only. */
  lemma {:induction false} PoolCommitted(s: LedgerState, events: seq<Event>, n: nat, h: Hash)
    requires n <= |events| && h in LedgerAt(s, events, n).txPool
    ensures h in s.txPool || exists i :: 0 <= i < n && events[i].TransactionsCommitted? && h in events[i].txs
    decreases n
  {
    hide Generate;
    if n > 0 {
      var before := LedgerAt(s, events, n - 1);
      if h in before.txPool {
        PoolCommitted(s, events, n - 1, h);
      } else {
        NewlyPooled(before, events[n - 1], h);
      }
    }
  }

  lemma NewlyPooled(s: LedgerState, e: Event, h: Hash)
    requires h in Commit(s, e).txPool && h !in s.txPool
    ensures e.TransactionsCommitted? && h in e.txs
  {
    hide Generate, OutputsOf, TokenTotal;
    if e.BlockReady? {
      PoolShrinks(ApplyStored(s, e.info));
    }
  }

  lemma PoolShrinks(s: LedgerState)
    ensures Generate(s).txPool.Keys <= s.txPool.Keys
  {
    hide Generate, ValidTxs, AfterDroplets, Merge, Accept, IsShare;
    GenerateKeepsAccepted(s);
  }

  /** The droplets committed since the last block was made. */
  ghost function DropletsSince(s: LedgerState, events: seq<Event>, n: nat): seq<TxMap>
    requires n <= |events|
  {
    if n == 0 then s.druidPool
    else if Applies(LedgerAt(s, events, n - 1), events[n - 1]) then []
    else DropletsSince(s, events, n - 1) + if events[n - 1].DruidCommitted? then events[n - 1].droplets else []
  }

  /** The droplet pool is exactly that, in order: every droplet is dealt with at the next block. */
  lemma {:induction false} DropletsPooled(s: LedgerState, events: seq<Event>, n: nat)
    requires n <= |events|
    ensures LedgerAt(s, events, n).druidPool == DropletsSince(s, events, n)
    decreases n
  {
    hide Commit, Applies;
    if n > 0 {
      DropletsPooled(s, events, n - 1);
      DropletsStep(LedgerAt(s, events, n - 1), events[n - 1]);
    }
  }

  lemma DropletsStep(s: LedgerState, e: Event)
    ensures Commit(s, e).druidPool
            == if Applies(s, e) then [] else s.druidPool + if e.DruidCommitted? then e.droplets else []
  {
    hide Generate, OutputsOf, TokenTotal;
    if e.BlockReady? {
      GenerateLeaves(ApplyStored(s, e.info));
    }
  }

  /* ---- Blocks in order ---- */

  /** The numbers of the stored blocks applied so far, in order. */
  ghost function AppliedNumbers(s: LedgerState, events: seq<Event>, n: nat): seq<nat>
    requires n <= |events|
  {
    if n == 0 then []
    else
      AppliedNumbers(s, events, n - 1) +
      if Applies(LedgerAt(s, events, n - 1), events[n - 1]) then [events[n - 1].info.blockNum] else []
  }

  /** From a ledger without blocks, the stored blocks applied are 0, 1, 2, ..., and the next one is due. */
  lemma {:induction false} BlocksInOrder(s: LedgerState, events: seq<Event>, n: nat)
    requires s.blockNum == None && n <= |events|
    ensures var applied := AppliedNumbers(s, events, n);
            && (forall i :: 0 <= i < |applied| ==> applied[i] == i)
            && match LedgerAt(s, events, n).blockNum
               case None => applied == []
               case Some(due) => due == |applied|
    decreases n
  {
    hide Commit;
    if n > 0 {
      BlocksInOrder(s, events, n - 1);
      NumberStep(LedgerAt(s, events, n - 1), events[n - 1]);
    }
  }

  lemma NumberStep(s: LedgerState, e: Event)
    ensures Commit(s, e).blockNum
            == if Applies(s, e) then Some(e.info.blockNum + 1)
               else if e.FirstBlockReady? && s.blockNum.None? then Some(0)
               else s.blockNum
  {
    hide Generate, OutputsOf, TokenTotal;
    if e.BlockReady? {
      GenerateLeaves(ApplyStored(s, e.info));
    }
  }
}
