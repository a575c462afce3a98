/**
 Supply over every run of commits. All that is asked of a commit is what can be told when it is made:
 that transactions are named by their hashes and pay out what their inputs hold, and that coinbases are new.
 That no block transaction overwrites tokens is derived: one that moves tokens enters a block only once.
 */
module SupplyRuns {
  import opened Wrappers
  import opened Collections
  import opened Ledger
  import opened BlockRules
  import opened LedgerCommits

  /* ---- Balance, as a property of the named transactions ---- */

  /** The tokens an outpoint stands for. */
  ghost function AmountNamed(names: Hash -> Transaction, op: OutPoint): nat {
    if op.n < |names(op.tHash).outputs| then names(op.tHash).outputs[op.n].amount else 0
  }

  ghost function NamedTotal(names: Hash -> Transaction, inputs: seq<OutPoint>): nat {
    if inputs == [] then 0
    else NamedTotal(names, inputs[..|inputs| - 1]) + AmountNamed(names, inputs[|inputs| - 1])
  }

  /** A transaction pays out what the outputs it names as inputs hold. */
  ghost predicate PaysOut(names: Hash -> Transaction, tx: Transaction) {
    NamedTotal(names, tx.inputs) == OutputTotal(tx.outputs)
  }

  ghost predicate AllPayOut(names: Hash -> Transaction, txs: TxMap) {
    forall h <- txs.Keys :: PaysOut(names, txs[h])
  }

  lemma {:induction false} NamedTotalIs(names: Hash -> Transaction, inputs: seq<OutPoint>, utxo: UtxoSet)
    requires NamedOutputs(names, utxo) && forall op <- inputs :: op in utxo
    ensures InputTotal(inputs, utxo) == NamedTotal(names, inputs)
    decreases |inputs|
  {
    if inputs != [] {
      NamedTotalIs(names, inputs[..|inputs| - 1], utxo);
    }
  }

  lemma {:induction false} SomeInputPays(names: Hash -> Transaction, inputs: seq<OutPoint>) returns (op: OutPoint)
    requires 0 < NamedTotal(names, inputs)
    ensures op in inputs && 0 < AmountNamed(names, op)
    decreases |inputs|
  {
    op := inputs[|inputs| - 1];
    if AmountNamed(names, op) == 0 {
      op := SomeInputPays(names, inputs[..|inputs| - 1]);
    }
  }

  lemma {:induction false} InputPays(names: Hash -> Transaction, inputs: seq<OutPoint>, op: OutPoint)
    requires op in inputs
    ensures AmountNamed(names, op) <= NamedTotal(names, inputs)
    decreases |inputs|
  {
    var n := |inputs| - 1;
    if op != inputs[n] {
      assert inputs == inputs[..n] + [inputs[n]];
      InputPays(names, inputs[..n], op);
    }
  }

  lemma {:induction false} OutputPaid(outputs: seq<TxOut>, i: nat)
    requires i < |outputs|
    ensures outputs[i].amount <= OutputTotal(outputs)
    decreases |outputs|
  {
    if i < |outputs| - 1 {
      OutputPaid(outputs[..|outputs| - 1], i);
    }
  }

  /* ---- The ledger with the hashes that ever entered it ---- */

  datatype Traced = Traced(ledger: LedgerState, entered: set<Hash>)

  ghost function TracedCommit(t: Traced, e: Event): Traced {
    Traced(Commit(t.ledger, e), t.entered + Issued(t.ledger, e).Keys + Included(t.ledger, e).Keys)
  }

  ghost predicate PoolsPayOut(names: Hash -> Transaction, s: LedgerState) {
    AllPayOut(names, s.txPool) && forall g <- s.druidPool :: AllPayOut(names, g)
  }

  /** The inputs that hold tokens, of all that entered, are spent for good. */
  ghost predicate SpentForGood(names: Hash -> Transaction, entered: set<Hash>, base: UtxoSet) {
    forall h <- entered, op: OutPoint | op in names(h).inputs && 0 < AmountNamed(names, op) ::
      op !in base && op.tHash in entered
  }

  ghost predicate OutputsEntered(entered: set<Hash>, base: UtxoSet) {
    forall op <- base.Keys :: op.tHash in entered
  }

  ghost predicate BaseTraced(names: Hash -> Transaction, entered: set<Hash>, base: UtxoSet) {
    NamedOutputs(names, base) && OutputsEntered(entered, base) && SpentForGood(names, entered, base)
  }

  ghost predicate TraceValid(names: Hash -> Transaction, t: Traced) {
    && SupplyHolds(t.ledger)
    && PoolsNamed(names, t.ledger) && PoolsPayOut(names, t.ledger)
    && BaseTraced(names, t.entered, t.ledger.base)
  }

  /** Coinbases take no tokens in, and their hashes are new. */
  ghost predicate IsIssue(names: Hash -> Transaction, entered: set<Hash>, txs: TxMap) {
    Named(names, txs) && txs.Keys !! entered && forall h <- txs.Keys :: NamedTotal(names, txs[h].inputs) == 0
  }

  ghost predicate GoodCommit(names: Hash -> Transaction, t: Traced, e: Event) {
    match e
    case FirstBlockReady(txs) => IsIssue(names, t.entered, Issued(t.ledger, e))
    case TransactionsCommitted(txs) => Named(names, txs) && AllPayOut(names, txs)
    case DruidCommitted(droplets) => forall g <- droplets :: Named(names, g) && AllPayOut(names, g)
    case BlockReady(info) => IsIssue(names, t.entered, Issued(t.ledger, e))
  }

  /* ---- A transaction that moves tokens enters once ---- */

  /** An outpoint that holds tokens and is made by a block was made by none before. */
  lemma MadeOnce(names: Hash -> Transaction, entered: set<Hash>, base: UtxoSet, blockTx: TxMap, op: OutPoint)
    requires BaseTraced(names, entered, base) && Named(names, blockTx) && AllPayOut(names, blockTx)
    requires InputsOf(blockTx) <= base.Keys
    requires op.tHash in blockTx && 0 < AmountNamed(names, op)
    ensures op.tHash !in entered
  {
    hide NamedOutputs, OutputsEntered, InputsOf;
    var tx := blockTx[op.tHash];
    assert tx == names(op.tHash) && PaysOut(names, tx);
    OutputPaid(tx.outputs, op.n);
    var q := SomeInputPays(names, tx.inputs);
    InputsOfMember(blockTx, op.tHash);
    assert q in base.Keys;
  }

  lemma BlockTraced(names: Hash -> Transaction, entered: set<Hash>, base: UtxoSet, blockTx: TxMap)
    requires BaseTraced(names, entered, base) && Named(names, blockTx) && AllPayOut(names, blockTx)
    requires InputsOf(blockTx) <= base.Keys
    ensures var left := base - InputsOf(blockTx);
            && KeepsTokens(OutputsOf(blockTx), left)
            && BaseTraced(names, entered + blockTx.Keys, left + OutputsOf(blockTx))
  {
    hide InputsOf, AllPayOut, NamedOutputs, Named, OutputsOf;
    var left, outs := base - InputsOf(blockTx), OutputsOf(blockTx);
    NamedPart(names, base, left);
    NamedExtend(names, left, blockTx);
    BlockKeepsTokens(names, entered, base, blockTx);
    var entered', base' := entered + blockTx.Keys, left + outs;
    forall h <- entered', op: OutPoint | op in names(h).inputs && 0 < AmountNamed(names, op)
      ensures op !in base' && op.tHash in entered'
    {
      SpentInput(names, entered, base, blockTx, h, op);
    }
  }

  lemma BlockKeepsTokens(names: Hash -> Transaction, entered: set<Hash>, base: UtxoSet, blockTx: TxMap)
    requires BaseTraced(names, entered, base) && Named(names, blockTx) && AllPayOut(names, blockTx)
    requires InputsOf(blockTx) <= base.Keys
    ensures KeepsTokens(OutputsOf(blockTx), base - InputsOf(blockTx))
  {
    hide InputsOf, AllPayOut, Named, OutputsOf, SpentForGood;
    var left, outs := base - InputsOf(blockTx), OutputsOf(blockTx);
    forall op <- outs.Keys * left.Keys ensures left[op].amount == 0 {
      assert op in base && left[op] == base[op] && op.tHash in blockTx;
      assert base[op].amount == AmountNamed(names, op);
      if 0 < AmountNamed(names, op) {
        MadeOnce(names, entered, base, blockTx, op);
      }
    }
  }

  lemma SpentInput(names: Hash -> Transaction, entered: set<Hash>, base: UtxoSet, blockTx: TxMap, h: Hash, op: OutPoint)
    requires BaseTraced(names, entered, base) && Named(names, blockTx) && AllPayOut(names, blockTx)
    requires InputsOf(blockTx) <= base.Keys
    requires (h in entered || h in blockTx) && op in names(h).inputs && 0 < AmountNamed(names, op)
    ensures op !in (base - InputsOf(blockTx)) + OutputsOf(blockTx) && op.tHash in entered
  {
    hide InputsOf, AllPayOut, NamedOutputs, OutputsOf;
    if h in blockTx {
      InputsOfMember(blockTx, h);
    }
    if op.tHash in blockTx {
      MadeOnce(names, entered, base, blockTx, op);
    }
  }

  lemma IssueTraced(names: Hash -> Transaction, entered: set<Hash>, base: UtxoSet, txs: TxMap)
    requires BaseTraced(names, entered, base) && IsIssue(names, entered, txs)
    ensures BaseTraced(names, entered + txs.Keys, base + OutputsOf(txs))
    ensures base.Keys !! OutputsOf(txs).Keys
  {
    hide OutputsOf, NamedOutputs, NamedTotal;
    NamedExtend(names, base, txs);
    forall h <- entered + txs.Keys, op: OutPoint | op in names(h).inputs && 0 < AmountNamed(names, op)
      ensures op !in base + OutputsOf(txs) && op.tHash in entered
    {
      if h in txs {
        InputPays(names, txs[h].inputs, op);
      }
    }
  }

  /* ---- One commit ---- */

  lemma MergePaysOut(names: Hash -> Transaction, groups: seq<TxMap>, chosen: set<nat>, n: nat)
    requires n <= |groups| && forall g <- groups :: AllPayOut(names, g)
    ensures AllPayOut(names, Merge(groups, chosen, n))
    decreases n
  {
    hide PaysOut;
    if n > 0 {
      MergePaysOut(names, groups, chosen, n - 1);
      assert AllPayOut(names, groups[n - 1]);
    }
  }

  lemma GeneratePaysOut(names: Hash -> Transaction, s: LedgerState)
    requires PoolsPayOut(names, s)
    ensures AllPayOut(names, Generate(s).blockTx) && PoolsPayOut(names, Generate(s))
  {
    hide Accept, SpentBy, Merge, FirstN, ValidTxs, InputsOf, OutputsOf, PaysOut;
    var chosen := Accept(s.base, s.druidPool, |s.druidPool|);
    var valid := ValidTxs(s.txPool, s.base - SpentBy(s.druidPool, chosen));
    MergePaysOut(names, s.druidPool, chosen, |s.druidPool|);
    ValidTxsPart(s.txPool, s.base - SpentBy(s.druidPool, chosen));
    FirstNPart(valid, BLOCK_SIZE_IN_TX);
  }

  lemma BlockBalances(names: Hash -> Transaction, base: UtxoSet, blockTx: TxMap)
    requires NamedOutputs(names, base) && AllPayOut(names, blockTx) && InputsOf(blockTx) <= base.Keys
    ensures forall h <- blockTx.Keys :: Balanced(blockTx[h], base)
  {
    hide NamedOutputs, InputsOf;
    forall h <- blockTx.Keys ensures Balanced(blockTx[h], base) {
      InputsOfMember(blockTx, h);
      NamedTotalIs(names, blockTx[h].inputs, base);
    }
  }

  lemma GenerateTraced(names: Hash -> Transaction, s: LedgerState, entered: set<Hash>)
    requires PoolsNamed(names, s) && PoolsPayOut(names, s) && BaseTraced(names, entered, s.base)
    ensures var s' := Generate(s);
            && Supply(s'.base) == Supply(s.base)
            && PoolsNamed(names, s') && PoolsPayOut(names, s')
            && BaseTraced(names, entered + s'.blockTx.Keys, s'.base)
  {
    hide Generate, PoolsNamed, PoolsPayOut, NamedOutputs, OutputsEntered, SpentForGood, Supply, InputsOf, OutputsOf, Conflictless;
    GeneratedBlock(names, s);
    GeneratePaysOut(names, s);
    LeftoverNamed(names, s);
    var blockTx := Generate(s).blockTx;
    BlockBalances(names, s.base, blockTx);
    BlockTraced(names, entered, s.base, blockTx);
    GenerateKeepsSupply(names, s);
  }

  /** One good commit keeps supply equal to circulation, and raises it by what is issued only. */
  lemma CommitKeepsSupply(names: Hash -> Transaction, t: Traced, e: Event)
    requires TraceValid(names, t) && GoodCommit(names, t, e)
    ensures TraceValid(names, TracedCommit(t, e))
    ensures Commit(t.ledger, e).circulation == t.ledger.circulation + TokenTotal(Issued(t.ledger, e))
  {
    hide Supply, TokenTotal, OutputsOf, Generate, BaseTraced, Named, AllPayOut;
    NoTransactions();
    var s := t.ledger;
    assert t.entered + {} + {} == t.entered;
    match e
    case FirstBlockReady(txs) =>
      if s.blockNum.None? {
        IssueTraced(names, t.entered, s.base, txs);
        OutputsSupply(txs);
        EmptySupply();
        assert s.base + OutputsOf(txs) == OutputsOf(txs);
        assert TracedCommit(t, e).entered == t.entered + txs.Keys;
      }
    case TransactionsCommitted(txs) =>
      PoolGrows(names, s.txPool, txs);
    case DruidCommitted(droplets) =>
    case BlockReady(info) =>
      if s.blockNum == Some(info.blockNum) && !IsShutdown(s, info) {
        var mid := ApplyStored(s, info);
        IssueTraced(names, t.entered, s.base, info.miningTxs);
        OutputsSupply(info.miningTxs);
        SupplyUnion(s.base, OutputsOf(info.miningTxs));
        GenerateTraced(names, mid, t.entered + info.miningTxs.Keys);
        GenerateElsewhere(mid);
      }
  }

  lemma PoolGrows(names: Hash -> Transaction, pool: TxMap, txs: TxMap)
    requires Named(names, pool) && AllPayOut(names, pool) && Named(names, txs) && AllPayOut(names, txs)
    ensures Named(names, pool + txs) && AllPayOut(names, pool + txs)
  {
    hide PaysOut;
  }

  lemma GenerateElsewhere(s: LedgerState)
    ensures Generate(s).circulation == s.circulation && Generate(s).blockNum == s.blockNum
  {
  }

  /* ---- Runs ---- */

  ghost function Run(t: Traced, events: seq<Event>): Traced {
    if events == [] then t else TracedCommit(Run(t, events[..|events| - 1]), events[|events| - 1])
  }

  ghost predicate GoodRun(names: Hash -> Transaction, t: Traced, events: seq<Event>) {
    forall i :: 0 <= i < |events| ==> GoodCommit(names, Run(t, events[..i]), events[i])
  }

  ghost function IssuedBy(t: Traced, events: seq<Event>): nat {
    if events == [] then 0
    else
      var front := events[..|events| - 1];
      IssuedBy(t, front) + TokenTotal(Issued(Run(t, front).ledger, events[|events| - 1]))
  }

  /** Over every run, the set holds what circulates, and that is what was issued. */
  lemma {:induction false} RunKeepsSupply(names: Hash -> Transaction, t: Traced, events: seq<Event>)
    requires TraceValid(names, t) && GoodRun(names, t, events)
    ensures TraceValid(names, Run(t, events))
    ensures var s := Run(t, events).ledger;
            Supply(s.base) == s.circulation == t.ledger.circulation + IssuedBy(t, events)
    decreases |events|
  {
    hide TraceValid, GoodCommit, TracedCommit, Issued, TokenTotal;
    if events != [] {
      var n := |events| - 1;
      var before := events[..n];
      forall i | 0 <= i < n ensures GoodCommit(names, Run(t, before[..i]), before[i]) {
        assert before[..i] == events[..i];
        assert GoodCommit(names, Run(t, events[..i]), events[i]);
      }
      RunKeepsSupply(names, t, before);
      assert GoodCommit(names, Run(t, events[..n]), events[n]);
      CommitKeepsSupply(names, Run(t, before), events[n]);
      CommitTraced(Run(t, before), events[n]);
    }
    TraceMeans(names, Run(t, events));
  }

  lemma CommitTraced(t: Traced, e: Event)
    ensures TracedCommit(t, e).ledger == Commit(t.ledger, e)
  {
  }

  lemma TraceMeans(names: Hash -> Transaction, t: Traced)
    requires TraceValid(names, t)
    ensures Supply(t.ledger.base) == t.ledger.circulation
  {
  }

  const NEW_LEDGER := LedgerState(map[], map[], [], 0, None, None, map[])

  /** From the empty ledger: every token there is was issued by the first block or by mining. */
  lemma NewLedgerSupply(names: Hash -> Transaction, events: seq<Event>)
    requires GoodRun(names, Traced(NEW_LEDGER, {}), events)
    ensures var t := Traced(NEW_LEDGER, {});
            Supply(Run(t, events).ledger.base) == Run(t, events).ledger.circulation == IssuedBy(t, events)
  {
    hide GoodRun, Run, IssuedBy;
    EmptySupply();
    assert TraceValid(names, Traced(NEW_LEDGER, {}));
    RunKeepsSupply(names, Traced(NEW_LEDGER, {}), events);
  }
}
