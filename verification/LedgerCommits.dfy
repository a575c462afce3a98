/**
 The ledger state that committed items drive, the block generated from it, and the tokens that a block
 moves (src/compute_raft.rs).
 */
module LedgerCommits {
  import opened Wrappers
  import opened Collections
  import opened Ledger
  import opened BlockRules

  datatype BlockStoredInfo = BlockStoredInfo(blockHash: Hash, blockNum: nat, miningTxs: TxMap, shutdown: bool)

  datatype LedgerState = LedgerState(
    base: UtxoSet,
    txPool: TxMap,
    druidPool: seq<TxMap>,
    circulation: nat,
    special: Option<SpecialHandling>,
    blockNum: Option<nat>,
    blockTx: TxMap)

  /* ---- Generating a block ---- */

  /** The n smallest hashes with their transactions, or all if there are fewer. */
  ghost function FirstN(txs: TxMap, n: nat): TxMap {
    var ks := Ascending(txs.Keys);
    map h | h in txs && h in ks[..if n < |ks| then n else |ks|] :: txs[h]
  }

  ghost function Generate(s: LedgerState): LedgerState {
    var chosen := Accept(s.base, s.druidPool, |s.druidPool|);
    var base := s.base - SpentBy(s.druidPool, chosen);
    var valid := ValidTxs(s.txPool, base);
    var taken := FirstN(valid, BLOCK_SIZE_IN_TX);
    var blockTx := Merge(s.druidPool, chosen, |s.druidPool|) + taken;
    s.(base := (base - InputsOf(taken)) + OutputsOf(blockTx),
       txPool := valid - taken.Keys,
       druidPool := [],
       blockTx := blockTx)
  }

  ghost predicate PoolsNamed(names: Hash -> Transaction, s: LedgerState) {
    Named(names, s.txPool) && forall g <- s.druidPool :: Named(names, g)
  }

  lemma SpendablePart(txs: TxMap, part: TxMap, utxo: UtxoSet)
    requires Spendable(txs, utxo) && part.Keys <= txs.Keys && forall h <- part :: part[h] == txs[h]
    ensures Spendable(part, utxo)
    ensures InputsOf(part) <= InputsOf(txs)
  {
    forall op | op in InputsOf(part) ensures op in InputsOf(txs) {
      var h :| h in part && op in part[h].inputs;
      InputsOfMember(txs, h);
    }
    forall h <- part.Keys, k <- part.Keys | h != k ensures !SharesInput(part[h], part[k]) {
      assert !SharesInput(txs[h], txs[k]);
    }
  }

  /**
   A generated block spends each outpoint at most once and only outpoints of the set before it; the
   new set is the old one without what was spent, with the outputs of the block.
   */
  lemma GeneratedBlock(names: Hash -> Transaction, s: LedgerState)
    requires PoolsNamed(names, s)
    ensures var s' := Generate(s);
            && Spendable(s'.blockTx, s.base)
            && s'.base == (s.base - InputsOf(s'.blockTx)) + OutputsOf(s'.blockTx)
            && Named(names, s'.blockTx)
  {
    hide Spendable, Applied, InputsOf, SpentBy, Accept, Merge, ValidTxs, FirstN, Named, OutputsOf;
    var chosen := Accept(s.base, s.druidPool, |s.druidPool|);
    var spent := SpentBy(s.druidPool, chosen);
    var merged := Merge(s.druidPool, chosen, |s.druidPool|);
    var base := s.base - spent;
    var valid := ValidTxs(s.txPool, base);
    var taken := FirstN(valid, BLOCK_SIZE_IN_TX);
    ApplyDroplets(names, s.base, s.druidPool, |s.druidPool|);
    MergeNamed(names, s.druidPool, chosen, |s.druidPool|);
    ValidTxsSpendable(s.txPool, base);
    ValidTxsPart(s.txPool, base);
    FirstNPart(valid, BLOCK_SIZE_IN_TX);
    SpendablePart(valid, taken, base);
    NamedSubset(names, s.txPool, taken);
    ApplyDroplet(names, s.base, spent, merged, taken);
    NamedUnion(names, merged, taken);
    assert s.base - (spent + InputsOf(taken)) == base - InputsOf(taken);
    AppliedMeans(s.base, base - InputsOf(taken), merged + taken);
  }

  lemma NamedSubset(names: Hash -> Transaction, txs: TxMap, part: TxMap)
    requires Named(names, txs) && part.Keys <= txs.Keys && forall h <- part :: part[h] == txs[h]
    ensures Named(names, part)
  {
  }

  lemma NamedUnion(names: Hash -> Transaction, s: TxMap, t: TxMap)
    requires Named(names, s) && Named(names, t)
    ensures Named(names, s + t)
  {
  }

  lemma FirstNPart(txs: TxMap, n: nat)
    ensures FirstN(txs, n).Keys <= txs.Keys && forall h <- FirstN(txs, n) :: FirstN(txs, n)[h] == txs[h]
  {
    hide Ascending;
  }

  lemma FirstNMember(txs: TxMap, n: nat, h: Hash)
    ensures var ks := Ascending(txs.Keys);
            h in FirstN(txs, n) <==> h in txs && h in ks[..if n < |ks| then n else |ks|]
  {
    hide Ascending;
  }

  lemma AppliedMeans(base: UtxoSet, utxo: UtxoSet, blockTx: TxMap)
    requires Applied(base, utxo, blockTx)
    ensures Spendable(blockTx, base) && utxo == base - InputsOf(blockTx)
  {
  }

  /** The set that the pool is checked against: what accepted droplets leave. */
  ghost function AfterDroplets(s: LedgerState): UtxoSet {
    s.base - SpentBy(s.druidPool, Accept(s.base, s.druidPool, |s.druidPool|))
  }

  /** The accepted part of the pool: what the block takes of it, at most 2000 and the smallest hashes, and the rest. */
  ghost predicate IsShare(valid: TxMap, taken: TxMap, rest: TxMap) {
    && taken.Keys !! rest.Keys && valid == taken + rest
    && |taken| == (if |valid| < 2000 then |valid| else 2000)
    && (forall h <- taken, k <- rest :: h < k)
    && (|valid| <= 2000 ==> rest == map[])
  }

  /**
   No pooled transaction that the greedy pass accepts is lost: it is in the block or still in the pool. All
   others of the pool are dropped, and all droplets have been dealt with.
   */
  lemma GenerateKeepsAccepted(s: LedgerState)
    ensures var valid, s' := ValidTxs(s.txPool, AfterDroplets(s)), Generate(s);
            exists taken: TxMap ::
              && IsShare(valid, taken, s'.txPool)
              && s'.blockTx == Merge(s.druidPool, Accept(s.base, s.druidPool, |s.druidPool|), |s.druidPool|) + taken
    ensures Generate(s).txPool.Keys <= s.txPool.Keys && Generate(s).druidPool == []
  {
    hide Accept, SpentBy, ValidTxs, Merge, FirstN, InputsOf, OutputsOf, IsShare;
    var valid := ValidTxs(s.txPool, AfterDroplets(s));
    TakenShare(valid);
    ValidTxsPart(s.txPool, AfterDroplets(s));
    assert IsShare(valid, FirstN(valid, BLOCK_SIZE_IN_TX), Generate(s).txPool);
  }

  lemma TakenShare(valid: TxMap)
    ensures var taken := FirstN(valid, BLOCK_SIZE_IN_TX); IsShare(valid, taken, valid - taken.Keys)
  {
    hide FirstN;
    var taken := FirstN(valid, BLOCK_SIZE_IN_TX);
    PoolSplit(valid, BLOCK_SIZE_IN_TX);
    if |valid| <= 2000 {
      SubsetSize(taken.Keys, valid.Keys);
      assert |taken.Keys| == |taken| && |valid.Keys| == |valid|;
    }
  }

  /** The hashes of a block in its order: those of each accepted droplet, ascending, then those of the pool. */
  ghost function DropletHashes(groups: seq<TxMap>, chosen: set<nat>, n: nat): seq<Hash>
    requires n <= |groups|
  {
    if n == 0 then []
    else DropletHashes(groups, chosen, n - 1) + if n - 1 in chosen then Ascending(groups[n - 1].Keys) else []
  }

  ghost function BlockHashes(s: LedgerState): seq<Hash> {
    DropletHashes(s.druidPool, Accept(s.base, s.druidPool, |s.druidPool|), |s.druidPool|)
    + Ascending(FirstN(ValidTxs(s.txPool, AfterDroplets(s)), BLOCK_SIZE_IN_TX).Keys)
  }

  lemma {:induction false} DropletHashesAgree(groups: seq<TxMap>, a: set<nat>, b: set<nat>, n: nat)
    requires n <= |groups| && Below(a, n) == Below(b, n)
    ensures DropletHashes(groups, a, n) == DropletHashes(groups, b, n)
  {
    hide Ascending;
    if n > 0 {
      assert n - 1 in a <==> n - 1 in Below(a, n);
      assert n - 1 in b <==> n - 1 in Below(b, n);
      assert Below(a, n - 1) == Below(Below(a, n), n - 1);
      assert Below(b, n - 1) == Below(Below(b, n), n - 1);
      DropletHashesAgree(groups, a, b, n - 1);
    }
  }

  lemma DropletHashesStep(utxo: UtxoSet, groups: seq<TxMap>, n: nat)
    requires 0 < n <= |groups|
    ensures var before, a := Accept(utxo, groups, n - 1), Accept(utxo, groups, n);
            DropletHashes(groups, a, n)
            == DropletHashes(groups, before, n - 1) + if n - 1 in a then Ascending(groups[n - 1].Keys) else []
  {
    hide Ascending, Spendable, SpentBy;
    var before, a := Accept(utxo, groups, n - 1), Accept(utxo, groups, n);
    AcceptRange(utxo, groups, n - 1);
    assert Below(a, n - 1) == Below(before, n - 1);
    DropletHashesAgree(groups, before, a, n - 1);
  }

  /** The pool part of the block: at most BLOCK_SIZE_IN_TX, and the smallest hashes first. */
  lemma PoolSplit(txs: TxMap, n: nat)
    ensures var taken, rest := FirstN(txs, n), txs - FirstN(txs, n).Keys;
            && taken + rest == txs && taken.Keys !! rest.Keys
            && |taken| == (if n < |txs| then n else |txs|)
            && forall h <- taken, k <- rest :: h < k
  {
    hide Ascending, FirstN;
    var ks := Ascending(txs.Keys);
    var m := if n < |ks| then n else |ks|;
    var taken, rest := FirstN(txs, n), txs - FirstN(txs, n).Keys;
    FirstNSize(txs, n);
    FirstNPart(txs, n);
    assert taken + rest == txs;
    forall h <- taken, k <- rest ensures h < k {
      FirstNMember(txs, n, h);
      FirstNMember(txs, n, k);
      PrefixBelow(ks, m, h, k);
    }
  }

  lemma FirstNSize(txs: TxMap, n: nat)
    ensures |FirstN(txs, n)| == if n < |txs| then n else |txs|
  {
    hide Ascending;
    var ks := Ascending(txs.Keys);
    var m := if n < |ks| then n else |ks|;
    assert FirstN(txs, n).Keys == ToSet(ks[..m]) by {
      assert forall h :: h in ks[..m] ==> h in ks;
    }
    AscendingSize(ks[..m]);
  }

  lemma PrefixBelow(ks: seq<nat>, m: nat, h: nat, k: nat)
    requires StrictlyAscending(ks) && m <= |ks|
    requires h in ks[..m] && k in ks && k !in ks[..m]
    ensures h < k
  {
    assert forall i :: 0 <= i < m ==> ks[i] in ks[..m];
    var i :| 0 <= i < m && ks[i] == h;
    var j :| 0 <= j < |ks| && ks[j] == k;
  }

  /** What stays in the pool can all be spent after the block: no leftover is invalid. */
  lemma LeftoverSpendable(s: LedgerState)
    ensures var s' := Generate(s);
            Spendable(s'.txPool, s'.base) && ValidTxs(s'.txPool, s'.base) == s'.txPool
  {
    hide Accept, SpentBy, ValidTxs, Merge;
    var base := s.base - SpentBy(s.druidPool, Accept(s.base, s.druidPool, |s.druidPool|));
    var valid := ValidTxs(s.txPool, base);
    var taken := FirstN(valid, BLOCK_SIZE_IN_TX);
    ValidTxsSpendable(s.txPool, base);
    PoolSplit(valid, BLOCK_SIZE_IN_TX);
    RestSpendable(valid, taken, base);
    var s' := Generate(s);
    assert s'.txPool == valid - taken.Keys;
    assert (base - InputsOf(taken)).Keys <= s'.base.Keys;
    SpendableAllValid(s'.txPool, s'.base);
  }

  lemma RestSpendable(valid: TxMap, taken: TxMap, base: UtxoSet)
    requires Spendable(valid, base) && taken.Keys <= valid.Keys && forall h <- taken :: taken[h] == valid[h]
    ensures Spendable(valid - taken.Keys, base - InputsOf(taken))
  {
    var rest := valid - taken.Keys;
    SpendablePart(valid, rest, base);
    forall op | op in InputsOf(rest) ensures op !in InputsOf(taken) {
      var h :| h in rest && op in rest[h].inputs;
      forall k <- taken ensures op !in taken[k].inputs {
        assert !SharesInput(valid[h], valid[k]);
      }
    }
  }

  /* ---- Token totals ---- */

  ghost function OutputTotal(outputs: seq<TxOut>): nat {
    if outputs == [] then 0 else OutputTotal(outputs[..|outputs| - 1]) + outputs[|outputs| - 1].amount
  }

  ghost function InputTotal(inputs: seq<OutPoint>, utxo: UtxoSet): nat
    requires forall op <- inputs :: op in utxo
  {
    if inputs == [] then 0
    else InputTotal(inputs[..|inputs| - 1], utxo) + utxo[inputs[|inputs| - 1]].amount
  }

  /** A transaction pays out what its inputs hold. */
  ghost predicate Balanced(tx: Transaction, utxo: UtxoSet) {
    (forall op <- tx.inputs :: op in utxo) && InputTotal(tx.inputs, utxo) == OutputTotal(tx.outputs)
  }

  function OwnOutputs(h: Hash, outputs: seq<TxOut>): (outs: UtxoSet)
    ensures forall op :: op in outs <==> op.tHash == h && op.n < |outputs|
    ensures forall op <- outs :: outs[op] == outputs[op.n]
  {
    var outs := map i | 0 <= i < |outputs| :: OutPoint(h, i) := outputs[i];
    assert forall op: OutPoint :: op.tHash == h && op.n < |outputs| ==> OutPoint(h, op.n) in outs;
    outs
  }

  lemma OwnOutputsStep(h: Hash, outputs: seq<TxOut>)
    requires outputs != []
    ensures var n := |outputs| - 1;
            OwnOutputs(h, outputs) == OwnOutputs(h, outputs[..n])[OutPoint(h, n) := outputs[n]]
  {
    hide OwnOutputs;
  }

  lemma {:induction false} OwnSupply(h: Hash, outputs: seq<TxOut>)
    ensures Supply(OwnOutputs(h, outputs)) == OutputTotal(outputs)
    decreases |outputs|
  {
    hide OwnOutputs;
    if outputs == [] {
      assert Amounts(OwnOutputs(h, outputs)) == map[];
    } else {
      var n := |outputs| - 1;
      OwnSupply(h, outputs[..n]);
      var front := OwnOutputs(h, outputs[..n]);
      OwnOutputsStep(h, outputs);
      assert Amounts(front[OutPoint(h, n) := outputs[n]]) == Amounts(front)[OutPoint(h, n) := outputs[n].amount];
      SumInsert(Amounts(front), OutPoint(h, n), outputs[n].amount);
    }
  }

  /** The coinbase total: the outputs of all transactions. */
  ghost function TokenTotal(txs: TxMap): nat {
    Sum(Totals(txs))
  }

  lemma OutputsInsert(txs: TxMap, h: Hash, tx: Transaction)
    requires h !in txs
    ensures OutputsOf(txs[h := tx]) == OutputsOf(txs) + OwnOutputs(h, tx.outputs)
    ensures OutputsOf(txs).Keys !! OwnOutputs(h, tx.outputs).Keys
  {
    hide OutputsOf, OwnOutputs;
    var l, m, r := OutputsOf(txs[h := tx]), OutputsOf(txs), OwnOutputs(h, tx.outputs);
    assert l.Keys == (m + r).Keys;
  }

  ghost function Totals(txs: TxMap): map<Hash, nat> {
    map h | h in txs :: OutputTotal(txs[h].outputs)
  }

  lemma NoTransactions()
    ensures OutputsOf(map[]) == map[] && Supply(OutputsOf(map[])) == TokenTotal(map[]) == 0
    ensures InputsOf(map[]) == {}
  {
    hide OutputsOf;
    assert OutputsOf(map[]) == map[];
    assert Totals(map[]) == map[] && Amounts(map[]) == map[];
  }

  lemma {:induction false} OutputsSupply(txs: TxMap)
    ensures Supply(OutputsOf(txs)) == TokenTotal(txs)
    decreases |txs|
  {
    hide OutputsOf, Supply, OwnOutputs, TokenTotal;
    if txs == map[] {
      NoTransactions();
    } else {
      var h :| h in txs;
      var rest := txs - {h};
      OutputsSupply(rest);
      assert txs == rest[h := txs[h]];
      OutputsInsert(rest, h, txs[h]);
      SupplyUnion(OutputsOf(rest), OwnOutputs(h, txs[h].outputs));
      OwnSupply(h, txs[h].outputs);
      TokenTotalRemove(txs, h);
    }
  }

  lemma TokenTotalRemove(txs: TxMap, h: Hash)
    requires h in txs
    ensures TokenTotal(txs) == TokenTotal(txs - {h}) + OutputTotal(txs[h].outputs)
  {
    SumRemove(Totals(txs), h);
    assert Totals(txs) - {h} == Totals(txs - {h});
  }

  lemma {:induction false} InputsSupply(inputs: seq<OutPoint>, utxo: UtxoSet)
    requires Distinct(inputs) && forall op <- inputs :: op in utxo
    ensures Supply(Restrict(utxo, ToSet(inputs))) == InputTotal(inputs, utxo)
    decreases |inputs|
  {
    if inputs == [] {
      assert Amounts(Restrict(utxo, ToSet(inputs))) == map[];
    } else {
      var n := |inputs| - 1;
      InputsSupply(inputs[..n], utxo);
      ToSetLast(inputs);
      var s, op := ToSet(inputs[..n]), inputs[n];
      assert op !in s;
      SupplyInsert(utxo, s, op);
    }
  }

  /** Balanced, conflict-free transactions take out of the set what they put in. */
  lemma {:induction false} BlockBalanced(txs: TxMap, utxo: UtxoSet)
    requires Spendable(txs, utxo) && forall h <- txs.Keys :: Balanced(txs[h], utxo)
    ensures Supply(Restrict(utxo, InputsOf(txs))) == Supply(OutputsOf(txs))
    decreases |txs|
  {
    hide OutputsOf, InputsOf, Supply, OwnOutputs, Restrict, Spendable, Balanced;
    if txs == map[] {
      NoTransactions();
      SupplyEmpty(utxo);
    } else {
      var h :| h in txs;
      var rest, tx := txs - {h}, txs[h];
      SpendablePart(txs, rest, utxo);
      BlockBalanced(rest, utxo);
      assert txs == rest[h := tx];
      OutputsInsert(rest, h, tx);
      SupplyUnion(OutputsOf(rest), OwnOutputs(h, tx.outputs));
      OwnSupply(h, tx.outputs);
      InputsRemove(txs, utxo, h);
    }
  }

  lemma InputsRemove(txs: TxMap, utxo: UtxoSet, h: Hash)
    requires Spendable(txs, utxo) && h in txs && Balanced(txs[h], utxo)
    ensures Supply(Restrict(utxo, InputsOf(txs)))
            == Supply(Restrict(utxo, InputsOf(txs - {h}))) + OutputTotal(txs[h].outputs)
  {
    var rest, ins := InputsOf(txs - {h}), ToSet(txs[h].inputs);
    InputsSupply(txs[h].inputs, utxo);
    InputsSplit(txs, h);
    SupplyDisjoint(utxo, rest, ins);
  }

  lemma InputsSplit(txs: TxMap, h: Hash)
    requires Conflictless(txs) && h in txs
    ensures var ins := ToSet(txs[h].inputs);
            InputsOf(txs) == InputsOf(txs - {h}) + ins && InputsOf(txs - {h}) !! ins
  {
    var rest := txs - {h};
    forall op | op in InputsOf(rest) ensures op !in txs[h].inputs && op in InputsOf(txs) {
      var k :| k in rest && op in rest[k].inputs;
      assert !SharesInput(txs[h], txs[k]);
      InputsOfMember(txs, k);
    }
    InputsOfMember(txs, h);
    forall op | op in InputsOf(txs) ensures op in InputsOf(rest) || op in txs[h].inputs {
      var k :| k in txs && op in txs[k].inputs;
      if k != h {
        InputsOfMember(rest, k);
      }
    }
  }

  /* ---- Commits ---- */

  datatype Event =
    | FirstBlockReady(txs: TxMap)
    | TransactionsCommitted(txs: TxMap)
    | DruidCommitted(droplets: seq<TxMap>)
    | BlockReady(info: BlockStoredInfo)

  /** The ledger after the mining transactions of a stored block, before the next one is generated. */
  ghost function ApplyStored(s: LedgerState, info: BlockStoredInfo): LedgerState {
    s.(special := None,
       circulation := s.circulation + TokenTotal(info.miningTxs),
       base := s.base + OutputsOf(info.miningTxs),
       blockNum := Some(info.blockNum + 1),
       blockTx := map[])
  }

  predicate IsShutdown(s: LedgerState, info: BlockStoredInfo) {
    s.special.None? && info.shutdown
  }

  ghost function Commit(s: LedgerState, e: Event): LedgerState {
    match e
    case FirstBlockReady(txs) =>
      if s.blockNum.Some? then s
      else
        s.(circulation := TokenTotal(txs),
           base := s.base + OutputsOf(txs),
           blockNum := Some(0),
           blockTx := txs)
    case TransactionsCommitted(txs) => s.(txPool := s.txPool + txs)
    case DruidCommitted(droplets) => s.(druidPool := s.druidPool + droplets)
    case BlockReady(info) =>
      if s.blockNum != Some(info.blockNum) then s
      else if IsShutdown(s, info) then s.(special := Some(Shutdown))
      else Generate(ApplyStored(s, info))
  }

  /** The transactions by which a commit brings tokens into existence: the first block, then stored mining transactions. */
  ghost function Issued(s: LedgerState, e: Event): TxMap {
    match e
    case FirstBlockReady(txs) => if s.blockNum.Some? then map[] else txs
    case BlockReady(info) => if s.blockNum != Some(info.blockNum) || IsShutdown(s, info) then map[] else info.miningTxs
    case _ => map[]
  }

  /** The transactions a commit takes from the pools into a block. */
  ghost function Included(s: LedgerState, e: Event): TxMap {
    match e
    case BlockReady(info) =>
      if s.blockNum != Some(info.blockNum) || IsShutdown(s, info) then map[] else Generate(ApplyStored(s, info)).blockTx
    case _ => map[]
  }

  ghost predicate SupplyHolds(s: LedgerState) {
    && Supply(s.base) == s.circulation
    && (s.blockNum.None? ==> s.base == map[])
  }

  /** What is overwritten holds no tokens. */
  ghost predicate KeepsTokens(outs: UtxoSet, utxo: UtxoSet) {
    forall op <- outs.Keys * utxo.Keys :: utxo[op].amount == 0
  }

  lemma {:induction false} TokenlessSupply(utxo: UtxoSet)
    requires forall op <- utxo.Keys :: utxo[op].amount == 0
    ensures Supply(utxo) == 0
    decreases |utxo|
  {
    if utxo == map[] {
      EmptySupply();
    } else {
      var op :| op in utxo;
      TokenlessSupply(utxo - {op});
      SumRemove(Amounts(utxo), op);
      assert Amounts(utxo) - {op} == Amounts(utxo - {op});
    }
  }

  lemma SupplyOverwrite(u: UtxoSet, v: UtxoSet)
    requires KeepsTokens(v, u)
    ensures Supply(u + v) == Supply(u) + Supply(v)
  {
    hide Supply;
    SupplySplit(u, v.Keys);
    TokenlessSupply(Restrict(u, v.Keys));
    assert (u - v.Keys) + v == u + v;
    SupplyUnion(u - v.Keys, v);
  }

  lemma GenerateKeepsSupply(names: Hash -> Transaction, s: LedgerState)
    requires PoolsNamed(names, s)
    ensures var blockTx := Generate(s).blockTx;
            (forall h <- blockTx.Keys :: Balanced(blockTx[h], s.base)) && KeepsTokens(OutputsOf(blockTx), s.base - InputsOf(blockTx)) ==>
              Supply(Generate(s).base) == Supply(s.base)
  {
    hide Generate, Spendable, InputsOf, Balanced, Supply, PoolsNamed, OutputsOf, KeepsTokens;
    GeneratedBlock(names, s);
    var blockTx := Generate(s).blockTx;
    if (forall h <- blockTx.Keys :: Balanced(blockTx[h], s.base)) && KeepsTokens(OutputsOf(blockTx), s.base - InputsOf(blockTx)) {
      BlockBalanced(blockTx, s.base);
      SupplySplit(s.base, InputsOf(blockTx));
      SupplyOverwrite(s.base - InputsOf(blockTx), OutputsOf(blockTx));
    }
  }

  lemma EmptySupply()
    ensures Supply(map[]) == 0
  {
    assert Amounts(map[]) == map[];
  }

  lemma LeftoverNamed(names: Hash -> Transaction, s: LedgerState)
    requires PoolsNamed(names, s)
    ensures PoolsNamed(names, Generate(s))
  {
    hide Accept, SpentBy, Merge, FirstN;
  }

  /** Outputs named by hashes agree with the set, and extend it to a set named by hashes. */
  lemma NamedExtend(names: Hash -> Transaction, base: UtxoSet, txs: TxMap)
    requires NamedOutputs(names, base) && Named(names, txs)
    ensures Agree(base, OutputsOf(txs)) && NamedOutputs(names, base + OutputsOf(txs))
  {
  }

  lemma NamedPart(names: Hash -> Transaction, base: UtxoSet, part: UtxoSet)
    requires NamedOutputs(names, base) && forall op <- part :: op in base && part[op] == base[op]
    ensures NamedOutputs(names, part)
  {
  }
}
