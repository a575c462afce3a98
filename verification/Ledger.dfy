/** Outpoints, outputs and transactions, as far as the ledger rules look into them. */
module Ledger {
  import opened Wrappers
  import opened Collections

  /** A transaction hash. Digests have a fixed width, so their textual order is a number order. */
  type Hash = nat
  type Address = nat

  datatype OutPoint = OutPoint(tHash: Hash, n: nat)

  /** `amount` counts tokens; it is 0 for a receipt asset. */
  datatype TxOut = TxOut(amount: nat, spk: Option<Address>)

  datatype DruidInfo = DruidInfo(druid: nat, participants: nat)

  /** `inputs` holds the previous outpoints of those inputs that have one. */
  datatype Transaction = Transaction(inputs: seq<OutPoint>, outputs: seq<TxOut>, druidInfo: Option<DruidInfo>)

  datatype SpecialHandling = Shutdown | FirstUpgradeBlock

  type UtxoSet = map<OutPoint, TxOut>
  type TxMap = map<Hash, Transaction>

  /** All outputs of the transactions, each under the outpoint that names it. */
  function OutputsOf(txs: TxMap): (outs: UtxoSet)
    ensures forall op :: op in outs <==> op.tHash in txs && op.n < |txs[op.tHash].outputs|
    ensures forall op <- outs :: outs[op] == txs[op.tHash].outputs[op.n]
  {
    var outs := map h, i | h in txs && 0 <= i < |txs[h].outputs| :: OutPoint(h, i) := txs[h].outputs[i];
    assert forall op: OutPoint :: op.tHash in txs && op.n < |txs[op.tHash].outputs| ==> OutPoint(op.tHash, op.n) in outs;
    outs
  }

  /** An outpoint names one output: it is the hash of the transaction and a position in it. */
  ghost predicate Agree(u: UtxoSet, v: UtxoSet) {
    forall op <- u.Keys * v.Keys :: u[op] == v[op]
  }

  ghost function Amounts(utxo: UtxoSet): map<OutPoint, nat> {
    map op | op in utxo :: utxo[op].amount
  }

  /** Total token amount held by a set of outputs. */
  ghost function Supply(utxo: UtxoSet): nat {
    Sum(Amounts(utxo))
  }

  lemma SupplyUnion(u: UtxoSet, v: UtxoSet)
    requires u.Keys !! v.Keys
    ensures Supply(u + v) == Supply(u) + Supply(v)
  {
    assert Amounts(u + v) == Amounts(u) + Amounts(v);
    SumUnion(Amounts(u), Amounts(v));
  }

  function Restrict(utxo: UtxoSet, s: set<OutPoint>): UtxoSet {
    map op | op in utxo && op in s :: utxo[op]
  }

  lemma SupplySplit(u: UtxoSet, s: set<OutPoint>)
    ensures Supply(u) == Supply(u - s) + Supply(Restrict(u, s))
  {
    assert (u - s) + Restrict(u, s) == u;
    SupplyUnion(u - s, Restrict(u, s));
  }

  lemma SupplyInsert(utxo: UtxoSet, s: set<OutPoint>, op: OutPoint)
    requires op in utxo && op !in s
    ensures Supply(Restrict(utxo, s + {op})) == Supply(Restrict(utxo, s)) + utxo[op].amount
  {
    var m := Amounts(Restrict(utxo, s));
    assert Amounts(Restrict(utxo, s + {op})) == m[op := utxo[op].amount];
    SumInsert(m, op, utxo[op].amount);
  }

  lemma SupplyDisjoint(utxo: UtxoSet, s: set<OutPoint>, t: set<OutPoint>)
    requires s !! t
    ensures Supply(Restrict(utxo, s + t)) == Supply(Restrict(utxo, s)) + Supply(Restrict(utxo, t))
  {
    assert Restrict(utxo, s + t) == Restrict(utxo, s) + Restrict(utxo, t);
    SupplyUnion(Restrict(utxo, s), Restrict(utxo, t));
  }

  lemma SupplyEmpty(utxo: UtxoSet)
    ensures Supply(Restrict(utxo, {})) == 0
  {
    assert Amounts(Restrict(utxo, {})) == map[];
  }
}
