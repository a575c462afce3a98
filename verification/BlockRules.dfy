/**
 What a generated block is: greedy selection of conflict-free groups of transactions, the ledger
 after a block, and the commits that move the ledger (src/compute_raft.rs).
 */
module BlockRules {
  import opened Wrappers
  import opened Collections
  import opened Ledger

  const BLOCK_SIZE_IN_TX := 2000

  /* ---- Spending ---- */

  ghost function InputsOf(txs: TxMap): set<OutPoint> {
    set h, op | h in txs && op in txs[h].inputs :: op
  }

  ghost predicate SharesInput(t: Transaction, u: Transaction) {
    exists op :: op in t.inputs && op in u.inputs
  }

  /** No outpoint is spent twice. */
  ghost predicate Conflictless(txs: TxMap) {
    && (forall h <- txs.Keys :: Distinct(txs[h].inputs))
    && (forall h <- txs.Keys, k <- txs.Keys | h != k :: !SharesInput(txs[h], txs[k]))
  }

  ghost predicate Spendable(txs: TxMap, utxo: UtxoSet) {
    Conflictless(txs) && InputsOf(txs) <= utxo.Keys
  }

  /** A hash stands for one transaction. */
  ghost predicate Named(names: Hash -> Transaction, txs: TxMap) {
    forall h <- txs.Keys :: txs[h] == names(h)
  }

  ghost predicate NamedOutputs(names: Hash -> Transaction, utxo: UtxoSet) {
    forall op <- utxo.Keys :: op.n < |names(op.tHash).outputs| && utxo[op] == names(op.tHash).outputs[op.n]
  }

  /* ---- Greedy selection ---- */

  ghost function SpentBy(groups: seq<TxMap>, chosen: set<nat>): set<OutPoint> {
    set i, op | i in chosen && i < |groups| && op in InputsOf(groups[i]) :: op
  }

  /** The indices, below n, of the groups accepted in order: each spendable after those before it. */
  ghost function Accept(utxo: UtxoSet, groups: seq<TxMap>, n: nat): set<nat>
    requires n <= |groups|
  {
    if n == 0 then {}
    else
      var before := Accept(utxo, groups, n - 1);
      if Spendable(groups[n - 1], utxo - SpentBy(groups, before)) then before + {n - 1} else before
  }

  ghost function Below(chosen: set<nat>, n: nat): set<nat> {
    set i <- chosen | i < n
  }

  lemma {:induction false} AcceptBelow(utxo: UtxoSet, groups: seq<TxMap>, m: nat, n: nat)
    requires m <= n <= |groups|
    ensures Below(Accept(utxo, groups, n), m) == Accept(utxo, groups, m)
  {
    if n == 0 {
    } else if m == n {
      AcceptBelow(utxo, groups, n - 1, n - 1);
      assert Below(Accept(utxo, groups, n), n) == Accept(utxo, groups, n);
    } else {
      AcceptBelow(utxo, groups, m, n - 1);
      assert Below(Accept(utxo, groups, n), m) == Below(Accept(utxo, groups, n - 1), m);
    }
  }

  /**
   A group is accepted exactly when it has no conflict of its own, spends only outputs of the set,
   and spends none that an earlier accepted group spends.
   */
  lemma AcceptedExactly(utxo: UtxoSet, groups: seq<TxMap>, i: nat)
    requires i < |groups|
    ensures var all := Accept(utxo, groups, |groups|);
            i in all <==>
              && Conflictless(groups[i])
              && InputsOf(groups[i]) <= utxo.Keys
              && forall j <- all | j < i :: InputsOf(groups[i]) !! InputsOf(groups[j])
  {
    var all := Accept(utxo, groups, |groups|);
    AcceptBelow(utxo, groups, i, |groups|);
    AcceptBelow(utxo, groups, i + 1, |groups|);
    var before := Accept(utxo, groups, i);
    assert i in all <==> i in Below(all, i + 1);
    assert forall j <- before :: j in Below(all, i) && j < i;
    assert i in all <==> Spendable(groups[i], utxo - SpentBy(groups, before));
    if i in all {
      forall j <- all | j < i ensures InputsOf(groups[i]) !! InputsOf(groups[j]) {
        assert j in Below(all, i);
        forall op | op in InputsOf(groups[j]) ensures op in SpentBy(groups, before) {
        }
      }
    }
    if InputsOf(groups[i]) <= utxo.Keys && forall j <- all | j < i :: InputsOf(groups[i]) !! InputsOf(groups[j]) {
      forall j <- before ensures InputsOf(groups[i]) !! InputsOf(groups[j]) {
        assert j in Below(all, i);
      }
      assert InputsOf(groups[i]) !! SpentBy(groups, before);
    }
  }

  /** Each transaction of a pool as a group of its own, in hash order. */
  ghost function Singles(txs: TxMap): (groups: seq<TxMap>)
    ensures |groups| == |txs|
  {
    var ks := Ascending(txs.Keys);
    seq(|ks|, i requires 0 <= i < |ks| => map[ks[i] := txs[ks[i]]])
  }

  /** The transactions of a pool that the greedy pass accepts. */
  ghost function ValidTxs(txs: TxMap, utxo: UtxoSet): TxMap {
    var ks, all := Ascending(txs.Keys), Accept(utxo, Singles(txs), |txs|);
    map h | h in txs && (exists i: nat :: i < |ks| && i in all && ks[i] == h) :: txs[h]
  }

  lemma InputsOfSingle(h: Hash, tx: Transaction)
    ensures forall op :: op in InputsOf(map[h := tx]) <==> op in tx.inputs
    ensures Conflictless(map[h := tx]) <==> Distinct(tx.inputs)
  {
    var m: TxMap := map[h := tx];
    forall op | op in tx.inputs ensures op in InputsOf(m) {
      assert h in m && op in m[h].inputs;
    }
    if Conflictless(m) {
      assert Distinct(m[h].inputs);
    }
  }

  lemma OnlyIndex(ks: seq<Hash>, i: nat)
    requires StrictlyAscending(ks) && i < |ks|
    ensures forall j :: 0 <= j < |ks| && ks[j] == ks[i] ==> j == i
  {
  }

  lemma ValidTxsMember(txs: TxMap, utxo: UtxoSet, i: nat)
    requires i < |txs|
    ensures Ascending(txs.Keys)[i] in ValidTxs(txs, utxo) <==> i in Accept(utxo, Singles(txs), |txs|)
  {
    hide Accept, Singles, Ascending;
    OnlyIndex(Ascending(txs.Keys), i);
  }

  lemma ValidTxsPart(txs: TxMap, utxo: UtxoSet)
    ensures ValidTxs(txs, utxo).Keys <= txs.Keys
    ensures forall h <- ValidTxs(txs, utxo) :: ValidTxs(txs, utxo)[h] == txs[h]
  {
    hide Accept, Singles, Ascending;
  }

  lemma IndexOfKey(txs: TxMap, h: Hash) returns (i: nat)
    requires h in txs
    ensures i < |txs| && Ascending(txs.Keys)[i] == h
  {
    hide Ascending;
    var ks := Ascending(txs.Keys);
    assert h in ks;
    i :| i < |ks| && ks[i] == h;
  }

  lemma SingleTakes(txs: TxMap, utxo: UtxoSet, i: nat)
    requires i < |txs| && i in Accept(utxo, Singles(txs), |txs|)
    ensures var ks := Ascending(txs.Keys);
            && Distinct(txs[ks[i]].inputs)
            && (forall op :: op in txs[ks[i]].inputs ==> op in utxo.Keys)
            && forall j: nat | j in Accept(utxo, Singles(txs), |txs|) && j < i :: !SharesInput(txs[ks[i]], txs[ks[j]])
  {
    hide Accept, Ascending, Distinct, Conflictless, InputsOf;
    var ks, groups := Ascending(txs.Keys), Singles(txs);
    AcceptedExactly(utxo, groups, i);
    InputsOfSingle(ks[i], txs[ks[i]]);
    forall j: nat | j in Accept(utxo, groups, |txs|) && j < i ensures !SharesInput(txs[ks[i]], txs[ks[j]]) {
      InputsOfSingle(ks[j], txs[ks[j]]);
    }
  }

  lemma ValidPair(txs: TxMap, utxo: UtxoSet, h: Hash, k: Hash)
    requires h in ValidTxs(txs, utxo) && k in ValidTxs(txs, utxo) && h != k && h in txs && k in txs
    ensures !SharesInput(txs[h], txs[k])
  {
    hide Accept, Ascending, Distinct, Singles, ValidTxs, SharesInput;
    var i := IndexOfKey(txs, h);
    var j := IndexOfKey(txs, k);
    ValidTxsMember(txs, utxo, i);
    ValidTxsMember(txs, utxo, j);
    SingleTakes(txs, utxo, i);
    SingleTakes(txs, utxo, j);
    SharesEither(txs[h], txs[k]);
  }

  lemma SharesEither(t: Transaction, u: Transaction)
    ensures SharesInput(t, u) <==> SharesInput(u, t)
  {
  }

  lemma ValidOne(txs: TxMap, utxo: UtxoSet, h: Hash)
    requires h in ValidTxs(txs, utxo) && h in txs
    ensures Distinct(txs[h].inputs)
    ensures forall op :: op in txs[h].inputs ==> op in utxo.Keys
  {
    hide Accept, Ascending, Distinct, Singles, ValidTxs, SharesInput;
    var i := IndexOfKey(txs, h);
    ValidTxsMember(txs, utxo, i);
    SingleTakes(txs, utxo, i);
  }

  /** What the greedy pass over a pool keeps can be spent together. */
  lemma ValidTxsSpendable(txs: TxMap, utxo: UtxoSet)
    ensures Spendable(ValidTxs(txs, utxo), utxo)
  {
    hide ValidTxs, Distinct, SharesInput;
    var valid := ValidTxs(txs, utxo);
    ValidTxsPart(txs, utxo);
    forall h <- valid.Keys ensures Distinct(valid[h].inputs) && forall op :: op in valid[h].inputs ==> op in utxo.Keys {
      ValidOne(txs, utxo, h);
    }
    forall h <- valid.Keys, k <- valid.Keys | h != k ensures !SharesInput(valid[h], valid[k]) {
      ValidPair(txs, utxo, h, k);
    }
  }

  /**
   A pooled transaction is kept exactly when its inputs are distinct, all in the set, and none is an input of
   a kept transaction with a smaller hash.
   */
  lemma ValidTxsExactly(txs: TxMap, utxo: UtxoSet, h: Hash)
    requires h in txs
    ensures h in ValidTxs(txs, utxo) <==>
              && Distinct(txs[h].inputs)
              && (forall op <- txs[h].inputs :: op in utxo)
              && forall k <- ValidTxs(txs, utxo).Keys | k < h :: k in txs && !SharesInput(txs[h], txs[k])
  {
    hide Accept, Ascending, Distinct, ValidTxs, SharesInput;
    var i := IndexOfKey(txs, h);
    var ks: seq<Hash> := Ascending(txs.Keys);
    var groups, valid := Singles(txs), ValidTxs(txs, utxo);
    var all := Accept(utxo, groups, |txs|);
    ValidTxsMember(txs, utxo, i);
    ValidTxsPart(txs, utxo);
    if h in valid {
      ValidOne(txs, utxo, h);
      forall k <- valid.Keys | k < h ensures k in txs && !SharesInput(txs[h], txs[k]) {
        ValidPair(txs, utxo, h, k);
      }
    }
    if Distinct(txs[h].inputs) && (forall op <- txs[h].inputs :: op in utxo)
       && forall k <- valid.Keys | k < h :: k in txs && !SharesInput(txs[h], txs[k])
    {
      AcceptedExactly(utxo, groups, i);
      InputsOfSingle(h, txs[h]);
      AcceptRange(utxo, groups, |txs|);
      forall j: nat | j in all && j < i ensures InputsOf(groups[i]) !! InputsOf(groups[j]) {
        ValidTxsMember(txs, utxo, j);
        assert ks[j] in valid.Keys && ks[j] < h;
        InputsOfSingle(ks[j], txs[ks[j]]);
        NoSharedInput(txs[h], txs[ks[j]]);
      }
    }
  }

  lemma NoSharedInput(t: Transaction, u: Transaction)
    requires !SharesInput(t, u)
    ensures forall op :: op in t.inputs ==> op !in u.inputs
  {
  }

  lemma SingleAccepted(txs: TxMap, utxo: UtxoSet, i: nat)
    requires Spendable(txs, utxo) && i < |txs|
    ensures i in Accept(utxo, Singles(txs), |txs|)
  {
    var ks, groups := Ascending(txs.Keys), Singles(txs);
    var all := Accept(utxo, groups, |txs|);
    InputsOfSingle(ks[i], txs[ks[i]]);
    InputsOfMember(txs, ks[i]);
    forall j <- all | j < i ensures InputsOf(groups[i]) !! InputsOf(groups[j]) {
      InputsOfSingle(ks[j], txs[ks[j]]);
      assert ks[j] != ks[i];
      assert !SharesInput(txs[ks[i]], txs[ks[j]]);
    }
    AcceptedExactly(utxo, groups, i);
  }

  /** A pool that can be spent together loses nothing. */
  lemma SpendableAllValid(txs: TxMap, utxo: UtxoSet)
    requires Spendable(txs, utxo)
    ensures ValidTxs(txs, utxo) == txs
  {
    hide Spendable, Accept, Singles, ValidTxs, Ascending;
    var valid := ValidTxs(txs, utxo);
    ValidTxsPart(txs, utxo);
    forall h <- txs.Keys ensures h in valid {
      var i := IndexOfKey(txs, h);
      SingleAccepted(txs, utxo, i);
      ValidTxsMember(txs, utxo, i);
    }
    assert valid.Keys == txs.Keys;
  }

  /* ---- Applying a group to the ledger and the block ---- */

  /** `utxo` is `base` after the inputs of the conflict-free block transactions were taken out. */
  ghost predicate Applied(base: UtxoSet, utxo: UtxoSet, blockTx: TxMap) {
    Spendable(blockTx, base) && utxo == base - InputsOf(blockTx)
  }

  lemma InputsOfMember(txs: TxMap, h: Hash)
    requires h in txs
    ensures forall op :: op in txs[h].inputs ==> op in InputsOf(txs)
  {
  }

  lemma InputsOfUnion(s: TxMap, t: TxMap)
    requires forall h <- s.Keys * t.Keys :: s[h] == t[h]
    ensures InputsOf(s + t) == InputsOf(s) + InputsOf(t)
  {
    forall op | op in InputsOf(s) + InputsOf(t) ensures op in InputsOf(s + t) {
      if op in InputsOf(t) {
        var h :| h in t && op in t[h].inputs;
        assert h in s + t && op in (s + t)[h].inputs;
      } else {
        var h :| h in s && op in s[h].inputs;
        assert h in s + t && op in (s + t)[h].inputs;
      }
    }
  }

  lemma ApplyGroup(base: UtxoSet, utxo: UtxoSet, blockTx: TxMap, group: TxMap)
    requires Applied(base, utxo, blockTx) && Spendable(group, utxo)
    requires forall h <- blockTx.Keys * group.Keys :: blockTx[h] == group[h]
    ensures Applied(base, utxo - InputsOf(group), blockTx + group)
  {
    InputsOfUnion(blockTx, group);
    var all := blockTx + group;
    forall h <- all.Keys, k <- all.Keys | h != k ensures !SharesInput(all[h], all[k]) {
      if h in group {
        InputsOfMember(group, h);
        if k in group {
          assert !SharesInput(group[h], group[k]);
        } else {
          InputsOfMember(blockTx, k);
        }
      } else {
        InputsOfMember(blockTx, h);
        if k in group {
          InputsOfMember(group, k);
        } else {
          assert !SharesInput(blockTx[h], blockTx[k]);
        }
      }
    }
  }

  ghost function Merge(groups: seq<TxMap>, chosen: set<nat>, n: nat): TxMap
    requires n <= |groups|
  {
    if n == 0 then map[]
    else Merge(groups, chosen, n - 1) + (if n - 1 in chosen then groups[n - 1] else map[])
  }

  lemma {:induction false} MergeNamed(names: Hash -> Transaction, groups: seq<TxMap>, chosen: set<nat>, n: nat)
    requires n <= |groups| && forall g <- groups :: Named(names, g)
    ensures Named(names, Merge(groups, chosen, n))
  {
    if n > 0 {
      MergeNamed(names, groups, chosen, n - 1);
      assert Named(names, groups[n - 1]);
    }
  }

  lemma {:induction false} MergeMember(groups: seq<TxMap>, chosen: set<nat>, n: nat, h: Hash)
    requires n <= |groups|
    ensures h in Merge(groups, chosen, n) <==> exists i <- chosen :: i < n && h in groups[i]
  {
    if n > 0 {
      MergeMember(groups, chosen, n - 1, h);
      if h in Merge(groups, chosen, n) {
        if h in Merge(groups, chosen, n - 1) {
          var i :| i in chosen && i < n - 1 && h in groups[i];
        } else {
          assert n - 1 in chosen && h in groups[n - 1];
        }
      }
    }
  }

  lemma {:induction false} SpentByStep(groups: seq<TxMap>, chosen: set<nat>, n: nat)
    requires n < |groups|
    ensures SpentBy(groups, chosen + {n}) == SpentBy(groups, chosen) + InputsOf(groups[n])
  {
  }

  lemma AcceptRange(utxo: UtxoSet, groups: seq<TxMap>, n: nat)
    requires n <= |groups|
    ensures forall i <- Accept(utxo, groups, n) :: i < n
  {
    AcceptBelow(utxo, groups, n, n);
    assert forall i <- Below(Accept(utxo, groups, n), n) :: i < n;
  }

  lemma AcceptStep(utxo: UtxoSet, groups: seq<TxMap>, n: nat)
    requires 0 < n <= |groups|
    ensures var before, a := Accept(utxo, groups, n - 1), Accept(utxo, groups, n);
            && (n - 1 in a <==> Spendable(groups[n - 1], utxo - SpentBy(groups, before)))
            && Merge(groups, a, n) == Merge(groups, before, n - 1) + (if n - 1 in a then groups[n - 1] else map[])
            && SpentBy(groups, a) == SpentBy(groups, before) + (if n - 1 in a then InputsOf(groups[n - 1]) else {})
  {
    hide Spendable;
    var before, a := Accept(utxo, groups, n - 1), Accept(utxo, groups, n);
    AcceptRange(utxo, groups, n - 1);
    assert Below(a, n - 1) == Below(before, n - 1);
    MergeChosen(groups, before, a, n - 1);
    SpentByStep(groups, before, n - 1);
  }

  lemma AppliedNothing(utxo: UtxoSet, groups: seq<TxMap>)
    ensures Applied(utxo, utxo - SpentBy(groups, {}), map[])
  {
    assert InputsOf(map[]) == {} && SpentBy(groups, {}) == {};
    assert utxo - {} == utxo;
  }

  /** Accepting droplets in order keeps the ledger and the block in step. */
  lemma {:induction false} ApplyDroplets(names: Hash -> Transaction, utxo: UtxoSet, groups: seq<TxMap>, n: nat)
    requires n <= |groups| && forall g <- groups :: Named(names, g)
    ensures var a := Accept(utxo, groups, n);
            Applied(utxo, utxo - SpentBy(groups, a), Merge(groups, a, n))
    decreases n
  {
    hide Applied, Spendable, InputsOf, SpentBy, Named;
    if n == 0 {
      AppliedNothing(utxo, groups);
    } else {
      var before := Accept(utxo, groups, n - 1);
      ApplyDroplets(names, utxo, groups, n - 1);
      AcceptStep(utxo, groups, n);
      if n - 1 in Accept(utxo, groups, n) {
        MergeNamed(names, groups, before, n - 1);
        assert groups[n - 1] in groups;
        ApplyDroplet(names, utxo, SpentBy(groups, before), Merge(groups, before, n - 1), groups[n - 1]);
      } else {
        assert Merge(groups, before, n - 1) + map[] == Merge(groups, before, n - 1);
      }
    }
  }

  lemma ApplyDroplet(names: Hash -> Transaction, utxo: UtxoSet, spent: set<OutPoint>, blockTx: TxMap, group: TxMap)
    requires Applied(utxo, utxo - spent, blockTx) && Spendable(group, utxo - spent)
    requires Named(names, blockTx) && Named(names, group)
    ensures Applied(utxo, utxo - (spent + InputsOf(group)), blockTx + group)
  {
    ApplyGroup(utxo, utxo - spent, blockTx, group);
    assert utxo - spent - InputsOf(group) == utxo - (spent + InputsOf(group));
  }

  lemma {:induction false} MergeChosen(groups: seq<TxMap>, a: set<nat>, b: set<nat>, n: nat)
    requires n <= |groups| && Below(a, n) == Below(b, n)
    ensures Merge(groups, a, n) == Merge(groups, b, n)
  {
    if n > 0 {
      assert n - 1 in a <==> n - 1 in Below(a, n);
      assert n - 1 in b <==> n - 1 in Below(b, n);
      assert Below(a, n - 1) == Below(Below(a, n), n - 1);
      assert Below(b, n - 1) == Below(Below(b, n), n - 1);
      MergeChosen(groups, a, b, n - 1);
    }
  }
}
