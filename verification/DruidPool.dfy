/** Collecting the transactions of DRUID droplets until each is complete, src/compute.rs. */
module DruidPool {
  import opened Wrappers
  import opened Collections
  import opened Ledger

  datatype DruidDroplet = DruidDroplet(participants: nat, txs: TxMap)

  type Pool = map<nat, DruidDroplet>

  /** A droplet that has all its transactions, and whether it may be executed. */
  datatype Ready = Ready(valid: bool, druid: nat, txs: TxMap)

  /** The foreign check that the expectations of a droplet are met. */
  type Expectations = (nat, TxMap) -> bool

  /* ---- Specification ---- */

  predicate ParticipantsAgree(droplet: DruidDroplet) {
    forall h <- droplet.txs :: droplet.txs[h].druidInfo.Some? && droplet.txs[h].druidInfo.value.participants == droplet.participants
  }

  function Entered(pool: Pool, h: Hash, tx: Transaction): DruidDroplet
    requires tx.druidInfo.Some?
  {
    var info := tx.druidInfo.value;
    var droplet := if info.druid in pool then pool[info.druid] else DruidDroplet(info.participants, map[]);
    droplet.(txs := droplet.txs[h := tx])
  }

  function Step(met: Expectations, pool: Pool, h: Hash, tx: Transaction): (Pool, seq<Ready>) {
    if tx.druidInfo.None? then (pool, [])
    else
      var druid, droplet := tx.druidInfo.value.druid, Entered(pool, h, tx);
      if |droplet.txs| == droplet.participants then
        (pool - {druid}, [Ready(met(druid, droplet.txs) && ParticipantsAgree(droplet), druid, droplet.txs)])
      else
        (pool[druid := droplet], [])
  }

  function Collect(met: Expectations, pool: Pool, txs: TxMap, ks: seq<Hash>): (Pool, seq<Ready>)
    requires forall k <- ks :: k in txs
  {
    if ks == [] then (pool, [])
    else
      var (before, ready) := Collect(met, pool, txs, ks[..|ks| - 1]);
      var (after, more) := Step(met, before, ks[|ks| - 1], txs[ks[|ks| - 1]]);
      (after, ready + more)
  }

  ghost predicate Carries(txs: TxMap, druid: nat) {
    forall h <- txs :: txs[h].druidInfo.Some? && txs[h].druidInfo.value.druid == druid
  }

  /** A pooled droplet is still short of its participants; one that announced none never completes. */
  ghost predicate PoolValid(pool: Pool) {
    forall d <- pool ::
      && Carries(pool[d].txs, d)
      && 0 < |pool[d].txs|
      && (pool[d].participants == 0 || |pool[d].txs| < pool[d].participants)
  }

  /** A ready droplet is whole, and executable exactly when all its transactions announce its size. */
  ghost predicate ReadyWhole(met: Expectations, r: Ready) {
    && r.txs != map[] && Carries(r.txs, r.druid)
    && (r.valid <==> met(r.druid, r.txs) && forall h <- r.txs :: r.txs[h].druidInfo.value.participants == |r.txs|)
  }

  ghost function Pooled(pool: Pool): set<Hash> {
    set d <- pool, h <- pool[d].txs :: h
  }

  ghost function Emitted(ready: seq<Ready>): set<Hash> {
    set r <- ready, h <- r.txs :: h
  }

  ghost function Druids(txs: TxMap, ks: seq<Hash>): set<Hash> {
    set h | h in ks && h in txs && txs[h].druidInfo.Some?
  }

  /* ---- The code ---- */

  class DruidCollector {
    var druidPool: Pool

    constructor ()
      ensures druidPool == map[] && PoolValid(druidPool)
    {
      druidPool := map[];
    }

    method ValidateDdeTxs(met: Expectations, transactions: TxMap) returns (readyTxs: seq<Ready>)
      requires PoolValid(druidPool)
      modifies this
      ensures PoolValid(druidPool)
      ensures (druidPool, readyTxs) == Collect(met, old(druidPool), transactions, Ascending(transactions.Keys))
      ensures forall r <- readyTxs :: ReadyWhole(met, r)
      ensures Pooled(druidPool) + Emitted(readyTxs)
              == Pooled(old(druidPool)) + Druids(transactions, Ascending(transactions.Keys))
    {
      hide Ascending, Step, PoolValid, ReadyWhole, Pooled, Emitted, Druids;
      readyTxs := [];
      var ks := Ascending(transactions.Keys);
      for i := 0 to |ks|
        invariant (druidPool, readyTxs) == Collect(met, old(druidPool), transactions, ks[..i])
      {
        assert ks[..i + 1][..i] == ks[..i];
        var more := EnterTx(met, ks[i], transactions[ks[i]]);
        readyTxs := readyTxs + more;
      }
      assert ks[..|ks|] == ks;
      CollectKeeps(met, old(druidPool), transactions, ks);
    }

    /** The loop body: enter one transaction, and hand out its droplet when that completes it. */
    method EnterTx(met: Expectations, txHash: Hash, tx: Transaction) returns (more: seq<Ready>)
      modifies this
      ensures (druidPool, more) == Step(met, old(druidPool), txHash, tx)
    {
      more := [];
      if tx.druidInfo.Some? {
        var druid, participants := tx.druidInfo.value.druid, tx.druidInfo.value.participants;
        if druid !in druidPool {
          druidPool := druidPool[druid := DruidDroplet(participants, map[])];
        }
        var droplet := druidPool[druid];
        droplet := droplet.(txs := droplet.txs[txHash := tx]);
        druidPool := druidPool[druid := droplet];
        assert druidPool == old(druidPool)[druid := droplet];
        if |droplet.txs| == droplet.participants {
          more := [Ready(met(druid, droplet.txs) && ParticipantsAgree(droplet), druid, droplet.txs)];
          druidPool := druidPool - {druid};
          assert druidPool == old(druidPool) - {druid};
        }
      }
    }
  }

  lemma EnteredKeeps(pool: Pool, h: Hash, tx: Transaction)
    requires PoolValid(pool) && tx.druidInfo.Some?
    ensures var d, droplet := tx.druidInfo.value.druid, Entered(pool, h, tx);
            && Carries(droplet.txs, d) && 0 < |droplet.txs|
            && droplet.txs.Keys == (if d in pool then pool[d].txs.Keys else {}) + {h}
            && (droplet.participants == 0 || |droplet.txs| <= droplet.participants)
  {
    var d, droplet := tx.druidInfo.value.druid, Entered(pool, h, tx);
    var before: TxMap := if d in pool then pool[d].txs else map[];
    assert droplet.txs == before[h := tx];
    assert |droplet.txs| <= |before| + 1 by {
      if h in before {
        assert droplet.txs.Keys == before.Keys;
      }
    }
    assert h in droplet.txs;
  }

  lemma StepValid(met: Expectations, pool: Pool, h: Hash, tx: Transaction)
    requires PoolValid(pool)
    ensures PoolValid(Step(met, pool, h, tx).0)
    ensures forall r <- Step(met, pool, h, tx).1 :: ReadyWhole(met, r)
  {
    if tx.druidInfo.Some? {
      EnteredKeeps(pool, h, tx);
      hide Entered;
    }
  }

  lemma StepKeepsTxs(met: Expectations, pool: Pool, h: Hash, tx: Transaction)
    requires PoolValid(pool)
    ensures var (after, more) := Step(met, pool, h, tx);
            Pooled(after) + Emitted(more) == Pooled(pool) + if tx.druidInfo.Some? then {h} else {}
  {
    hide Entered, Pooled, Emitted, PoolValid, Carries, ParticipantsAgree;
    if tx.druidInfo.Some? {
      EnteredKeeps(pool, h, tx);
      var d, droplet := tx.druidInfo.value.druid, Entered(pool, h, tx);
      EnteredPooled(pool, d, droplet, h);
      if |droplet.txs| == droplet.participants {
        var r := Ready(met(d, droplet.txs) && ParticipantsAgree(droplet), d, droplet.txs);
        EmittedOne(r);
        assert Step(met, pool, h, tx) == (pool - {d}, [r]);
      } else {
        EmittedNone();
        assert Step(met, pool, h, tx) == (pool[d := droplet], []);
      }
    } else {
      EmittedNone();
    }
  }

  lemma EnteredPooled(pool: Pool, d: nat, droplet: DruidDroplet, h: Hash)
    requires droplet.txs.Keys == (if d in pool then pool[d].txs.Keys else {}) + {h}
    ensures Pooled(pool - {d}) + droplet.txs.Keys == Pooled(pool) + {h}
    ensures Pooled(pool[d := droplet]) == Pooled(pool) + {h}
  {
    hide Pooled;
    PooledSplit(pool, d);
    PooledSplit(pool[d := droplet], d);
    assert pool[d := droplet] - {d} == pool - {d};
  }

  lemma EmittedNone()
    ensures Emitted([]) == {}
  {
  }

  lemma EmittedOne(r: Ready)
    ensures Emitted([r]) == r.txs.Keys
  {
    forall h <- r.txs ensures h in Emitted([r]) {
      assert r in [r] && h in r.txs;
    }
  }

  lemma EmittedMore(ready: seq<Ready>, more: seq<Ready>)
    ensures Emitted(ready + more) == Emitted(ready) + Emitted(more)
  {
    forall h | h in Emitted(ready) + Emitted(more) ensures h in Emitted(ready + more) {
      var r :| (r in ready || r in more) && h in r.txs;
      assert r in ready + more;
    }
  }

  lemma DruidsMore(txs: TxMap, ks: seq<Hash>, h: Hash)
    requires h in txs
    ensures Druids(txs, ks + [h]) == Druids(txs, ks) + if txs[h].druidInfo.Some? then {h} else {}
  {
  }

  lemma PooledSplit(pool: Pool, d: nat)
    ensures Pooled(pool) == Pooled(pool - {d}) + if d in pool then pool[d].txs.Keys else {}
  {
    var rest := pool - {d};
    forall h | h in Pooled(rest) ensures h in Pooled(pool) {
      var e :| e in rest && h in rest[e].txs;
      assert e in pool && h in pool[e].txs;
    }
    forall h | h in Pooled(pool) ensures h in Pooled(rest) || (d in pool && h in pool[d].txs) {
      var e :| e in pool && h in pool[e].txs;
      if e != d {
        assert e in rest && h in rest[e].txs;
      }
    }
  }

  /** Over a batch: droplets leave the pool whole, and no DRUID transaction is lost or made up. */
  lemma {:induction false} CollectKeeps(met: Expectations, pool: Pool, txs: TxMap, ks: seq<Hash>)
    requires PoolValid(pool) && forall k <- ks :: k in txs
    ensures var (after, ready) := Collect(met, pool, txs, ks);
            && PoolValid(after)
            && (forall r <- ready :: ReadyWhole(met, r))
            && Pooled(after) + Emitted(ready) == Pooled(pool) + Druids(txs, ks)
    decreases |ks|
  {
    hide PoolValid, ReadyWhole, Step, Pooled, Emitted;
    if ks == [] {
      EmittedNone();
      assert Druids(txs, ks) == {};
    } else {
      var front, h := ks[..|ks| - 1], ks[|ks| - 1];
      CollectKeeps(met, pool, txs, front);
      var (before, ready) := Collect(met, pool, txs, front);
      StepValid(met, before, h, txs[h]);
      StepKeepsTxs(met, before, h, txs[h]);
      var (after, more) := Step(met, before, h, txs[h]);
      assert ks == front + [h];
      DruidsMore(txs, front, h);
      EmittedMore(ready, more);
    }
  }
}
