/**
 DRUID droplets on their way from reception at a compute node (src/compute.rs) through the pools into
 a block (src/compute_raft.rs): when each enters whole or not at all.
 */
module Droplets {
  import opened Wrappers
  import opened Collections
  import opened Ledger
  import opened BlockRules
  import opened LedgerCommits
  import opened DruidPool

  /* ---- Routing: specification ---- */

  /** As many transactions as each of them announces, all for one DRUID. */
  ghost predicate IsWholeFor(txs: TxMap, druid: nat) {
    && txs != map[] && Carries(txs, druid)
    && forall h <- txs :: txs[h].druidInfo.value.participants == |txs|
  }

  ghost predicate IsWhole(txs: TxMap) {
    exists druid :: IsWholeFor(txs, druid)
  }

  /** No DRUID transaction among them. */
  ghost predicate IsPlain(txs: TxMap) {
    forall h <- txs.Keys :: txs[h].druidInfo.None?
  }

  ghost predicate PoolsRouted(s: LedgerState) {
    IsPlain(s.txPool) && forall g <- s.druidPool :: IsWhole(g)
  }

  ghost predicate IsRouted(names: Hash -> Transaction, e: Event) {
    match e
    case TransactionsCommitted(txs) => Named(names, txs) && IsPlain(txs)
    case DruidCommitted(droplets) => forall g <- droplets :: Named(names, g) && IsWhole(g)
    case _ => true
  }

  ghost predicate LedgerRouted(names: Hash -> Transaction, s: LedgerState) {
    PoolsNamed(names, s) && PoolsRouted(s)
  }

  lemma GenerateRouted(s: LedgerState)
    requires PoolsRouted(s)
    ensures PoolsRouted(Generate(s))
  {
    hide Accept, SpentBy, Merge, ValidTxs, FirstN, InputsOf, OutputsOf;
    ValidTxsPart(s.txPool, s.base - SpentBy(s.druidPool, Accept(s.base, s.druidPool, |s.druidPool|)));
  }

  /** Every commit of routed items keeps the pools of the ledger routed. */
  lemma CommitRouted(names: Hash -> Transaction, s: LedgerState, e: Event)
    requires LedgerRouted(names, s) && IsRouted(names, e)
    ensures LedgerRouted(names, Commit(s, e))
  {
    hide Generate, OutputsOf, TokenTotal, IsWhole;
    match e
    case FirstBlockReady(_) =>
    case TransactionsCommitted(_) =>
    case DruidCommitted(_) =>
    case BlockReady(info) =>
      if s.blockNum == Some(info.blockNum) && !IsShutdown(s, info) {
        LeftoverNamed(names, ApplyStored(s, info));
        GenerateRouted(ApplyStored(s, info));
      }
  }

  /* ---- Droplets in the block ---- */

  ghost function Chosen(s: LedgerState): set<nat> {
    Accept(s.base, s.druidPool, |s.druidPool|)
  }

  /** Some droplet that the greedy pass accepts holds the transaction. */
  ghost predicate InChosen(s: LedgerState, h: Hash) {
    exists j <- Chosen(s) :: j < |s.druidPool| && h in s.druidPool[j]
  }

  /** The pool brings no DRUID transaction into the block: only accepted droplets do. */
  lemma DropletMember(names: Hash -> Transaction, s: LedgerState, i: nat, h: Hash)
    requires LedgerRouted(names, s) && i < |s.druidPool| && h in s.druidPool[i]
    ensures h in Generate(s).blockTx <==> InChosen(s, h)
  {
    hide Accept, SpentBy, InputsOf, OutputsOf, Merge, ValidTxs, FirstN;
    var base := s.base - SpentBy(s.druidPool, Chosen(s));
    MergeMember(s.druidPool, Chosen(s), |s.druidPool|, h);
    ValidTxsPart(s.txPool, base);
    FirstNPart(ValidTxs(s.txPool, base), BLOCK_SIZE_IN_TX);
    assert Named(names, s.druidPool[i]) && IsWhole(s.druidPool[i]);
    assert names(h).druidInfo.Some?;
    assert h !in s.txPool;
  }

  ghost predicate EntersWhole(s: LedgerState, i: nat)
    requires i < |s.druidPool|
  {
    s.druidPool[i].Keys <= Generate(s).blockTx.Keys
  }

  ghost predicate StaysOut(s: LedgerState, i: nat)
    requires i < |s.druidPool|
  {
    s.druidPool[i].Keys !! Generate(s).blockTx.Keys
  }

  /**
   A droplet of as many transactions as it announced enters the block whole or not at all if and only
   if the greedy pass accepts it, or accepted droplets hold all of its transactions, or none of them.
   */
  lemma DropletsWhole(names: Hash -> Transaction, s: LedgerState, i: nat)
    requires LedgerRouted(names, s) && i < |s.druidPool|
    ensures s.druidPool[i] != map[]
    ensures i in Chosen(s) ==> EntersWhole(s, i) && !StaysOut(s, i)
    ensures EntersWhole(s, i) <==> forall h <- s.druidPool[i].Keys :: InChosen(s, h)
    ensures StaysOut(s, i) <==> forall h <- s.druidPool[i].Keys :: !InChosen(s, h)
  {
    hide Generate, Accept, InChosen;
    var g := s.druidPool[i];
    assert IsWhole(g);
    forall h <- g.Keys ensures h in Generate(s).blockTx <==> InChosen(s, h) {
      DropletMember(names, s, i, h);
    }
    if i in Chosen(s) {
      forall h <- g.Keys ensures InChosen(s, h) {
        ChosenMember(s, i, h);
      }
    }
    var h :| h in g;
  }

  lemma ChosenMember(s: LedgerState, j: nat, h: Hash)
    requires j in Chosen(s) && j < |s.druidPool| && h in s.druidPool[j]
    ensures InChosen(s, h)
  {
  }

  lemma SharedDruid(names: Hash -> Transaction, s: LedgerState, i: nat, j: nat, h: Hash, druid: nat)
    requires LedgerRouted(names, s) && i < |s.druidPool| && j < |s.druidPool|
    requires h in s.druidPool[i] && h in s.druidPool[j] && IsWholeFor(s.druidPool[i], druid)
    ensures IsWholeFor(s.druidPool[j], druid) && |s.druidPool[j]| == |s.druidPool[i]|
  {
    var g, k := s.druidPool[i], s.druidPool[j];
    assert Named(names, g) && Named(names, k) && IsWhole(k);
    var d :| IsWholeFor(k, d);
    assert g[h] == names(h) == k[h];
  }

  /** Another droplet, of the same DRUID and size, that shares some of the transactions but not all. */
  ghost predicate IsTwin(s: LedgerState, i: nat, j: nat, druid: nat)
    requires i < |s.druidPool|
  {
    && j < |s.druidPool| && j != i
    && IsWholeFor(s.druidPool[j], druid) && |s.druidPool[j]| == |s.druidPool[i]|
    && !(s.druidPool[i].Keys !! s.druidPool[j].Keys) && s.druidPool[i].Keys != s.druidPool[j].Keys
  }

  /** A droplet is split only by an accepted twin. */
  lemma SplitBySameDruid(names: Hash -> Transaction, s: LedgerState, i: nat, druid: nat)
    requires LedgerRouted(names, s) && i < |s.druidPool| && IsWholeFor(s.druidPool[i], druid)
    ensures !EntersWhole(s, i) && !StaysOut(s, i) ==> exists j <- Chosen(s) :: IsTwin(s, i, j, druid)
  {
    hide Generate, Accept, IsWholeFor, EntersWhole, StaysOut;
    var g := s.druidPool[i];
    DropletsWhole(names, s, i);
    if !EntersWhole(s, i) && !StaysOut(s, i) {
      var h :| h in g && InChosen(s, h);
      var j :| j in Chosen(s) && j < |s.druidPool| && h in s.druidPool[j];
      SharedDruid(names, s, i, j, h, druid);
      var k :| k in g && !InChosen(s, k);
      assert k !in s.druidPool[j] && IsTwin(s, i, j, druid);
    }
  }

  /** Without another pooled droplet of its DRUID, a droplet enters whole if it is accepted, and not at all otherwise. */
  lemma OnlyDropletWhole(names: Hash -> Transaction, s: LedgerState, i: nat, druid: nat)
    requires LedgerRouted(names, s) && i < |s.druidPool| && IsWholeFor(s.druidPool[i], druid)
    requires forall j: nat | j < |s.druidPool| && j != i :: !IsWholeFor(s.druidPool[j], druid)
    ensures i in Chosen(s) <==> EntersWhole(s, i)
    ensures i !in Chosen(s) <==> StaysOut(s, i)
  {
    hide Generate, Accept, IsWholeFor, EntersWhole, StaysOut, LedgerRouted;
    var g := s.druidPool[i];
    DropletsWhole(names, s, i);
    forall h <- g.Keys | InChosen(s, h) ensures i in Chosen(s) {
      var j :| j in Chosen(s) && j < |s.druidPool| && h in s.druidPool[j];
      SharedDruid(names, s, i, j, h, druid);
    }
    var h :| h in g;
    if i !in Chosen(s) {
      assert !InChosen(s, h);
    }
  }

  /* ---- Two droplets that overlap ---- */

  /** Three transactions for DRUID 7, each announcing two participants and spending an outpoint of its own. */
  function Overlapping(h: Hash): Transaction {
    Transaction([OutPoint(0, h)], [], Some(DruidInfo(7, 2)))
  }

  function OverlappingPair(h: Hash, k: Hash): TxMap {
    map[h := Overlapping(h), k := Overlapping(k)]
  }

  function OverlappingLedger(): LedgerState {
    LedgerState(map[OutPoint(0, 1) := TxOut(0, None), OutPoint(0, 2) := TxOut(0, None), OutPoint(0, 3) := TxOut(0, None)],
                map[], [OverlappingPair(1, 2), OverlappingPair(2, 3)], 0, None, Some(1), map[])
  }

  lemma PairFacts(h: Hash, k: Hash)
    requires h != k
    ensures IsWholeFor(OverlappingPair(h, k), 7) && Named(Overlapping, OverlappingPair(h, k))
    ensures InputsOf(OverlappingPair(h, k)) == {OutPoint(0, h), OutPoint(0, k)} && Conflictless(OverlappingPair(h, k))
  {
    var p := OverlappingPair(h, k);
    assert p.Keys == {h, k} && |p| == |p.Keys|;
    assert OutPoint(0, h) in p[h].inputs && OutPoint(0, k) in p[k].inputs;
    forall x <- p.Keys ensures p[x].inputs == [OutPoint(0, x)] {
    }
  }

  /** Two whole droplets of one DRUID that share a transaction: the second enters the block in part. */
  lemma OverlapSplits()
    ensures var s := OverlappingLedger();
            && LedgerRouted(Overlapping, s)
            && 2 in Generate(s).blockTx && 3 !in Generate(s).blockTx
            && !EntersWhole(s, 1) && !StaysOut(s, 1)
  {
    hide Generate, Accept, InputsOf, Conflictless, IsWholeFor, Named, OverlappingPair;
    var s := OverlappingLedger();
    PairFacts(1, 2);
    PairFacts(2, 3);
    OverlapChosen();
    OverlappingRouted();
    PairMembers(1, 2);
    PairMembers(2, 3);
    DropletMember(Overlapping, s, 1, 2);
    DropletMember(Overlapping, s, 1, 3);
    ChosenMember(s, 0, 2);
  }

  lemma OverlappingRouted()
    ensures LedgerRouted(Overlapping, OverlappingLedger())
  {
    hide IsWholeFor, OverlappingPair;
    PairFacts(1, 2);
    PairFacts(2, 3);
  }

  lemma PairMembers(h: Hash, k: Hash)
    ensures forall x :: x in OverlappingPair(h, k) <==> x == h || x == k
  {
  }

  lemma OverlapChosen()
    ensures Chosen(OverlappingLedger()) == {0}
  {
    hide Accept, InputsOf, Conflictless, OverlappingPair;
    var s := OverlappingLedger();
    var all := Chosen(s);
    PairFacts(1, 2);
    PairFacts(2, 3);
    AcceptRange(s.base, s.druidPool, 2);
    AcceptedExactly(s.base, s.druidPool, 0);
    AcceptedExactly(s.base, s.druidPool, 1);
    assert OutPoint(0, 2) in InputsOf(s.druidPool[1]) && OutPoint(0, 2) in InputsOf(s.druidPool[0]);
  }

  /* ---- Reception at a node ---- */

  const TX_POOL_LIMIT := 10_000_000

  datatype Response = PoolFull | NoneValid | SomeInvalid | Added

  datatype Intake = Intake(druidPool: Pool, localTxPool: TxMap, localDruidPool: seq<TxMap>)

  /** The valid transactions under their hashes, of one of the two kinds. */
  function Hashed(hashOf: Transaction -> Hash, isValid: Transaction -> bool, txs: seq<Transaction>, dde: bool): TxMap {
    if txs == [] then map[]
    else
      var front, tx := Hashed(hashOf, isValid, txs[..|txs| - 1], dde), txs[|txs| - 1];
      if isValid(tx) && tx.druidInfo.Some? == dde then front[hashOf(tx) := tx] else front
  }

  function ValidDroplets(ready: seq<Ready>): seq<TxMap> {
    if ready == [] then []
    else
      var last := ready[|ready| - 1];
      ValidDroplets(ready[..|ready| - 1]) + if last.valid then [last.txs] else []
  }

  ghost predicate AnyInvalid(ready: seq<Ready>) {
    exists r <- ready :: !r.valid
  }

  /** `pooled` counts the node's transactions in flight and committed. */
  ghost function Receive(hashOf: Transaction -> Hash, isValid: Transaction -> bool, met: Expectations, n: Intake, pooled: nat,
                         txs: seq<Transaction>): (Intake, Response)
  {
    var dde, plain := Hashed(hashOf, isValid, txs, true), Hashed(hashOf, isValid, txs, false);
    if |n.localTxPool| + pooled + |txs| > TX_POOL_LIMIT then (n, PoolFull)
    else if |dde| + |plain| == 0 then (n, NoneValid)
    else
      var (druidPool, ready) := Collect(met, n.druidPool, dde, Ascending(dde.Keys));
      (Intake(druidPool, n.localTxPool + plain, n.localDruidPool + ValidDroplets(ready)),
       if |plain| + |dde| < |txs| || AnyInvalid(ready) then SomeInvalid else Added)
  }

  /** The hash is that of a valid transaction of the kind. */
  ghost predicate HashesValid(hashOf: Transaction -> Hash, isValid: Transaction -> bool, txs: seq<Transaction>, dde: bool, h: Hash) {
    exists i :: 0 <= i < |txs| && isValid(txs[i]) && txs[i].druidInfo.Some? == dde && hashOf(txs[i]) == h
  }

  lemma {:induction false} HashedMember(hashOf: Transaction -> Hash, isValid: Transaction -> bool, txs: seq<Transaction>, dde: bool, h: Hash)
    ensures h in Hashed(hashOf, isValid, txs, dde) <==> HashesValid(hashOf, isValid, txs, dde, h)
    decreases |txs|
  {
    if txs != [] {
      var n := |txs| - 1;
      HashedMember(hashOf, isValid, txs[..n], dde, h);
      if i :| 0 <= i < |txs| && isValid(txs[i]) && txs[i].druidInfo.Some? == dde && hashOf(txs[i]) == h && i < n {
        assert txs[..n][i] == txs[i];
      }
    }
  }

  lemma {:induction false} ValidDropletsAre(ready: seq<Ready>)
    ensures forall g :: g in ValidDroplets(ready) <==> exists r <- ready :: r.valid && r.txs == g
    decreases |ready|
  {
    if ready != [] {
      var front, last := ready[..|ready| - 1], ready[|ready| - 1];
      ValidDropletsAre(front);
      assert ready == front + [last];
      assert forall r :: r in ready <==> r in front || r == last;
    }
  }

  ghost predicate AnyValid(isValid: Transaction -> bool, txs: seq<Transaction>) {
    exists i :: 0 <= i < |txs| && isValid(txs[i])
  }

  /** A submission is refused when the pool would overflow, or when nothing in it is valid; then nothing changes. */
  lemma ReceiveRefused(hashOf: Transaction -> Hash, isValid: Transaction -> bool, met: Expectations, n: Intake, pooled: nat,
                       txs: seq<Transaction>)
    ensures var (n', response) := Receive(hashOf, isValid, met, n, pooled, txs);
            var fits := |n.localTxPool| + pooled + |txs| <= 10_000_000;
            && (response == PoolFull <==> !fits)
            && (response == NoneValid <==> fits && !AnyValid(isValid, txs))
            && (response == PoolFull || response == NoneValid ==> n' == n)
  {
    hide Collect, Hashed, ValidDroplets;
    var dde, plain := Hashed(hashOf, isValid, txs, true), Hashed(hashOf, isValid, txs, false);
    if i :| 0 <= i < |txs| && isValid(txs[i]) {
      HashedMember(hashOf, isValid, txs, txs[i].druidInfo.Some?, hashOf(txs[i]));
      assert hashOf(txs[i]) in dde || hashOf(txs[i]) in plain;
      assert |dde| + |plain| != 0;
    } else {
      if |dde| != 0 {
        var h :| h in dde;
        HashedMember(hashOf, isValid, txs, true, h);
      }
      if |plain| != 0 {
        var h :| h in plain;
        HashedMember(hashOf, isValid, txs, false, h);
      }
    }
  }

  /** Otherwise every valid transaction without DRUID is in the local pool, and none but these was added. */
  lemma ReceivePools(hashOf: Transaction -> Hash, isValid: Transaction -> bool, met: Expectations, n: Intake, pooled: nat,
                     txs: seq<Transaction>, h: Hash)
    requires |n.localTxPool| + pooled + |txs| <= TX_POOL_LIMIT && AnyValid(isValid, txs)
    ensures h in Receive(hashOf, isValid, met, n, pooled, txs).0.localTxPool <==>
              h in n.localTxPool || HashesValid(hashOf, isValid, txs, false, h)
  {
    hide Collect, Hashed, ValidDroplets, Ascending, AnyValid, HashesValid;
    ReceiveRefused(hashOf, isValid, met, n, pooled, txs);
    HashedMember(hashOf, isValid, txs, false, h);
  }

  /**
   And every valid DRUID transaction is held for its droplet or in one that became whole, none is lost;
   exactly the whole droplets that are valid join those to propose.
   */
  lemma ReceiveKeepsDruids(hashOf: Transaction -> Hash, isValid: Transaction -> bool, met: Expectations, n: Intake, pooled: nat,
                           txs: seq<Transaction>)
    requires PoolValid(n.druidPool)
    requires |n.localTxPool| + pooled + |txs| <= TX_POOL_LIMIT && AnyValid(isValid, txs)
    ensures var n' := Receive(hashOf, isValid, met, n, pooled, txs).0;
            exists ready: seq<Ready> ::
              && (forall r <- ready :: ReadyWhole(met, r))
              && (forall h :: h in Pooled(n'.druidPool) + Emitted(ready) <==>
                    h in Pooled(n.druidPool) || HashesValid(hashOf, isValid, txs, true, h))
              && IsJoined(n.localDruidPool, ready, n'.localDruidPool)
  {
    hide Collect, Hashed, ValidDroplets, Ascending, PoolValid, Pooled, Emitted, ReadyWhole, AnyValid, HashesValid, IsJoined;
    ReceiveRefused(hashOf, isValid, met, n, pooled, txs);
    var dde := Hashed(hashOf, isValid, txs, true);
    var n' := Receive(hashOf, isValid, met, n, pooled, txs).0;
    var ready := Collect(met, n.druidPool, dde, Ascending(dde.Keys)).1;
    Joined(n.localDruidPool, ready);
    CollectKeeps(met, n.druidPool, dde, Ascending(dde.Keys));
    forall h ensures h in Druids(dde, Ascending(dde.Keys)) <==> HashesValid(hashOf, isValid, txs, true, h) {
      HashedDruid(hashOf, isValid, txs, h);
      HashedMember(hashOf, isValid, txs, true, h);
    }
    assert IsJoined(n.localDruidPool, ready, n'.localDruidPool);
  }

  /** Behind the droplets there were stand exactly the valid ones of those that became whole. */
  ghost predicate IsJoined(before: seq<TxMap>, ready: seq<Ready>, after: seq<TxMap>) {
    && |before| <= |after| && after[..|before|] == before
    && forall g :: g in after[|before|..] <==> exists r <- ready :: r.valid && r.txs == g
  }

  lemma Joined(before: seq<TxMap>, ready: seq<Ready>)
    ensures IsJoined(before, ready, before + ValidDroplets(ready))
  {
    ValidDropletsAre(ready);
    assert (before + ValidDroplets(ready))[|before|..] == ValidDroplets(ready);
  }

  lemma HashedDruid(hashOf: Transaction -> Hash, isValid: Transaction -> bool, txs: seq<Transaction>, h: Hash)
    ensures var dde := Hashed(hashOf, isValid, txs, true); h in Druids(dde, Ascending(dde.Keys)) <==> h in dde
  {
    hide Ascending, Hashed;
    HashedKind(hashOf, isValid, txs, true);
  }

  lemma {:induction false} HashedKind(hashOf: Transaction -> Hash, isValid: Transaction -> bool, txs: seq<Transaction>, dde: bool)
    ensures forall h <- Hashed(hashOf, isValid, txs, dde) :: Hashed(hashOf, isValid, txs, dde)[h].druidInfo.Some? == dde
    decreases |txs|
  {
    if txs != [] {
      HashedKind(hashOf, isValid, txs[..|txs| - 1], dde);
    }
  }

  class ComputeIntake {
    const hashOf: Transaction -> Hash
    const collector: DruidCollector
    var localTxPool: TxMap
    var localTxDruidPool: seq<TxMap>

    ghost function View(): Intake
      reads this, collector
    {
      Intake(collector.druidPool, localTxPool, localTxDruidPool)
    }

    ghost predicate Valid()
      reads this, collector
    {
      PoolValid(collector.druidPool) && IsPlain(localTxPool) && forall g <- localTxDruidPool :: IsWhole(g)
    }

    /** `stored` are the transactions kept in the local database: reception stores plain ones only. */
    constructor (hashOf: Transaction -> Hash, stored: TxMap)
      requires IsPlain(stored)
      ensures Valid() && View() == Intake(map[], stored, []) && this.hashOf == hashOf
    {
      this.hashOf := hashOf;
      collector := new DruidCollector();
      localTxPool, localTxDruidPool := stored, [];
    }

    /** DRUID transactions go to their droplets, all others to the local pool. */
    method ReceiveTransactions(isValid: Transaction -> bool, met: Expectations, pooled: nat, transactions: seq<Transaction>)
      returns (response: Response)
      requires Valid()
      modifies this, collector
      ensures Valid()
      ensures (View(), response) == Receive(hashOf, isValid, met, old(View()), pooled, transactions)
    {
      hide Ascending, PoolValid, IsWhole, IsPlain, Collect, ReadyWhole, Pooled, Emitted, Druids;
      if !(|localTxPool| + pooled + |transactions| <= TX_POOL_LIMIT) {
        return PoolFull;
      }
      var validDdeTxs, validTxs := Partition(isValid, transactions);
      PartitionPlain(hashOf, isValid, transactions);
      var totalValid := |validTxs| + |validDdeTxs|;
      if totalValid == 0 {
        return NoneValid;
      }
      PlainUnion(localTxPool, validTxs);
      localTxPool := localTxPool + validTxs;
      var readyTxs := collector.ValidateDdeTxs(met, validDdeTxs);
      ReadyRouted(met, readyTxs);
      var invalid := AppendReady(readyTxs);
      response := if totalValid < |transactions| || invalid != 0 then SomeInvalid else Added;
    }

    method Partition(isValid: Transaction -> bool, transactions: seq<Transaction>) returns (dde: TxMap, plain: TxMap)
      ensures dde == Hashed(hashOf, isValid, transactions, true)
      ensures plain == Hashed(hashOf, isValid, transactions, false)
    {
      dde, plain := map[], map[];
      for i := 0 to |transactions|
        invariant dde == Hashed(hashOf, isValid, transactions[..i], true)
        invariant plain == Hashed(hashOf, isValid, transactions[..i], false)
      {
        assert transactions[..i + 1][..i] == transactions[..i];
        var tx := transactions[i];
        if isValid(tx) {
          if tx.druidInfo.Some? {
            dde := dde[hashOf(tx) := tx];
          } else {
            plain := plain[hashOf(tx) := tx];
          }
        }
      }
      assert transactions[..|transactions|] == transactions;
    }

    method AppendReady(ready: seq<Ready>) returns (invalid: nat)
      modifies this`localTxDruidPool
      ensures localTxDruidPool == old(localTxDruidPool) + ValidDroplets(ready)
      ensures invalid != 0 <==> AnyInvalid(ready)
    {
      invalid := 0;
      for i := 0 to |ready|
        invariant localTxDruidPool == old(localTxDruidPool) + ValidDroplets(ready[..i])
        invariant invalid != 0 <==> exists j :: 0 <= j < i && !ready[j].valid
      {
        assert ready[..i + 1][..i] == ready[..i];
        if !ready[i].valid {
          invalid := invalid + 1;
        } else {
          localTxDruidPool := localTxDruidPool + [ready[i].txs];
        }
      }
      assert ready[..|ready|] == ready;
    }

    /** Hand over the whole droplets gathered so far for proposal. */
    method TakeLocalDruids() returns (droplets: seq<TxMap>)
      requires Valid()
      modifies this`localTxDruidPool
      ensures Valid() && View() == old(View()).(localDruidPool := [])
      ensures droplets == old(localTxDruidPool) && forall g <- droplets :: IsWhole(g)
    {
      droplets := localTxDruidPool;
      localTxDruidPool := [];
    }
  }

  lemma {:induction false} PartitionPlain(hashOf: Transaction -> Hash, isValid: Transaction -> bool, txs: seq<Transaction>)
    ensures IsPlain(Hashed(hashOf, isValid, txs, false))
    decreases |txs|
  {
    if txs != [] {
      PartitionPlain(hashOf, isValid, txs[..|txs| - 1]);
    }
  }

  lemma PlainUnion(s: TxMap, t: TxMap)
    requires IsPlain(s) && IsPlain(t)
    ensures IsPlain(s + t)
  {
  }

  /** What is handed out as valid is a whole droplet. */
  lemma {:induction false} ReadyRouted(met: Expectations, ready: seq<Ready>)
    requires forall r <- ready :: ReadyWhole(met, r)
    ensures forall g <- ValidDroplets(ready) :: IsWhole(g)
    decreases |ready|
  {
    if ready != [] {
      var front, last := ready[..|ready| - 1], ready[|ready| - 1];
      assert last in ready && forall r <- front :: r in ready;
      ReadyRouted(met, front);
      if last.valid {
        assert IsWholeFor(last.txs, last.druid);
      }
    }
  }

  /* ---- The network: nodes, proposals, the ledger ---- */

  datatype Network = Network(nodes: map<nat, Intake>, proposed: seq<Event>, ledger: LedgerState)

  datatype Action =
    | Receives(node: nat, isValid: Transaction -> bool, met: Expectations, pooled: nat, txs: seq<Transaction>)
    | ProposesTransactions(node: nat, n: nat)
    | ProposesDroplets(node: nat)
    | CommitsProposal(i: nat)
    | CommitsBlock(info: BlockStoredInfo)
    | Restarts(node: nat, stored: TxMap)

  /** A proposal can be committed at any time after it was made, and more than once. */
  ghost function Act(hashOf: Transaction -> Hash, net: Network, a: Action): Network {
    match a
    case Receives(p, isValid, met, pooled, txs) =>
      if p !in net.nodes then net
      else net.(nodes := net.nodes[p := Receive(hashOf, isValid, met, net.nodes[p], pooled, txs).0])
    case ProposesTransactions(p, n) =>
      if p !in net.nodes then net
      else
        var txs := FirstN(net.nodes[p].localTxPool, n);
        net.(nodes := net.nodes[p := net.nodes[p].(localTxPool := net.nodes[p].localTxPool - txs.Keys)],
             proposed := net.proposed + [TransactionsCommitted(txs)])
    case ProposesDroplets(p) =>
      if p !in net.nodes then net
      else
        net.(nodes := net.nodes[p := net.nodes[p].(localDruidPool := [])],
             proposed := net.proposed + [DruidCommitted(net.nodes[p].localDruidPool)])
    case CommitsProposal(i) =>
      if i < |net.proposed| then net.(ledger := Commit(net.ledger, net.proposed[i])) else net
    case CommitsBlock(info) => net.(ledger := Commit(net.ledger, BlockReady(info)))
    case Restarts(p, stored) => net.(nodes := net.nodes[p := Intake(map[], stored, [])])
  }

  /** Hashing has an inverse: a hash names one transaction. */
  ghost predicate Inverse(names: Hash -> Transaction, hashOf: Transaction -> Hash) {
    forall tx :: names(hashOf(tx)) == tx
  }

  ghost predicate PoolNamed(names: Hash -> Transaction, pool: Pool) {
    forall d <- pool :: Named(names, pool[d].txs)
  }

  ghost predicate IntakeRouted(names: Hash -> Transaction, n: Intake) {
    && PoolValid(n.druidPool) && PoolNamed(names, n.druidPool)
    && Named(names, n.localTxPool) && IsPlain(n.localTxPool)
    && forall g <- n.localDruidPool :: Named(names, g) && IsWhole(g)
  }

  ghost predicate NetworkRouted(names: Hash -> Transaction, net: Network) {
    && (forall p <- net.nodes :: IntakeRouted(names, net.nodes[p]))
    && (forall e <- net.proposed :: IsRouted(names, e))
    && LedgerRouted(names, net.ledger)
  }

  /** A restarting node finds in its database plain transactions under their hashes. */
  ghost predicate LegalAction(names: Hash -> Transaction, a: Action) {
    a.Restarts? ==> Named(names, a.stored) && IsPlain(a.stored)
  }

  lemma {:induction false} HashedNamed(names: Hash -> Transaction, hashOf: Transaction -> Hash, isValid: Transaction -> bool,
                                       txs: seq<Transaction>, dde: bool)
    requires Inverse(names, hashOf)
    ensures Named(names, Hashed(hashOf, isValid, txs, dde))
    decreases |txs|
  {
    if txs != [] {
      HashedNamed(names, hashOf, isValid, txs[..|txs| - 1], dde);
    }
  }

  lemma KeyNamed(names: Hash -> Transaction, txs: TxMap, h: Hash)
    requires Named(names, txs) && h in txs
    ensures txs[h] == names(h)
  {
  }

  lemma StepNamed(names: Hash -> Transaction, met: Expectations, pool: Pool, h: Hash, tx: Transaction)
    requires PoolNamed(names, pool) && tx == names(h)
    ensures var (after, more) := DruidPool.Step(met, pool, h, tx);
            PoolNamed(names, after) && forall r <- more :: Named(names, r.txs)
  {
    hide ParticipantsAgree, Carries;
  }

  lemma {:induction false} CollectNamed(names: Hash -> Transaction, met: Expectations, pool: Pool, txs: TxMap, ks: seq<Hash>)
    requires PoolNamed(names, pool) && Named(names, txs) && forall k <- ks :: k in txs
    ensures var (after, ready) := Collect(met, pool, txs, ks);
            PoolNamed(names, after) && forall r <- ready :: Named(names, r.txs)
    decreases |ks|
  {
    hide DruidPool.Step, Named, PoolNamed;
    if ks != [] {
      var front, h := ks[..|ks| - 1], ks[|ks| - 1];
      CollectNamed(names, met, pool, txs, front);
      KeyNamed(names, txs, h);
      StepNamed(names, met, Collect(met, pool, txs, front).0, h, txs[h]);
    }
  }

  lemma {:induction false} ValidDropletsNamed(names: Hash -> Transaction, ready: seq<Ready>)
    requires forall r <- ready :: Named(names, r.txs)
    ensures forall g <- ValidDroplets(ready) :: Named(names, g)
    decreases |ready|
  {
    if ready != [] {
      ValidDropletsNamed(names, ready[..|ready| - 1]);
    }
  }

  lemma ReceiveRouted(names: Hash -> Transaction, hashOf: Transaction -> Hash, isValid: Transaction -> bool, met: Expectations,
                      n: Intake, pooled: nat, txs: seq<Transaction>)
    requires Inverse(names, hashOf) && IntakeRouted(names, n)
    ensures IntakeRouted(names, Receive(hashOf, isValid, met, n, pooled, txs).0)
  {
    hide Ascending, PoolValid, PoolNamed, IsWhole, IsPlain, Named, Collect, ReadyWhole, Inverse, Hashed;
    var dde, plain := Hashed(hashOf, isValid, txs, true), Hashed(hashOf, isValid, txs, false);
    HashedNamed(names, hashOf, isValid, txs, true);
    HashedNamed(names, hashOf, isValid, txs, false);
    PartitionPlain(hashOf, isValid, txs);
    PlainUnion(n.localTxPool, plain);
    NamedUnion(names, n.localTxPool, plain);
    CollectKeeps(met, n.druidPool, dde, Ascending(dde.Keys));
    CollectNamed(names, met, n.druidPool, dde, Ascending(dde.Keys));
    var ready := Collect(met, n.druidPool, dde, Ascending(dde.Keys)).1;
    ReadyRouted(met, ready);
    ValidDropletsNamed(names, ready);
  }

  /** Every action keeps plain transactions and whole droplets on their own routes. */
  lemma ActRouted(names: Hash -> Transaction, hashOf: Transaction -> Hash, net: Network, a: Action)
    requires Inverse(names, hashOf) && NetworkRouted(names, net) && LegalAction(names, a)
    ensures NetworkRouted(names, Act(hashOf, net, a))
  {
    hide Receive, Commit, FirstN, PoolValid, PoolNamed, IsWhole, Inverse, LedgerRouted;
    match a
    case Receives(p, isValid, met, pooled, txs) =>
      if p in net.nodes {
        ReceiveRouted(names, hashOf, isValid, met, net.nodes[p], pooled, txs);
      }
    case ProposesTransactions(p, n) =>
      if p in net.nodes {
        FirstNPart(net.nodes[p].localTxPool, n);
      }
    case ProposesDroplets(p) =>
    case CommitsProposal(i) =>
      if i < |net.proposed| {
        assert net.proposed[i] in net.proposed;
        CommitRouted(names, net.ledger, net.proposed[i]);
      }
    case CommitsBlock(info) =>
      CommitRouted(names, net.ledger, BlockReady(info));
    case Restarts(_, stored) =>
      NewIntakeRouted(names, stored);
  }

  lemma NewIntakeRouted(names: Hash -> Transaction, stored: TxMap)
    requires Named(names, stored) && IsPlain(stored)
    ensures IntakeRouted(names, Intake(map[], stored, []))
  {
  }

  /** Nodes that just started, on a ledger whose pools are empty. */
  ghost function NewNetwork(nodes: set<nat>, utxo: UtxoSet, circulation: nat, blockNum: Option<nat>): Network {
    Network(map p | p in nodes :: Intake(map[], map[], []), [], LedgerState(utxo, map[], [], circulation, None, blockNum, map[]))
  }

  lemma NewNetworkRouted(names: Hash -> Transaction, nodes: set<nat>, utxo: UtxoSet, circulation: nat, blockNum: Option<nat>)
    ensures NetworkRouted(names, NewNetwork(nodes, utxo, circulation, blockNum))
  {
    forall p <- nodes {
      NewIntakeRouted(names, map[]);
    }
  }

  ghost function NetworkRun(hashOf: Transaction -> Hash, net: Network, actions: seq<Action>): Network {
    if actions == [] then net
    else Act(hashOf, NetworkRun(hashOf, net, actions[..|actions| - 1]), actions[|actions| - 1])
  }

  lemma {:induction false} RunRouted(names: Hash -> Transaction, hashOf: Transaction -> Hash, net: Network, actions: seq<Action>)
    requires Inverse(names, hashOf) && NetworkRouted(names, net) && forall a <- actions :: LegalAction(names, a)
    ensures NetworkRouted(names, NetworkRun(hashOf, net, actions))
    decreases |actions|
  {
    hide Inverse, NetworkRouted, Act, LegalAction;
    if actions != [] {
      RunRouted(names, hashOf, net, actions[..|actions| - 1]);
      ActRouted(names, hashOf, NetworkRun(hashOf, net, actions[..|actions| - 1]), actions[|actions| - 1]);
    }
  }

  /**
   Over every run from reception to the block: each pooled droplet has as many transactions as each of
   them announced for its one DRUID, and fares in the next block as `IsFate` says.
   */
  lemma RunDropletsWhole(names: Hash -> Transaction, hashOf: Transaction -> Hash, net: Network, actions: seq<Action>,
                         info: BlockStoredInfo, i: nat)
    requires Inverse(names, hashOf) && NetworkRouted(names, net) && forall a <- actions :: LegalAction(names, a)
    requires i < |NetworkRun(hashOf, net, actions).ledger.druidPool|
    ensures exists druid :: IsFate(ApplyStored(NetworkRun(hashOf, net, actions).ledger, info), i, druid)
  {
    hide Inverse, NetworkRun, LegalAction, IsFate, LedgerRouted;
    RunRouted(names, hashOf, net, actions);
    var s := NetworkRun(hashOf, net, actions).ledger;
    StoredRouted(names, s, info);
    DropletFate(names, ApplyStored(s, info), i);
  }

  lemma StoredRouted(names: Hash -> Transaction, s: LedgerState, info: BlockStoredInfo)
    requires LedgerRouted(names, s)
    ensures LedgerRouted(names, ApplyStored(s, info)) && ApplyStored(s, info).druidPool == s.druidPool
  {
    hide IsWhole, IsPlain, Named, OutputsOf, TokenTotal;
  }

  /**
   When it is the only one pooled for its DRUID, a droplet enters the block whole or not at all; and
   when it is split, an accepted one of its DRUID and size shares some of it, but not all.
   */
  ghost predicate IsFate(s: LedgerState, i: nat, druid: nat)
    requires i < |s.druidPool|
  {
    && IsWholeFor(s.druidPool[i], druid)
    && ((forall j: nat | j < |s.druidPool| && j != i :: !IsWholeFor(s.druidPool[j], druid)) ==> EntersWhole(s, i) || StaysOut(s, i))
    && (!EntersWhole(s, i) && !StaysOut(s, i) ==> exists j <- Chosen(s) :: IsTwin(s, i, j, druid))
  }

  lemma DropletFate(names: Hash -> Transaction, s: LedgerState, i: nat)
    requires LedgerRouted(names, s) && i < |s.druidPool|
    ensures exists druid :: IsFate(s, i, druid)
  {
    hide IsWholeFor, EntersWhole, StaysOut, Chosen, IsTwin, Named;
    assert IsWhole(s.druidPool[i]);
    var druid :| IsWholeFor(s.druidPool[i], druid);
    SplitBySameDruid(names, s, i, druid);
    if forall j: nat | j < |s.druidPool| && j != i :: !IsWholeFor(s.druidPool[j], druid) {
      OnlyDropletWhole(names, s, i, druid);
    }
    assert IsFate(s, i, druid);
  }

  /** So it is over every run of nodes that started with empty pools, from any ledger. */
  lemma NewNetworkDropletsWhole(names: Hash -> Transaction, hashOf: Transaction -> Hash, nodes: set<nat>, utxo: UtxoSet,
                                circulation: nat, blockNum: Option<nat>, actions: seq<Action>, info: BlockStoredInfo, i: nat)
    requires Inverse(names, hashOf) && forall a <- actions :: LegalAction(names, a)
    requires i < |NetworkRun(hashOf, NewNetwork(nodes, utxo, circulation, blockNum), actions).ledger.druidPool|
    ensures exists druid ::
              IsFate(ApplyStored(NetworkRun(hashOf, NewNetwork(nodes, utxo, circulation, blockNum), actions).ledger, info), i, druid)
  {
    hide Inverse, LegalAction, NetworkRouted, NewNetwork, IsFate, NetworkRun;
    NewNetworkRouted(names, nodes, utxo, circulation, blockNum);
    RunDropletsWhole(names, hashOf, NewNetwork(nodes, utxo, circulation, blockNum), actions, info, i);
  }

  /* ---- The overlapping droplets, from reception on ---- */

  const EMPTY_INTAKE := Intake(map[], map[], [])

  /** A node that receives a pair makes it a droplet: all transactions are valid, all expectations met. */
  ghost function ReceivesPair(h: Hash, k: Hash): Action {
    Receives(0, tx => true, (druid, txs) => true, 0, [Overlapping(h), Overlapping(k)])
  }

  lemma PairOrder(h: Hash, k: Hash)
    requires h < k
    ensures Ascending(OverlappingPair(h, k).Keys) == [h, k]
  {
    hide Ascending;
    var p := OverlappingPair(h, k);
    var ks := Ascending(p.Keys);
    assert |ks| == |p.Keys| == 2 by {
      assert p.Keys == {h, k};
    }
    assert ks[0] in ks && ks[1] in ks;
  }

  lemma PairCollected(met: Expectations, h: Hash, k: Hash)
    requires h < k && met(7, OverlappingPair(h, k))
    ensures var p := OverlappingPair(h, k);
            h in p && k in p && Collect(met, map[], p, [h, k]) == (map[], [Ready(true, 7, p)])
  {
    var p := OverlappingPair(h, k);
    var one: TxMap := map[h := Overlapping(h)];
    assert p == one[k := Overlapping(k)] && |p.Keys| == 2 && |p| == 2 by {
      assert p.Keys == {h, k};
    }
    var pool: Pool := map[7 := DruidDroplet(2, one)];
    assert Collect(met, map[], p, []) == (map[], []);
    assert DruidPool.Step(met, map[], h, Overlapping(h)) == (pool, []);
    var none: seq<Ready> := [];
    assert p[h] == Overlapping(h) && p[k] == Overlapping(k) && none + none == none;
    CollectStep(met, map[], p, [], h);
    assert [] + [h] == [h] && [h] + [k] == [h, k];
    assert Collect(met, map[], p, [h]) == (pool, none);
    assert Entered(pool, k, Overlapping(k)) == DruidDroplet(2, p);
    assert pool - {7} == map[];
    assert DruidPool.Step(met, pool, k, Overlapping(k)) == (map[], [Ready(true, 7, p)]);
    CollectStep(met, map[], p, [h], k);
    assert none + [Ready(true, 7, p)] == [Ready(true, 7, p)];
  }

  lemma CollectStep(met: Expectations, pool: Pool, txs: TxMap, ks: seq<Hash>, k: Hash)
    requires k in txs && forall x <- ks :: x in txs
    ensures var (before, ready) := Collect(met, pool, txs, ks);
            var (after, more) := DruidPool.Step(met, before, k, txs[k]);
            Collect(met, pool, txs, ks + [k]) == (after, ready + more)
  {
    assert (ks + [k])[..|ks + [k]| - 1] == ks;
  }

  lemma PairReceived(hashOf: Transaction -> Hash, h: Hash, k: Hash)
    requires h < k && hashOf(Overlapping(h)) == h && hashOf(Overlapping(k)) == k
    ensures var a := ReceivesPair(h, k);
            Receive(hashOf, a.isValid, a.met, EMPTY_INTAKE, 0, a.txs).0 == Intake(map[], map[], [OverlappingPair(h, k)])
  {
    hide Ascending, Collect, Hashed, OverlappingPair;
    var a, p := ReceivesPair(h, k), OverlappingPair(h, k);
    PairHashed(hashOf, a, h, k);
    PairOrder(h, k);
    PairCollected(a.met, h, k);
    assert |p| > 0 by {
      assert h in p;
    }
    var ready := [Ready(true, 7, p)];
    assert ready[..0] == [] && ValidDroplets(ready[..0]) == [] && ValidDroplets(ready) == [p];
    assert EMPTY_INTAKE.localTxPool + map[] == map[];
  }

  lemma PairHashed(hashOf: Transaction -> Hash, a: Action, h: Hash, k: Hash)
    requires h < k && hashOf(Overlapping(h)) == h && hashOf(Overlapping(k)) == k && a == ReceivesPair(h, k)
    ensures Hashed(hashOf, a.isValid, a.txs, true) == OverlappingPair(h, k) && Hashed(hashOf, a.isValid, a.txs, false) == map[]
  {
    var txs := [Overlapping(h), Overlapping(k)];
    assert txs[..1] == [Overlapping(h)] && txs[..1][..0] == [];
    assert Hashed(hashOf, a.isValid, txs[..1], true) == map[h := Overlapping(h)];
    assert Hashed(hashOf, a.isValid, txs[..1], false) == map[];
  }

  ghost function OverlappingActions(): seq<Action> {
    [ReceivesPair(1, 2), ProposesDroplets(0), ReceivesPair(2, 3), ProposesDroplets(0), CommitsProposal(0), CommitsProposal(1)]
  }

  lemma PairComesIn(hashOf: Transaction -> Hash, proposed: seq<Event>, s: LedgerState, h: Hash, k: Hash)
    requires h < k && hashOf(Overlapping(h)) == h && hashOf(Overlapping(k)) == k
    ensures Act(hashOf, Network(map[0 := EMPTY_INTAKE], proposed, s), ReceivesPair(h, k))
            == Network(map[0 := Intake(map[], map[], [OverlappingPair(h, k)])], proposed, s)
  {
    hide Receive, OverlappingPair;
    PairReceived(hashOf, h, k);
  }

  lemma PairGoesOut(hashOf: Transaction -> Hash, proposed: seq<Event>, s: LedgerState, p: TxMap)
    ensures Act(hashOf, Network(map[0 := Intake(map[], map[], [p])], proposed, s), ProposesDroplets(0))
            == Network(map[0 := EMPTY_INTAKE], proposed + [DruidCommitted([p])], s)
  {
  }

  lemma PairCommits(hashOf: Transaction -> Hash, net: Network, i: nat, p: TxMap)
    requires i < |net.proposed| && net.proposed[i] == DruidCommitted([p])
    ensures Act(hashOf, net, CommitsProposal(i)) == net.(ledger := net.ledger.(druidPool := net.ledger.druidPool + [p]))
  {
  }

  lemma PairsProposed(hashOf: Transaction -> Hash)
    requires forall h :: 1 <= h <= 3 ==> hashOf(Overlapping(h)) == h
    ensures var n0 := NewNetwork({0}, OverlappingLedger().base, 0, Some(1));
            NetworkRun(hashOf, n0, OverlappingActions()[..4])
            == Network(map[0 := EMPTY_INTAKE],
                       [DruidCommitted([OverlappingPair(1, 2)]), DruidCommitted([OverlappingPair(2, 3)])], n0.ledger)
  {
    hide Act, OverlappingPair, Overlapping;
    var p, q := OverlappingPair(1, 2), OverlappingPair(2, 3);
    var n0, all := NewNetwork({0}, OverlappingLedger().base, 0, Some(1)), OverlappingActions();
    var s0, c0, c1 := n0.ledger, DruidCommitted([p]), DruidCommitted([q]);
    assert n0.nodes == map[0 := EMPTY_INTAKE];
    assert all[..0] == [] && [] + [c0] == [c0] && [c0] + [c1] == [c0, c1];
    PairComesIn(hashOf, [], s0, 1, 2);
    RunStep(hashOf, n0, all, 0);
    PairGoesOut(hashOf, [], s0, p);
    RunStep(hashOf, n0, all, 1);
    PairComesIn(hashOf, [c0], s0, 2, 3);
    RunStep(hashOf, n0, all, 2);
    PairGoesOut(hashOf, [c0], s0, q);
    RunStep(hashOf, n0, all, 3);
  }

  /**
   One node receives and proposes the two overlapping droplets one after the other, and both commit: from
   there the second enters the next block in part.
   */
  lemma OverlapReached(hashOf: Transaction -> Hash)
    requires forall h :: 1 <= h <= 3 ==> hashOf(Overlapping(h)) == h
    ensures var net := NewNetwork({0}, OverlappingLedger().base, 0, Some(1));
            var s := NetworkRun(hashOf, net, OverlappingActions()).ledger;
            s == OverlappingLedger() && !EntersWhole(s, 1) && !StaysOut(s, 1)
  {
    hide NetworkRun, Generate, LedgerRouted, EntersWhole, StaysOut, OverlappingLedger, NewNetwork, OverlappingPair, OverlappingActions, Overlapping;
    OverlapSplits();
    PairsProposed(hashOf);
    BothPooled();
    PairsCommitted(hashOf, NewNetwork({0}, OverlappingLedger().base, 0, Some(1)));
  }

  lemma BothPooled()
    ensures var s := NewNetwork({0}, OverlappingLedger().base, 0, Some(1)).ledger;
            s.druidPool == [] && s.(druidPool := [OverlappingPair(1, 2), OverlappingPair(2, 3)]) == OverlappingLedger()
  {
    hide OverlappingPair;
  }

  lemma PairsCommitted(hashOf: Transaction -> Hash, net: Network)
    requires net.ledger.druidPool == []
    requires NetworkRun(hashOf, net, OverlappingActions()[..4])
             == Network(map[0 := EMPTY_INTAKE], [DruidCommitted([OverlappingPair(1, 2)]), DruidCommitted([OverlappingPair(2, 3)])], net.ledger)
    ensures NetworkRun(hashOf, net, OverlappingActions()).ledger
            == net.ledger.(druidPool := [OverlappingPair(1, 2), OverlappingPair(2, 3)])
  {
    hide Act, NetworkRun, OverlappingPair, ReceivesPair;
    var p, q, all := OverlappingPair(1, 2), OverlappingPair(2, 3), OverlappingActions();
    var n4 := NetworkRun(hashOf, net, all[..4]);
    var n5 := n4.(ledger := n4.ledger.(druidPool := [p]));
    assert [] + [p] == [p] && [p] + [q] == [p, q];
    RunStep(hashOf, net, all, 4);
    PairCommits(hashOf, n4, 0, p);
    assert NetworkRun(hashOf, net, all[..5]) == n5;
    RunStep(hashOf, net, all, 5);
    PairCommits(hashOf, n5, 1, q);
    assert all[..6] == all;
  }

  lemma RunStep(hashOf: Transaction -> Hash, net: Network, actions: seq<Action>, i: nat)
    requires i < |actions|
    ensures NetworkRun(hashOf, net, actions[..i + 1]) == Act(hashOf, NetworkRun(hashOf, net, actions[..i]), actions[i])
  {
    assert actions[..i + 1][..i] == actions[..i];
  }
}
