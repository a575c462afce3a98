/** The UTXO set with its address index, src/tracked_utxo.rs. */
module TrackedUtxo {
  import opened Wrappers
  import opened Collections
  import opened Ledger
  import ModularArithmetic

  type PkCache = map<Address, set<OutPoint>>

  /* ---- Specification ---- */

  function Cached(cache: PkCache, a: Address): set<OutPoint> {
    if a in cache then cache[a] else {}
  }

  ghost function AddressedAt(utxo: UtxoSet, a: Address): set<OutPoint> {
    set op | op in utxo && utxo[op].spk == Some(a)
  }

  ghost function Addressed(utxo: UtxoSet): set<OutPoint> {
    set op | op in utxo && utxo[op].spk.Some?
  }

  /** The full index: every address of an output, with exactly its outpoints. */
  ghost predicate IsFullIndex(utxo: UtxoSet, cache: PkCache) {
    && (forall a <- cache.Keys :: cache[a] != {})
    && (forall a: Address :: Cached(cache, a) == AddressedAt(utxo, a))
  }

  /** Each cached outpoint is in the base under the address it is cached for. */
  ghost predicate IsSound(utxo: UtxoSet, cache: PkCache) {
    forall a <- cache.Keys :: cache[a] != {} && cache[a] <= AddressedAt(utxo, a)
  }

  /** `cache'` is `cache` with the outpoints of `outs` entered under their addresses. */
  ghost predicate IsExtended(cache: PkCache, outs: UtxoSet, cache': PkCache) {
    && (forall a <- cache'.Keys :: a in cache || AddressedAt(outs, a) != {})
    && (forall a: Address :: Cached(cache', a) == Cached(cache, a) + AddressedAt(outs, a))
  }

  /** What is left under the key's address after the removal of `key`. */
  function Retained(ops: set<OutPoint>, key: OutPoint): set<OutPoint> {
    set op <- ops | op.tHash != key.tHash && op.n != key.n
  }

  function CacheWithout(utxo: UtxoSet, cache: PkCache, key: OutPoint): PkCache {
    if key in utxo && utxo[key].spk.Some? && utxo[key].spk.value in cache then
      var a := utxo[key].spk.value;
      var kept := Retained(cache[a], key);
      if kept == {} then cache - {a} else cache[a := kept]
    else
      cache
  }

  /** The removal of `key` takes `op` out of the cache of `a`: of its own address, all that share its hash or its position. */
  predicate Uncaches(utxo: UtxoSet, key: OutPoint, a: Address, op: OutPoint) {
    key in utxo && utxo[key].spk == Some(a) && (op.tHash == key.tHash || op.n == key.n)
  }

  lemma WithoutExactly(utxo: UtxoSet, cache: PkCache, key: OutPoint, a: Address, op: OutPoint)
    ensures op in Cached(CacheWithout(utxo, cache, key), a) <==> op in Cached(cache, a) && !Uncaches(utxo, key, a, op)
  {
  }

  ghost function Covered(cache: PkCache, addresses: seq<Address>): set<OutPoint> {
    set a <- cache.Keys, op <- cache[a] | a in addresses :: op
  }

  /* ---- The code ---- */

  class TrackedUtxoSet {
    var base: UtxoSet
    var pkCache: PkCache

    ghost predicate Valid()
      reads this
    {
      IsSound(base, pkCache)
    }

    /** Also the reload path: deserialising keeps the base and rebuilds the index. */
    constructor (utxo: UtxoSet)
      ensures Valid() && base == utxo && IsFullIndex(base, pkCache)
    {
      base := utxo;
      new;
      pkCache := ExtendPkCache(map[], utxo);
    }

    method ReAlign()
      modifies this
      ensures Valid() && base == old(base) && IsFullIndex(base, pkCache)
    {
      pkCache := ExtendPkCache(map[], base);
    }

    method Extend(blockTx: TxMap)
      requires Valid() && Agree(base, OutputsOf(blockTx))
      modifies this
      ensures Valid()
      ensures base == old(base) + OutputsOf(blockTx)
      ensures IsExtended(old(pkCache), OutputsOf(blockTx), pkCache)
      ensures IsFullIndex(old(base), old(pkCache)) ==> IsFullIndex(base, pkCache)
    {
      var outs := OutputsOf(blockTx);
      base := base + outs;
      pkCache := ExtendPkCache(pkCache, outs);
      ExtendKeepsIndex(old(base), old(pkCache), outs, pkCache);
    }

    method Remove(key: OutPoint) returns (r: Option<OutPoint>)
      requires Valid()
      modifies this
      ensures Valid()
      ensures base == old(base) - {key}
      ensures pkCache == CacheWithout(old(base), old(pkCache), key)
      ensures forall a: Address, op: OutPoint :: op in Cached(pkCache, a) <==> op in old(Cached(pkCache, a)) && !old(Uncaches(base, key, a, op))
      ensures r == if key in old(base) && old(base[key].spk.Some? && base[key].spk.value in pkCache) then Some(key) else None
    {
      RemoveKeepsSound(base, pkCache, key);
      ghost var utxo0, cache0 := base, pkCache;
      forall a: Address, op: OutPoint
        ensures op in Cached(CacheWithout(utxo0, cache0, key), a) <==> op in Cached(cache0, a) && !Uncaches(utxo0, key, a, op)
      {
        WithoutExactly(utxo0, cache0, key, a, op);
      }
      if key !in base {
        assert base == base - {key};
        return None;
      }
      var spk := base[key].spk;
      base := base - {key};
      match spk {
        case None => return None;
        case Some(a) =>
          if a !in pkCache {
            return None;
          }
          pkCache := pkCache[a := Retained(pkCache[a], key)];
          if pkCache[a] == {} {
            pkCache := pkCache - {a};
            assert pkCache == old(pkCache) - {a};
          }
          return Some(key);
      }
    }

    method BaseOutpointCount() returns (n: nat)
      ensures n == |base|
    {
      n := |base|;
    }

    method TrackedOutpointCount() returns (n: nat)
      requires Valid()
      ensures n == |Indexed(pkCache)| <= |Addressed(base)| <= |base|
      ensures n == |Addressed(base)| <==> IsFullIndex(base, pkCache)
    {
      n := 0;
      var todo := pkCache.Keys;
      assert pkCache - todo == map[];
      while todo != {}
        invariant todo <= pkCache.Keys
        invariant n == |Indexed(pkCache - todo)|
      {
        var a :| a in todo;
        IndexedInsert(base, pkCache - todo, a, pkCache[a]);
        assert pkCache - (todo - {a}) == (pkCache - todo)[a := pkCache[a]];
        n := n + |pkCache[a]|;
        todo := todo - {a};
      }
      assert pkCache - {} == pkCache;
      IndexedFull(base, pkCache);
      assert Addressed(base) <= base.Keys;
      SubsetSize(Addressed(base), base.Keys);
    }

    /** Whether the counts differ at a block where the check is due. */
    method NeedReAlignment(bNum: nat, modulo: Option<nat>) returns (need: bool)
      requires Valid()
      requires modulo.Some? ==> modulo.value != 0
      ensures need ==> CheckDue(bNum, modulo)
      ensures CheckDue(bNum, modulo) && Addressed(base) == base.Keys ==> (need <==> !IsFullIndex(base, pkCache))
      ensures CheckDue(bNum, modulo) && Addressed(base) != base.Keys ==> need
    {
      need := false;
      if CheckDue(bNum, modulo) {
        var baseCount := BaseOutpointCount();
        var trackedCount := TrackedOutpointCount();
        need := baseCount != trackedCount;
        SubsetSize(Addressed(base), base.Keys);
      }
    }

    /** After a due check the index is full, whatever it had lost before. */
    method EventProcessedReAlign(bNum: nat, modulo: Option<nat>)
      requires Valid()
      requires modulo.Some? ==> modulo.value != 0
      modifies this
      ensures Valid() && base == old(base)
      ensures CheckDue(bNum, modulo) ==> IsFullIndex(base, pkCache)
      ensures !CheckDue(bNum, modulo) ==> pkCache == old(pkCache)
    {
      var need := NeedReAlignment(bNum, modulo);
      if need {
        ReAlign();
      }
    }

    /** The inner loop of the balance: the outpoints of one address, unless already counted. */
    method AddAddress(address: Address, known0: set<OutPoint>, total0: nat) returns (known: set<OutPoint>, ops: seq<OutPoint>, total: nat)
      requires Valid() && address in pkCache
      requires pkCache[address] <= known0 || pkCache[address] !! known0
      requires total0 == Supply(Restrict(base, known0))
      ensures known == known0 + pkCache[address]
      ensures multiset(ops) == multiset(pkCache[address] - known0)
      ensures total == Supply(Restrict(base, known))
    {
      hide IsSound, AddressedAt, Supply, Restrict, Added;
      known, ops, total := known0, [], total0;
      var todo := pkCache[address];
      ghost var done: set<OutPoint> := {};
      ghost var counted := pkCache[address] <= known0 && pkCache[address] != {};
      AddedNone(base, known0, counted);
      while todo != {}
        invariant done + todo == pkCache[address]
        invariant done !! todo
        invariant Added(base, known0, counted, done, known, ops, total)
      {
        var op :| op in todo;
        CachedInBase(base, pkCache, address, op);
        AddedStep(base, known0, counted, done, op, known, ops, total);
        if op !in known {
          known := known + {op};
          ops := ops + [op];
          total := total + base[op].amount;
        }
        todo := todo - {op};
        done := done + {op};
      }
      assert done == pkCache[address];
      AddedAll(base, known0, counted, done, known, ops, total);
    }

    /** Every lookup of a cached outpoint in the base succeeds, and each outpoint counts once. */
    method BalanceForAddresses(addresses: seq<Address>) returns (total: nat, list: map<Address, seq<OutPoint>>)
      requires Valid()
      ensures total == Supply(Restrict(base, Covered(pkCache, addresses)))
      ensures forall a :: a in list <==> a in addresses && a in pkCache
      ensures forall a <- list :: multiset(list[a]) == multiset(pkCache[a])
    {
      hide AddressedAt, Supply, Restrict;
      total, list := 0, map[];
      var known: set<OutPoint> := {};
      SupplyEmpty(base);
      for i := 0 to |addresses|
        invariant known == Covered(pkCache, addresses[..i])
        invariant total == Supply(Restrict(base, known))
        invariant forall a :: a in list <==> a in addresses[..i] && a in pkCache
        invariant forall a <- list :: multiset(list[a]) == multiset(pkCache[a])
      {
        var address := addresses[i];
        assert addresses[..i + 1] == addresses[..i] + [address];
        CoveredStep(pkCache, addresses, i);
        if address in pkCache {
          CoveredAddress(base, pkCache, addresses[..i], address);
          var ops;
          known, ops, total := AddAddress(address, known, total);
          if ops != [] {
            assert ops[0] in multiset(ops);
            list := list[address := ops];
          }
        }
      }
      assert addresses[..|addresses|] == addresses;
    }
  }

  /** The balance after the outpoints in `done`, unless these were counted before. */
  ghost predicate Added(utxo: UtxoSet, known0: set<OutPoint>, counted: bool, done: set<OutPoint>,
                        known: set<OutPoint>, ops: seq<OutPoint>, total: nat) {
    && known == (if counted then known0 else known0 + done)
    && multiset(ops) == (if counted then multiset{} else multiset(done))
    && total == Supply(Restrict(utxo, known))
  }

  lemma AddedNone(utxo: UtxoSet, known0: set<OutPoint>, counted: bool)
    ensures Added(utxo, known0, counted, {}, known0, [], Supply(Restrict(utxo, known0)))
  {
    assert known0 + {} == known0;
  }

  lemma AddedStep(utxo: UtxoSet, known0: set<OutPoint>, counted: bool, done: set<OutPoint>, op: OutPoint,
                  known: set<OutPoint>, ops: seq<OutPoint>, total: nat)
    requires Added(utxo, known0, counted, done, known, ops, total)
    requires op in utxo && op !in done && (counted <==> op in known0)
    ensures op in known <==> counted
    ensures counted ==> Added(utxo, known0, counted, done + {op}, known, ops, total)
    ensures !counted ==> Added(utxo, known0, counted, done + {op}, known + {op}, ops + [op], total + utxo[op].amount)
  {
    hide Supply, Restrict;
    if !counted {
      SupplyInsert(utxo, known, op);
      assert known0 + (done + {op}) == known + {op};
      assert multiset(done + {op}) == multiset(done) + multiset{op};
    }
  }

  lemma AddedAll(utxo: UtxoSet, known0: set<OutPoint>, counted: bool, cached: set<OutPoint>,
                 known: set<OutPoint>, ops: seq<OutPoint>, total: nat)
    requires Added(utxo, known0, counted, cached, known, ops, total)
    requires if counted then cached <= known0 else cached !! known0
    ensures known == known0 + cached
    ensures multiset(ops) == multiset(cached - known0)
    ensures total == Supply(Restrict(utxo, known))
  {
    if counted {
      assert known0 + cached == known0 && cached - known0 == {};
    } else {
      assert cached - known0 == cached;
    }
  }

  /** An address is covered as a whole or not at all: an outpoint has one address. */
  lemma CoveredAddress(utxo: UtxoSet, cache: PkCache, addresses: seq<Address>, a: Address)
    requires IsSound(utxo, cache) && a in cache
    ensures a in addresses ==> cache[a] <= Covered(cache, addresses) && cache[a] - Covered(cache, addresses) == {}
    ensures a !in addresses ==> cache[a] !! Covered(cache, addresses) && cache[a] - Covered(cache, addresses) == cache[a]
    ensures cache[a] != {}
  {
    if a in addresses {
      assert forall op <- cache[a] :: op in Covered(cache, addresses);
    } else {
      assert cache[a] !! Covered(cache, addresses) by {
        forall op | op in cache[a] ensures op !in Covered(cache, addresses) {
          assert op in AddressedAt(utxo, a);
        }
      }
    }
  }

  predicate CheckDue(bNum: nat, modulo: Option<nat>)
    requires modulo.Some? ==> modulo.value != 0
  {
    modulo.Some? && bNum != 0 && bNum % modulo.value == 0
  }

  /** The check is due at the positive multiples of the modulus, if there is one. */
  lemma CheckDueExactly(bNum: nat, modulo: Option<nat>)
    requires modulo.Some? ==> modulo.value != 0
    ensures CheckDue(bNum, modulo) <==> modulo.Some? && exists k: nat :: 0 < k && bNum == Times(k, modulo.value)
  {
    if modulo.Some? {
      var m := modulo.value;
      if CheckDue(bNum, modulo) {
        assert bNum == Times(bNum / m, m);
      }
      if k: nat :| 0 < k && bNum == Times(k, m) {
        TimesMod(k, m);
      }
    }
  }

  function Times(k: nat, m: nat): nat {
    k * m
  }

  lemma TimesMod(k: nat, m: nat)
    requires 0 < m
    ensures Times(k, m) % m == 0 && (0 < k ==> 0 < Times(k, m))
  {
    ModularArithmetic.ModUnique(Times(k, m), m, k, 0);
    if 0 < k {
      ModularArithmetic.MulAtLeast(m, k);
    }
  }

  method ExtendPkCache(cache: PkCache, outs: UtxoSet) returns (r: PkCache)
    ensures IsExtended(cache, outs, r)
    ensures cache == map[] ==> IsFullIndex(outs, r)
  {
    r := cache;
    var todo := outs.Keys;
    while todo != {}
      invariant todo <= outs.Keys
      invariant IsExtended(cache, outs - todo, r)
    {
      var op :| op in todo;
      ghost var done, r0 := outs - todo, r;
      if outs[op].spk.Some? {
        var a := outs[op].spk.value;
        r := r[a := Cached(r, a) + {op}];
      }
      todo := todo - {op};
      assert outs - todo == done[op := outs[op]];
      ExtendOne(cache, done, op, outs[op], r0, r);
    }
    assert outs - {} == outs;
    assert cache == map[] ==> forall a <- r.Keys :: Cached(r, a) == AddressedAt(outs, a);
  }

  lemma AddressedInsert(utxo: UtxoSet, op: OutPoint, out: TxOut, a: Address)
    requires op !in utxo
    ensures AddressedAt(utxo[op := out], a) == AddressedAt(utxo, a) + (if out.spk == Some(a) then {op} else {})
  {
  }

  lemma ExtendOne(cache: PkCache, done: UtxoSet, op: OutPoint, out: TxOut, r: PkCache, r': PkCache)
    requires op !in done && IsExtended(cache, done, r)
    requires r' == if out.spk.Some? then r[out.spk.value := Cached(r, out.spk.value) + {op}] else r
    ensures IsExtended(cache, done[op := out], r')
  {
    hide AddressedAt;
    forall a: Address ensures Cached(r', a) == Cached(cache, a) + AddressedAt(done[op := out], a) {
      AddressedInsert(done, op, out, a);
      assert Cached(r', a) == Cached(r, a) + (if out.spk == Some(a) then {op} else {});
    }
    forall a <- r'.Keys ensures a in cache || AddressedAt(done[op := out], a) != {} {
      AddressedInsert(done, op, out, a);
    }
  }

  /* ---- The index against its base ---- */

  ghost function Indexed(cache: PkCache): set<OutPoint> {
    set a <- cache.Keys, op <- cache[a] :: op
  }

  lemma ExtendKeepsIndex(utxo: UtxoSet, cache: PkCache, outs: UtxoSet, cache': PkCache)
    requires IsSound(utxo, cache) && Agree(utxo, outs) && IsExtended(cache, outs, cache')
    ensures IsSound(utxo + outs, cache')
    ensures IsFullIndex(utxo, cache) ==> IsFullIndex(utxo + outs, cache')
  {
    forall a: Address ensures AddressedAt(utxo + outs, a) == AddressedAt(utxo, a) + AddressedAt(outs, a) {
    }
    forall a <- cache'.Keys ensures cache'[a] != {} && cache'[a] <= AddressedAt(utxo + outs, a) {
      assert Cached(cache', a) == Cached(cache, a) + AddressedAt(outs, a);
    }
  }

  /** Removal keeps the index sound: the removed outpoint was cached under its own address only. */
  lemma RemoveKeepsSound(utxo: UtxoSet, cache: PkCache, key: OutPoint)
    requires IsSound(utxo, cache)
    ensures IsSound(utxo - {key}, CacheWithout(utxo, cache, key))
  {
    var cache' := CacheWithout(utxo, cache, key);
    forall a <- cache'.Keys ensures cache'[a] != {} && cache'[a] <= AddressedAt(utxo - {key}, a) {
      assert a in cache && cache'[a] <= cache[a] <= AddressedAt(utxo, a);
      assert key !in cache'[a];
    }
  }

  /**
   The documented invariant "the cache contains exactly all relevant mapping" survives a removal
   exactly when no other outpoint of the same address shares the hash or the position.
   */
  lemma RemoveKeepsFullIndex(utxo: UtxoSet, cache: PkCache, key: OutPoint)
    requires IsFullIndex(utxo, cache)
    ensures IsFullIndex(utxo - {key}, CacheWithout(utxo, cache, key))
            <==> forall op <- utxo.Keys ::
                   key in utxo && op != key && utxo[op].spk.Some? && utxo[op].spk == utxo[key].spk ==>
                     op.tHash != key.tHash && op.n != key.n
  {
    var cache', utxo' := CacheWithout(utxo, cache, key), utxo - {key};
    if key in utxo && utxo[key].spk.Some? {
      var a := utxo[key].spk.value;
      assert key in AddressedAt(utxo, a) && AddressedAt(utxo, a) == Cached(cache, a);
      assert Cached(cache', a) == Retained(AddressedAt(utxo, a), key);
      assert AddressedAt(utxo', a) == AddressedAt(utxo, a) - {key};
      forall b: Address | b != a ensures Cached(cache', b) == AddressedAt(utxo', b) {
        assert Cached(cache', b) == Cached(cache, b) == AddressedAt(utxo, b);
      }
      if IsFullIndex(utxo', cache') {
        forall op <- utxo.Keys | op != key && utxo[op].spk == utxo[key].spk
          ensures op.tHash != key.tHash && op.n != key.n
        {
          assert op in AddressedAt(utxo', a) && AddressedAt(utxo', a) == Cached(cache', a);
        }
      } else {
        assert Cached(cache', a) != AddressedAt(utxo', a);
        var op :| op in AddressedAt(utxo', a) && op !in Cached(cache', a);
        assert op in utxo.Keys;
      }
    } else {
      forall b: Address ensures AddressedAt(utxo', b) == AddressedAt(utxo, b) {
      }
      assert cache' == cache;
    }
  }

  /** One removal of one outpoint of an address loses the index entry of another, live one. */
  lemma RemoveLosesSibling()
    ensures var out := TxOut(5, Some(7));
            var utxo: UtxoSet := map[OutPoint(1, 0) := out, OutPoint(1, 1) := out];
            var cache: PkCache := map[7 := {OutPoint(1, 0), OutPoint(1, 1)}];
            && IsFullIndex(utxo, cache)
            && OutPoint(1, 1) in utxo - {OutPoint(1, 0)}
            && Cached(CacheWithout(utxo, cache, OutPoint(1, 0)), 7) == {}
  {
    var out := TxOut(5, Some(7));
    var utxo: UtxoSet := map[OutPoint(1, 0) := out, OutPoint(1, 1) := out];
    var cache: PkCache := map[7 := {OutPoint(1, 0), OutPoint(1, 1)}];
    forall a: Address ensures Cached(cache, a) == AddressedAt(utxo, a) {
    }
    assert Retained(cache[7], OutPoint(1, 0)) == {};
  }

  lemma IndexedUnion(cache: PkCache, a: Address, ops: set<OutPoint>)
    requires a !in cache
    ensures Indexed(cache[a := ops]) == Indexed(cache) + ops
  {
    forall op | op in Indexed(cache) + ops ensures op in Indexed(cache[a := ops]) {
      if op in ops {
        assert op in cache[a := ops][a];
      } else {
        var b :| b in cache && op in cache[b];
        assert op in cache[a := ops][b];
      }
    }
  }

  lemma CachedInBase(utxo: UtxoSet, cache: PkCache, a: Address, op: OutPoint)
    requires IsSound(utxo, cache) && a in cache && op in cache[a]
    ensures op in utxo && utxo[op].spk == Some(a)
  {
    assert op in AddressedAt(utxo, a);
  }

  lemma IndexedInsert(utxo: UtxoSet, cache: PkCache, a: Address, ops: set<OutPoint>)
    requires IsSound(utxo, cache) && a !in cache && ops <= AddressedAt(utxo, a)
    ensures |Indexed(cache[a := ops])| == |Indexed(cache)| + |ops|
  {
    IndexedUnion(cache, a, ops);
    hide IsSound;
    forall op | op in Indexed(cache) ensures op !in ops {
      var b :| b in cache && op in cache[b];
      CachedInBase(utxo, cache, b, op);
    }
  }

  /** The tracked count reaches the number of addressed outputs exactly when the index is full. */
  lemma IndexedFull(utxo: UtxoSet, cache: PkCache)
    requires IsSound(utxo, cache)
    ensures Indexed(cache) <= Addressed(utxo) && |Indexed(cache)| <= |Addressed(utxo)|
    ensures |Indexed(cache)| == |Addressed(utxo)| <==> IsFullIndex(utxo, cache)
  {
    assert Indexed(cache) <= Addressed(utxo);
    SubsetSize(Indexed(cache), Addressed(utxo));
    if Indexed(cache) == Addressed(utxo) {
      forall a: Address ensures Cached(cache, a) == AddressedAt(utxo, a) {
        forall op | op in AddressedAt(utxo, a) ensures op in Cached(cache, a) {
          assert op in Indexed(cache);
          var b :| b in cache && op in cache[b];
        }
      }
    }
    if IsFullIndex(utxo, cache) {
      forall op | op in Addressed(utxo) ensures op in Indexed(cache) {
        var a := utxo[op].spk.value;
        assert op in AddressedAt(utxo, a) && AddressedAt(utxo, a) == Cached(cache, a);
        assert op in cache[a];
      }
    }
  }

  lemma CoveredStep(cache: PkCache, addresses: seq<Address>, i: nat)
    requires i < |addresses|
    ensures Covered(cache, addresses[..i + 1]) == Covered(cache, addresses[..i]) + Cached(cache, addresses[i])
  {
    var l := Covered(cache, addresses[..i + 1]);
    assert addresses[..i + 1] == addresses[..i] + [addresses[i]];
    forall op | op in Covered(cache, addresses[..i]) + Cached(cache, addresses[i]) ensures op in l {
      if op in Cached(cache, addresses[i]) {
        assert addresses[i] in cache && op in cache[addresses[i]];
      } else {
        var a :| a in cache && op in cache[a] && a in addresses[..i];
        assert a in addresses[..i + 1];
      }
    }
  }

  /** Over the full index the balance is what the base holds for the addresses. */
  lemma FullIndexCovers(utxo: UtxoSet, cache: PkCache, addresses: seq<Address>)
    requires IsFullIndex(utxo, cache)
    ensures Covered(cache, addresses) ==
            set op | op in utxo && utxo[op].spk.Some? && utxo[op].spk.value in addresses
  {
    forall op | op in utxo && utxo[op].spk.Some? && utxo[op].spk.value in addresses
      ensures op in Covered(cache, addresses)
    {
      var a := utxo[op].spk.value;
      assert op in AddressedAt(utxo, a) && AddressedAt(utxo, a) == Cached(cache, a);
      assert a in cache && op in cache[a];
    }
    forall op | op in Covered(cache, addresses)
      ensures op in utxo && utxo[op].spk.Some? && utxo[op].spk.value in addresses
    {
      var a :| a in cache && op in cache[a] && a in addresses;
      assert Cached(cache, a) == AddressedAt(utxo, a);
    }
  }
}
