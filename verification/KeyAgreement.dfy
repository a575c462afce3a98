/**
 Key agreement around a ring of any size, src/key_creation.rs: every participant masks its value with
 the share it has with its right neighbour, and the published masks of the ring unmask it again.
 */
module KeyAgreement {
  import opened Wrappers
  import opened MachineIntegers
  import opened Collections
  import opened ModularArithmetic

  const DIGEST_LEN := 32

  type Bytes = seq<bv8>

  /** Digits base 256, most significant first. */
  type Digits = seq<nat>

  /** The hash: a digest of fixed length for any string of digits. */
  type Hash = Digits -> Bytes

  ghost predicate IsDigest(h: Hash) {
    forall d: Digits :: |h(d)| == DIGEST_LEN
  }

  /* ---- Numbers as bytes ---- */

  function BeBytes(n: nat, w: nat): (d: Digits)
    ensures |d| == w
  {
    if w == 0 then [] else BeBytes(n / 256, w - 1) + [n % 256]
  }

  function BeValue(d: Digits): nat {
    if d == [] then 0 else BeValue(d[..|d| - 1]) * 256 + d[|d| - 1]
  }

  /** The shortest big-endian form; empty for 0. */
  function BeDigits(n: nat): Digits {
    if n == 0 then [] else BeDigits(n / 256) + [n % 256]
  }

  lemma {:induction false} BytesRoundTrip(n: nat, w: nat)
    requires n < Capacity(256, w)
    ensures BeValue(BeBytes(n, w)) == n
    decreases w
  {
    if w > 0 {
      BytesRoundTrip(n / 256, w - 1);
      var d := BeBytes(n, w);
      assert d[..|d| - 1] == BeBytes(n / 256, w - 1);
    }
  }

  /** Digit i counts 256 to the power of the places after it. */
  lemma {:induction false} BytesAt(n: nat, w: nat, i: nat)
    requires i < w
    ensures 0 < Capacity(256, w - 1 - i)
    ensures BeBytes(n, w)[i] == n / Capacity(256, w - 1 - i) % 256
    decreases w
  {
    CapacityPositive(w - 1 - i);
    if i < w - 1 {
      BytesAt(n / 256, w - 1, i);
      var c := Capacity(256, w - 2 - i);
      assert BeBytes(n, w)[i] == BeBytes(n / 256, w - 1)[i];
      assert Capacity(256, w - 1 - i) == 256 * c;
      DivTwice(n, 256, c);
    } else {
      assert Capacity(256, 0) == 1;
    }
  }

  lemma {:induction false} CapacityPositive(w: nat)
    ensures 0 < Capacity(256, w)
  {
    if w > 0 {
      CapacityPositive(w - 1);
    }
  }

  lemma DivTwice(n: nat, a: nat, c: nat)
    requires 0 < a && 0 < c
    ensures 0 < a * c && n / a / c == n / (a * c)
  {
    var m := n / a;
    DivParts(n, a);
    DivParts(m, c);
    DivGrouped(n, a, c, m, m / c, m % c, n % a);
  }

  lemma DivParts(n: nat, a: nat)
    requires 0 < a
    ensures n == a * (n / a) + n % a && 0 <= n % a < a && 0 <= n / a
  {
  }

  lemma DivGrouped(n: nat, a: nat, c: nat, m: nat, q: nat, r: nat, low: nat)
    requires 0 < a && n == a * m + low && m == c * q + r && r < c && low < a
    ensures 0 < a * c && n / (a * c) == q
  {
    Regroup(a, c, q, r);
    GroupBelow(a, c, r);
    DivIs(n, a * c, q, a * r + low);
  }

  lemma Regroup(a: nat, c: nat, q: nat, r: nat)
    ensures a * (c * q + r) == (a * c) * q + a * r
  {
  }

  lemma GroupBelow(a: nat, c: nat, r: nat)
    requires 0 < a && r < c
    ensures 0 <= a * r <= a * c - a && 0 < a * c
  {
    assert a * (c - 1 - r) == a * c - a - a * r;
    assert 0 <= a * (c - 1 - r);
  }

  lemma DivIs(n: nat, d: nat, q: nat, r: nat)
    requires 0 < d && n == d * q + r && r < d
    ensures n / d == q
  {
    ModUnique(n, d, q, r);
    assert d * (n / d) == d * q;
    if n / d != q {
      FactorsDiffer(d, n / d, q);
    }
  }

  lemma FactorsDiffer(d: nat, x: nat, y: nat)
    requires 0 < d && x != y
    ensures d * x != d * y
  {
    if x < y {
      MulAtLeast(d, y - x);
      assert d * (y - x) == d * y - d * x;
    } else {
      MulAtLeast(d, x - y);
      assert d * (x - y) == d * x - d * y;
    }
  }

  /** The digits hashed for a share tell the number they stand for. */
  lemma {:induction false} DigitsRoundTrip(n: nat)
    ensures BeValue(BeDigits(n)) == n
    ensures BeDigits(n) != [] ==> BeDigits(n)[0] != 0
  {
    if n > 0 {
      DigitsRoundTrip(n / 256);
      assert BeDigits(n)[..|BeDigits(n)| - 1] == BeDigits(n / 256);
    }
  }

  lemma EightBytes()
    ensures Capacity(256, 8) == U64_SIZE
  {
    assert Capacity(256, 4) == 0x1_0000_0000;
  }

  /* ---- Masks ---- */

  /** Byte-wise exclusive or, as long as the shorter operand. */
  function Xor(a: Bytes, b: Bytes): Bytes {
    seq(if |a| < |b| then |a| else |b|, i requires 0 <= i < |a| && i < |b| => a[i] ^ b[i])
  }

  lemma XorCancels(k: Bytes, a: Bytes, b: Bytes)
    requires |a| == |b|
    ensures Xor(Xor(k, a), Xor(a, b)) == Xor(k, b)
  {
    hide Xor;
    XorBytes(k, a);
    XorBytes(a, b);
    XorBytes(Xor(k, a), Xor(a, b));
    XorBytes(k, b);
    var l, r := Xor(Xor(k, a), Xor(a, b)), Xor(k, b);
    assert |l| == |r|;
    forall i | 0 <= i < |l| ensures l[i] == r[i] {
      ByteCancels(k[i], a[i], b[i]);
    }
  }

  lemma XorBytes(a: Bytes, b: Bytes)
    ensures |Xor(a, b)| == if |a| < |b| then |a| else |b|
    ensures forall i :: 0 <= i < |Xor(a, b)| ==> Xor(a, b)[i] == a[i] ^ b[i]
  {
  }

  lemma ByteCancels(k: bv8, a: bv8, b: bv8)
    ensures (k ^ a) ^ (a ^ b) == k ^ b
    ensures (k ^ a) ^ a == k
  {
  }

  lemma XorUndone(k: Bytes, a: Bytes)
    ensures Xor(Xor(k, a), a) == k[..if |k| < |a| then |k| else |a|]
  {
    var l, r := Xor(Xor(k, a), a), k[..if |k| < |a| then |k| else |a|];
    forall i | 0 <= i < |l| ensures l[i] == r[i] {
      ByteCancels(k[i], a[i], a[i]);
    }
  }

  function FoldXor(acc: Bytes, masks: seq<Bytes>): Bytes {
    if masks == [] then acc else Xor(FoldXor(acc, masks[..|masks| - 1]), masks[|masks| - 1])
  }

  /* ---- Shares ---- */

  /** The published value g^x, at the width the code computes it in. */
  function Published(g: nat, x: nat): Digits {
    BeBytes(Pow(g, x) % U64_SIZE, 8)
  }

  /** The share with the neighbour that published `y`. */
  function Share(h: Hash, y: Digits, x: nat): Bytes {
    var p := Pow(BeValue(y), x);
    h(BeDigits(if p < 0 then 0 else p))
  }

  lemma {:induction false} PowNonNegative(b: nat, e: nat)
    ensures 0 <= Pow(b, e)
  {
    if e > 0 {
      PowNonNegative(b, e - 1);
    }
  }

  lemma PublishedValue(g: nat, x: nat)
    requires Pow(g, x) < U64_SIZE
    ensures BeValue(Published(g, x)) == Pow(g, x)
  {
    PowNonNegative(g, x);
    EightBytes();
    ModSmall(Pow(g, x), U64_SIZE);
    BytesRoundTrip(Pow(g, x), 8);
  }

  /** The share between two secrets is the hash of g to their product, and of nothing else. */
  lemma ShareIs(h: Hash, g: nat, a: nat, b: nat)
    requires Pow(g, a) < U64_SIZE
    ensures exists d: Digits :: BeValue(d) == Pow(g, a * b) && (d != [] ==> d[0] != 0) && Share(h, Published(g, a), b) == h(d)
  {
    hide Pow, BeBytes, BeDigits, BeValue, Published;
    PublishedValue(g, a);
    PowTimes(g, a, b);
    PowNonNegative(g, a * b);
    var d := BeDigits(Pow(g, a * b));
    DigitsRoundTrip(Pow(g, a * b));
    assert Share(h, Published(g, a), b) == h(d);
  }

  /** Diffie-Hellman: without overflow both neighbours compute the same share. */
  lemma SharesMeet(h: Hash, g: nat, a: nat, b: nat)
    requires Pow(g, a) < U64_SIZE && Pow(g, b) < U64_SIZE
    ensures Share(h, Published(g, a), b) == Share(h, Published(g, b), a)
  {
    PublishedValue(g, a);
    PublishedValue(g, b);
    PowTimes(g, a, b);
    PowTimes(g, b, a);
    assert a * b == b * a;
  }

  /* ---- The ring ---- */

  datatype PeerInfo = PeerInfo(T: Bytes)

  function Backwards(up: seq<nat>): (s: seq<nat>)
    ensures |s| == |up| && forall i :: 0 <= i < |s| ==> s[i] == up[|up| - 1 - i]
    ensures forall k :: k in s <==> k in up
  {
    var s := seq(|up|, i requires 0 <= i < |up| => up[|up| - 1 - i]);
    assert forall i :: 0 <= i < |up| ==> s[|up| - 1 - i] == up[i];
    s
  }

  /** Identifiers in the order the code sorts its table: descending. */
  function Descending(ids: set<nat>): (s: seq<nat>)
    ensures |s| == |ids| && forall k :: k in s <==> k in ids
  {
    var s := Backwards(Ascending(ids));
    assert forall k :: k in Ascending(ids) <==> k in ids;
    s
  }

  /** The first entry of the table has the greatest identifier. */
  lemma DescendingOrder(ids: set<nat>)
    ensures forall i, j :: 0 <= i < j < |ids| ==> Descending(ids)[i] > Descending(ids)[j]
  {
    hide Ascending, Backwards;
    var up := Ascending(ids);
    assert forall i :: 0 <= i < |ids| ==> Descending(ids)[i] == up[|up| - 1 - i];
  }

  /** All positions but i, starting right after it and going around. */
  function Around<A>(s: seq<A>, i: nat): seq<A>
    requires i < |s|
  {
    s[i + 1..] + s[..i]
  }

  function Masks(table: map<nat, PeerInfo>, ids: seq<nat>): seq<Bytes>
    requires forall id <- ids :: id in table
  {
    seq(|ids|, i requires 0 <= i < |ids| => table[ids[i]].T)
  }

  /** What `compute_k_j` arrives at from the own masked value, the other masks in ring order, and the left share. */
  function Unmasked(ek: Bytes, masks: seq<Bytes>, tL: Bytes): Bytes {
    Xor(FoldXor(ek, masks), tL)
  }

  /** The secrets of a ring in table order. */
  datatype Secret = Secret(x: nat, k: Bytes)

  function Pred(i: nat, n: nat): nat {
    if i == 0 then if n == 0 then 0 else n - 1 else i - 1
  }

  function Succ(i: nat, n: nat): nat {
    if i + 1 == n then 0 else i + 1
  }

  function LeftShare(h: Hash, g: nat, ring: seq<Secret>, i: nat): Bytes
    requires i < |ring|
  {
    Share(h, Published(g, ring[Pred(i, |ring|)].x), ring[i].x)
  }

  function RightShare(h: Hash, g: nat, ring: seq<Secret>, i: nat): Bytes
    requires i < |ring|
  {
    Share(h, Published(g, ring[Succ(i, |ring|)].x), ring[i].x)
  }

  function RingMasks(h: Hash, g: nat, ring: seq<Secret>): (m: seq<Bytes>)
    ensures |m| == |ring|
  {
    seq(|ring|, i requires 0 <= i < |ring| => Xor(LeftShare(h, g, ring, i), RightShare(h, g, ring, i)))
  }

  ghost predicate NoOverflow(g: nat, ring: seq<Secret>) {
    forall i :: 0 <= i < |ring| ==> Pow(g, ring[i].x) < U64_SIZE
  }

  /** The share to the right is the right neighbour's share to the left. */
  lemma NeighboursMeet(h: Hash, g: nat, ring: seq<Secret>, i: nat)
    requires NoOverflow(g, ring) && i < |ring|
    ensures RightShare(h, g, ring, i) == LeftShare(h, g, ring, Succ(i, |ring|))
  {
    SharesMeet(h, g, ring[Succ(i, |ring|)].x, ring[i].x);
    assert Pred(Succ(i, |ring|), |ring|) == i;
  }

  /** The position reached after m steps to the right. */
  function Reached(i: nat, m: nat, n: nat): nat {
    if i + m < n then i + m else if i + m < n + n then i + m - n else 0
  }

  lemma ShareLengths(h: Hash, g: nat, ring: seq<Secret>, i: nat)
    requires IsDigest(h) && i < |ring|
    ensures |LeftShare(h, g, ring, i)| == |RightShare(h, g, ring, i)| == DIGEST_LEN
  {
  }

  /** Around the ring, each mask replaces one share by the next: the telescope. */
  lemma {:induction false} Telescope(h: Hash, g: nat, ring: seq<Secret>, i: nat, m: nat)
    requires IsDigest(h) && NoOverflow(g, ring) && i < |ring| && m < |ring|
    ensures FoldXor(Xor(ring[i].k, RightShare(h, g, ring, i)), Around(RingMasks(h, g, ring), i)[..m])
            == Xor(ring[i].k, RightShare(h, g, ring, Reached(i, m, |ring|)))
    decreases m
  {
    hide LeftShare, RightShare, Xor, NoOverflow, IsDigest;
    var around := Around(RingMasks(h, g, ring), i);
    if m > 0 {
      var n := |ring|;
      var at, before := Reached(i, m, n), Reached(i, m - 1, n);
      ShareLengths(h, g, ring, before);
      ShareLengths(h, g, ring, at);
      Telescope(h, g, ring, i, m - 1);
      assert around[..m][..m - 1] == around[..m - 1];
      assert at == Succ(before, n);
      assert around[m - 1] == RingMasks(h, g, ring)[at];
      NeighboursMeet(h, g, ring, before);
      XorCancels(ring[i].k, RightShare(h, g, ring, before), RightShare(h, g, ring, at));
    }
  }

  /**
   In a ring of any size whose neighbours exchanged their published values, every participant recovers
   its own value cut to the digest length: the panic is unreachable exactly when it is no longer than that.
   */
  lemma RingRecovers(h: Hash, g: nat, ring: seq<Secret>, i: nat)
    requires IsDigest(h) && NoOverflow(g, ring) && i < |ring|
    ensures var k := ring[i].k;
            var kj := Unmasked(Xor(k, RightShare(h, g, ring, i)), Around(RingMasks(h, g, ring), i), LeftShare(h, g, ring, i));
            && kj == k[..if |k| < DIGEST_LEN then |k| else DIGEST_LEN]
            && (kj == k <==> |k| <= DIGEST_LEN)
  {
    hide Xor, LeftShare, RightShare, NoOverflow, RingMasks;
    var n, k := |ring|, ring[i].k;
    ShareLengths(h, g, ring, i);
    var around := Around(RingMasks(h, g, ring), i);
    Telescope(h, g, ring, i, n - 1);
    assert around[..n - 1] == around;
    var last := Reached(i, n - 1, n);
    assert Succ(last, n) == i;
    NeighboursMeet(h, g, ring, last);
    XorUndone(k, LeftShare(h, g, ring, i));
  }

  /** The table a participant holds carries the masks of the ring, in table order. */
  ghost predicate TableOf(table: map<nat, PeerInfo>, masks: seq<Bytes>) {
    |table| == |masks| && Masks(table, Descending(table.Keys)) == masks
  }

  lemma MasksAround(table: map<nat, PeerInfo>, masks: seq<Bytes>, i: nat)
    requires TableOf(table, masks) && i < |masks|
    ensures Masks(table, Around(Descending(table.Keys), i)) == Around(masks, i)
  {
    hide Descending;
    var ids := Descending(table.Keys);
    var l, r := Masks(table, Around(ids, i)), Around(masks, i);
    assert |l| == |r|;
    forall j | 0 <= j < |l| ensures l[j] == r[j] {
      if j < |ids| - i - 1 {
        assert l[j] == table[ids[i + 1 + j]].T == masks[i + 1 + j];
      } else {
        assert l[j] == table[ids[j - (|ids| - i - 1)]].T == masks[j - (|ids| - i - 1)];
      }
    }
  }

  ghost predicate PlacedAt(ids: set<nat>, id: nat, position: nat) {
    position < |ids| && Descending(ids)[position] == id
  }

  /** The same from the table a participant holds. */
  lemma TableRecovers(h: Hash, g: nat, ring: seq<Secret>, i: nat, table: map<nat, PeerInfo>)
    requires IsDigest(h) && NoOverflow(g, ring) && i < |ring|
    ensures TableOf(table, RingMasks(h, g, ring)) ==>
              && |table.Keys| == |ring|
              && var k := ring[i].k;
                 var masks := Masks(table, Around(Descending(table.Keys), i));
                 Unmasked(Xor(k, RightShare(h, g, ring, i)), masks, LeftShare(h, g, ring, i))
                 == k[..if |k| < DIGEST_LEN then |k| else DIGEST_LEN]
  {
    hide Descending, Unmasked, LeftShare, RightShare, IsDigest, NoOverflow, Xor;
    if TableOf(table, RingMasks(h, g, ring)) {
      MasksAround(table, RingMasks(h, g, ring), i);
      RingRecovers(h, g, ring, i);
    }
  }

  /* ---- The code ---- */

  class KeyAgreement {
    const hash: Hash
    const id: nat
    const g: nat
    const x_i: nat
    var k_i: Bytes
    var k_j: Bytes
    var y_i: Digits
    var t_iL: Bytes
    var t_iR: Bytes
    var T_i: Bytes
    var ek_i: Bytes
    var pidTable: map<nat, PeerInfo>

    constructor (hash: Hash, id: nat, g: nat, x_i: nat)
      ensures this.hash == hash && this.id == id && this.g == g && this.x_i == x_i && pidTable == map[]
    {
      this.hash, this.id, this.g, this.x_i := hash, id, g, x_i;
      k_i, k_j, y_i, t_iL, t_iR, T_i, ek_i, pidTable := [], [], [], [], [], [], [], map[];
    }

    method FirstRound(address: Bytes, unicorn: Bytes, nonce: Bytes)
      modifies this`k_i, this`y_i
      ensures k_i == address + unicorn + nonce && y_i == Published(g, x_i)
    {
      k_i := address + unicorn + nonce;
      PowNonNegative(g, x_i);
      y_i := BeBytes(Pow(g, x_i) % U64_SIZE, 8);
    }

    method ReceivePeerInfo(peer: nat, info: PeerInfo)
      modifies this`pidTable
      ensures pidTable == old(pidTable)[peer := info]
    {
      pidTable := pidTable[peer := info];
    }

    /** The source panics on an empty value: its digits do not parse. */
    method SecondRound(left: Digits, right: Digits)
      requires left != [] && right != []
      modifies this`t_iL, this`t_iR, this`T_i, this`ek_i
      ensures t_iL == Share(hash, left, x_i) && t_iR == Share(hash, right, x_i)
      ensures T_i == Xor(t_iL, t_iR) && ek_i == Xor(k_i, t_iR)
    {
      PowNonNegative(BeValue(left), x_i);
      PowNonNegative(BeValue(right), x_i);
      t_iL := hash(BeDigits(Pow(BeValue(left), x_i)));
      t_iR := hash(BeDigits(Pow(BeValue(right), x_i)));
      T_i := Xor(t_iL, t_iR);
      ek_i := Xor(k_i, t_iR);
    }

    /** Returns false where the code panics. */
    method ComputeKJ() returns (agreed: bool, ghost self: nat)
      modifies this`k_j, this`pidTable
      ensures pidTable == old(pidTable)[id := PeerInfo(T_i)]
      ensures self < |pidTable.Keys| && Descending(pidTable.Keys)[self] == id
      ensures k_j == Unmasked(ek_i, Masks(pidTable, Around(Descending(pidTable.Keys), self)), t_iL)
      ensures agreed <==> k_j == k_i
    {
      hide Descending;
      pidTable := pidTable[id := PeerInfo(T_i)];
      var sorted := Descending(pidTable.Keys);
      var indexOfSelf := IndexOf(sorted, id);
      self := indexOfSelf;
      var backend := sorted[indexOfSelf + 1..] + sorted[..indexOfSelf + 1];
      assert backend[..|backend| - 1] == Around(sorted, indexOfSelf);
      backend := backend[..|backend| - 1];
      ghost var masks := Masks(pidTable, backend);
      k_j := ek_i;
      for m := 0 to |backend|
        invariant pidTable == old(pidTable)[id := PeerInfo(T_i)]
        invariant k_j == FoldXor(ek_i, masks[..m])
      {
        assert masks[..m + 1][..m] == masks[..m];
        k_j := Xor(k_j, pidTable[backend[m]].T);
      }
      assert masks[..|backend|] == masks;
      k_j := Xor(k_j, t_iL);
      agreed := k_j == k_i;
    }

    /** The third round of a participant of a ring succeeds exactly when its value fits the digest. */
    method ThirdRound(ghost ring: seq<Secret>, ghost position: nat) returns (agreed: bool)
      requires IsDigest(hash) && NoOverflow(g, ring) && position < |ring|
      requires ring[position] == Secret(x_i, k_i)
      requires t_iL == LeftShare(hash, g, ring, position) && t_iR == RightShare(hash, g, ring, position)
      requires T_i == Xor(t_iL, t_iR) && ek_i == Xor(k_i, t_iR)
      requires TableOf(pidTable[id := PeerInfo(T_i)], RingMasks(hash, g, ring))
      requires PlacedAt(pidTable.Keys + {id}, id, position)
      modifies this`k_j, this`pidTable
      ensures k_j == k_i[..if |k_i| < DIGEST_LEN then |k_i| else DIGEST_LEN]
      ensures agreed <==> |k_i| <= DIGEST_LEN
    {
      hide Descending, Unmasked, RingMasks, LeftShare, RightShare, IsDigest, NoOverflow, Xor, TableOf;
      ghost var self;
      agreed, self := ComputeKJ();
      assert pidTable.Keys == old(pidTable).Keys + {id};
      SamePosition(pidTable.Keys, self, position);
      TableRecovers(hash, g, ring, position, pidTable);
    }
  }

  method IndexOf(s: seq<nat>, x: nat) returns (i: nat)
    requires x in s
    ensures i < |s| && s[i] == x
  {
    i := 0;
    assert s[..|s|] == s;
    while i < |s| && s[i] != x
      invariant i <= |s| && x !in s[..i]
    {
      assert s[..i + 1] == s[..i] + [s[i]];
      i := i + 1;
    }
  }

  lemma SamePosition(ids: set<nat>, i: nat, j: nat)
    requires i < |ids| && j < |ids| && Descending(ids)[i] == Descending(ids)[j]
    ensures i == j
  {
    hide Ascending, Backwards;
    var up := Ascending(ids);
    assert Descending(ids)[i] == up[|up| - 1 - i] && Descending(ids)[j] == up[|up| - 1 - j];
  }
}
