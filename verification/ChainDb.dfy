/** The block-chain columns of the storage database and the keys into them, src/storage.rs. */
module ChainDb {
  import opened Wrappers
  import opened MachineIntegers

  const BC_ALL := "block_chain_all"
  const BC_NAMED := "block_chain_named"
  const BC_JSON := "block_chain_json"
  const BC_NOW := "block_chain_v0.7.0"

  /** The versioned columns with their network versions. */
  const BC_COLUMNS: seq<(string, nat)> := [
    (BC_NOW, 5),
    ("block_chain_v0.6.0", 4),
    ("block_chain_v0.5.0", 3),
    ("block_chain_v0.4.0", 2),
    ("block_chain_v0.3.0", 1),
    ("block_chain_v0.2.0", 0)
  ]

  const POINTER_SEPARATOR := ':'
  const NAMED_PREPEND := 'n'
  const LAST_BLOCK_HASH_KEY := "nLastBlockHashKey"
  const BLOCK_PREFIX := "nIndexedBlockHashKey_"
  const TX_PREFIX := "nIndexedTxHashKey_"

  datatype Meta =
    | Block(blockNum: nat, txLen: nat)
    | Tx(blockNum: nat, txNum: nat)

  datatype BlockchainItem = BlockchainItem(version: nat, meta: Meta, key: string, data: string, dataJson: string)

  /** One map per column, keyed by column and key; the metadata column holds the decoded value. */
  datatype Db = Db(cells: map<(string, string), string>, metas: map<string, Meta>, contiguous: Option<nat>)

  /* ---- Index keys ---- */

  function HexDigit(d: nat): char
    requires d < 16
  {
    "0123456789abcdef"[d]
  }

  /** The w low hexadecimal digits, most significant first: the zero-padded form of a number of that width. */
  function Hex(n: nat, w: nat): (s: string)
    ensures |s| == w
  {
    if w == 0 then "" else Hex(n / 16, w - 1) + [HexDigit(n % 16)]
  }

  function IndexedBlockKey(bNum: nat): string {
    BLOCK_PREFIX + Hex(bNum, 16)
  }

  function IndexedTxKey(bNum: nat, txNum: nat): string {
    TX_PREFIX + Hex(bNum, 16) + "_" + Hex(txNum, 8)
  }

  function IndexKey(meta: Meta): string {
    match meta
    case Block(bNum, _) => IndexedBlockKey(bNum)
    case Tx(bNum, txNum) => IndexedTxKey(bNum, txNum)
  }

  ghost predicate LessAt(a: string, b: string, i: nat) {
    i < |a| && i < |b| && a[..i] == b[..i] && a[i] < b[i]
  }

  /** Byte-wise order of strings that differ inside their common length. */
  ghost predicate LexLess(a: string, b: string) {
    exists i: nat :: LessAt(a, b, i)
  }

  lemma LexAsymmetric(a: string, b: string)
    requires LexLess(a, b)
    ensures !LexLess(b, a) && a != b
  {
    var i: nat :| LessAt(a, b, i);
    forall j: nat ensures !LessAt(b, a, j) {
      if j < i {
        assert a[..i][j] == a[j] && b[..i][j] == b[j];
      } else if i < j <= |a| && j <= |b| {
        assert a[..j][i] == a[i] && b[..j][i] == b[i];
      }
    }
  }

  /** A difference in a common frame decides the order. */
  lemma LexFrame(prefix: string, a: string, b: string, s: string, t: string)
    requires LexLess(a, b)
    ensures LexLess(prefix + a + s, prefix + b + t)
  {
    var i: nat :| LessAt(a, b, i);
    var x, y, j := prefix + a + s, prefix + b + t, |prefix| + i;
    assert x[..j] == prefix + a[..i] && y[..j] == prefix + b[..i];
    assert LessAt(x, y, j);
  }

  lemma {:induction false} HexOrdered(n: nat, m: nat, w: nat)
    requires n < m < Capacity(16, w)
    ensures LexLess(Hex(n, w), Hex(m, w))
    decreases w
  {
    if n / 16 < m / 16 {
      HexOrdered(n / 16, m / 16, w - 1);
      LexFrame("", Hex(n / 16, w - 1), Hex(m / 16, w - 1), [HexDigit(n % 16)], [HexDigit(m % 16)]);
      assert "" + Hex(n / 16, w - 1) + [HexDigit(n % 16)] == Hex(n, w);
      assert "" + Hex(m / 16, w - 1) + [HexDigit(m % 16)] == Hex(m, w);
    } else {
      assert n / 16 == m / 16;
      assert Hex(n, w)[..w - 1] == Hex(n / 16, w - 1) == Hex(m, w)[..w - 1];
      assert LessAt(Hex(n, w), Hex(m, w), w - 1);
    }
  }

  /** The number a lower-case hexadecimal digit stands for. */
  function DigitValue(c: char): Option<nat> {
    if '0' <= c <= '9' then Some((c - '0') as nat)
    else if 'a' <= c <= 'f' then Some((c - 'a') as nat + 10)
    else None
  }

  /** The number that a string of hexadecimal digits stands for. */
  function HexValue(s: string): Option<nat> {
    if s == "" then Some(0)
    else
      match (HexValue(s[..|s| - 1]), DigitValue(s[|s| - 1]))
      case (Some(high), Some(low)) => Some(16 * high + low)
      case _ => None
  }

  lemma DigitReads(d: nat)
    requires d < 16
    ensures DigitValue(HexDigit(d)) == Some(d)
  {
  }

  /** The digits of a number of the width stand for it. */
  lemma {:induction false} HexReads(n: nat, w: nat)
    requires n < Capacity(16, w)
    ensures HexValue(Hex(n, w)) == Some(n)
    decreases w
  {
    hide HexDigit, DigitValue;
    if w > 0 {
      HexReads(n / 16, w - 1);
      DigitReads(n % 16);
      assert Hex(n, w)[..w - 1] == Hex(n / 16, w - 1);
    }
  }

  /** An index key of a block reads back as its number; so does that of a transaction, with its position. */
  lemma KeysRead(n: nat, t: nat)
    requires n < U64_SIZE && t < U32_SIZE
    ensures var b, k := IndexedBlockKey(n), IndexedTxKey(n, t);
            && |b| == |BLOCK_PREFIX| + 16 && b[..|BLOCK_PREFIX|] == BLOCK_PREFIX && HexValue(b[|BLOCK_PREFIX|..]) == Some(n)
            && |k| == |TX_PREFIX| + 25 && k[..|TX_PREFIX|] == TX_PREFIX && HexValue(k[|TX_PREFIX|..|TX_PREFIX| + 16]) == Some(n)
            && k[|TX_PREFIX| + 16] == '_' && HexValue(k[|TX_PREFIX| + 17..]) == Some(t)
  {
    hide Hex, HexValue, Capacity;
    Widths();
    HexReads(n, 16);
    HexReads(t, 8);
    assert IndexedBlockKey(n)[|BLOCK_PREFIX|..] == Hex(n, 16);
    assert IndexedTxKey(n, t)[|TX_PREFIX|..|TX_PREFIX| + 16] == Hex(n, 16);
    assert IndexedTxKey(n, t)[|TX_PREFIX| + 17..] == Hex(t, 8);
  }

  lemma Widths()
    ensures Capacity(16, 16) == U64_SIZE && Capacity(16, 8) == U32_SIZE
  {
    assert Capacity(16, 4) == 0x1_0000;
    assert Capacity(16, 8) == U32_SIZE;
    assert Capacity(16, 12) == 0x1_0000_0000_0000;
  }

  /** Block keys sort as their numbers, so they are injective. */
  lemma BlockKeysOrdered(n: nat, m: nat)
    requires n < U64_SIZE && m < U64_SIZE
    ensures LexLess(IndexedBlockKey(n), IndexedBlockKey(m)) <==> n < m
    ensures IndexedBlockKey(n) == IndexedBlockKey(m) <==> n == m
  {
    if n < m {
      BlockKeyLess(n, m);
    } else if m < n {
      BlockKeyLess(m, n);
    } else if LexLess(IndexedBlockKey(n), IndexedBlockKey(m)) {
      LexAsymmetric(IndexedBlockKey(n), IndexedBlockKey(m));
    }
  }

  lemma BlockKeyLess(n: nat, m: nat)
    requires n < m < U64_SIZE
    ensures LexLess(IndexedBlockKey(n), IndexedBlockKey(m))
    ensures !LexLess(IndexedBlockKey(m), IndexedBlockKey(n)) && IndexedBlockKey(m) != IndexedBlockKey(n)
  {
    Widths();
    HexOrdered(n, m, 16);
    LexFrame(BLOCK_PREFIX, Hex(n, 16), Hex(m, 16), "", "");
    assert BLOCK_PREFIX + Hex(n, 16) + "" == IndexedBlockKey(n);
    assert BLOCK_PREFIX + Hex(m, 16) + "" == IndexedBlockKey(m);
    LexAsymmetric(IndexedBlockKey(n), IndexedBlockKey(m));
  }

  predicate Before(n: nat, t: nat, m: nat, u: nat) {
    n < m || (n == m && t < u)
  }

  /** Transaction keys sort by block, then by position. */
  lemma TxKeysOrdered(n: nat, t: nat, m: nat, u: nat)
    requires n < U64_SIZE && m < U64_SIZE && t < U32_SIZE && u < U32_SIZE
    ensures LexLess(IndexedTxKey(n, t), IndexedTxKey(m, u)) <==> Before(n, t, m, u)
    ensures IndexedTxKey(n, t) == IndexedTxKey(m, u) <==> n == m && t == u
  {
    if Before(n, t, m, u) {
      TxKeyLess(n, t, m, u);
    } else if Before(m, u, n, t) {
      TxKeyLess(m, u, n, t);
    } else if LexLess(IndexedTxKey(n, t), IndexedTxKey(m, u)) {
      LexAsymmetric(IndexedTxKey(n, t), IndexedTxKey(m, u));
    }
  }

  lemma TxKeyLess(n: nat, t: nat, m: nat, u: nat)
    requires n < U64_SIZE && m < U64_SIZE && t < U32_SIZE && u < U32_SIZE
    requires Before(n, t, m, u)
    ensures LexLess(IndexedTxKey(n, t), IndexedTxKey(m, u))
    ensures !LexLess(IndexedTxKey(m, u), IndexedTxKey(n, t)) && IndexedTxKey(m, u) != IndexedTxKey(n, t)
  {
    hide Hex, Capacity, LexLess;
    Widths();
    if n < m {
      HexOrdered(n, m, 16);
      LexFrame(TX_PREFIX, Hex(n, 16), Hex(m, 16), "_" + Hex(t, 8), "_" + Hex(u, 8));
      assert TX_PREFIX + Hex(n, 16) + ("_" + Hex(t, 8)) == IndexedTxKey(n, t);
      assert TX_PREFIX + Hex(m, 16) + ("_" + Hex(u, 8)) == IndexedTxKey(m, u);
    } else {
      HexOrdered(t, u, 8);
      LexFrame(TX_PREFIX + Hex(n, 16) + "_", Hex(t, 8), Hex(u, 8), "", "");
      assert TX_PREFIX + Hex(n, 16) + "_" + Hex(t, 8) + "" == IndexedTxKey(n, t);
      assert TX_PREFIX + Hex(m, 16) + "_" + Hex(u, 8) + "" == IndexedTxKey(m, u);
    }
    LexAsymmetric(IndexedTxKey(n, t), IndexedTxKey(m, u));
  }

  /** Block keys, transaction keys and the last-block key never collide. */
  lemma KeyKindsDiffer(n: nat, m: nat, t: nat)
    ensures IndexedBlockKey(n) != IndexedTxKey(m, t)
    ensures IndexedBlockKey(n) != LAST_BLOCK_HASH_KEY && IndexedTxKey(m, t) != LAST_BLOCK_HASH_KEY
  {
    assert IndexedBlockKey(n)[8] == 'B' && IndexedTxKey(m, t)[8] == 'T';
    assert IndexedBlockKey(n)[1] == 'I' && IndexedTxKey(m, t)[1] == 'I' && LAST_BLOCK_HASH_KEY[1] == 'L';
  }

  /* ---- Version pointers ---- */

  function VersionPointer(cf: string, key: string): string {
    cf + [POINTER_SEPARATOR] + key
  }

  /** The part of a string before its first separator, or all of it. */
  function Segment(s: string): (r: string)
    ensures |r| <= |s| && r == s[..|r|] && POINTER_SEPARATOR !in r
    ensures |r| < |s| ==> s[|r|] == POINTER_SEPARATOR
  {
    if s == "" || s[0] == POINTER_SEPARATOR then ""
    else [s[0]] + Segment(s[1..])
  }

  function VersionOf(cf: string, columns: seq<(string, nat)>): Option<nat> {
    if columns == [] then None
    else if columns[0].0 == cf then Some(columns[0].1)
    else VersionOf(cf, columns[1..])
  }

  /** None where the code panics: an unknown column, or a pointer without separator. */
  function DecodeVersionPointer(pointer: string): Option<(nat, string, string)> {
    var cf := Segment(pointer);
    match VersionOf(cf, BC_COLUMNS)
    case None => None
    case Some(version) =>
      if |cf| == |pointer| then None
      else Some((version, cf, Segment(pointer[|cf| + 1..])))
  }

  lemma SegmentIs(a: string, b: string)
    requires POINTER_SEPARATOR !in a
    ensures Segment(a + [POINTER_SEPARATOR] + b) == a
    ensures Segment(a) == a
  {
    var s := a + [POINTER_SEPARATOR] + b;
    var r := Segment(s);
    assert s[|a|] == POINTER_SEPARATOR;
    assert forall i :: 0 <= i < |a| ==> s[i] == a[i] && a[i] in a;
    assert forall i :: 0 <= i < |r| ==> r[i] == s[i] && r[i] in r;
    assert |r| == |a|;
    assert s[..|a|] == a;
    assert forall i :: 0 <= i < |a| ==> a[i] != POINTER_SEPARATOR;
    assert a[..|a|] == a;
  }

  lemma KnownColumn(cf: string)
    requires VersionOf(cf, BC_COLUMNS).Some?
    ensures POINTER_SEPARATOR !in cf && cf != BC_JSON && cf != BC_ALL && cf != BC_NAMED
  {
    ColumnListed(cf, BC_COLUMNS);
  }

  lemma {:induction false} ColumnListed(cf: string, columns: seq<(string, nat)>)
    requires VersionOf(cf, columns).Some?
    ensures exists i :: 0 <= i < |columns| && columns[i].0 == cf
    decreases |columns|
  {
    if columns[0].0 != cf {
      ColumnListed(cf, columns[1..]);
      var i :| 0 <= i < |columns[1..]| && columns[1..][i].0 == cf;
      assert columns[i + 1].0 == cf;
    }
  }

  /** A pointer decodes to its column and the key up to the key's first separator. */
  lemma PointerRoundTrip(cf: string, key: string)
    requires VersionOf(cf, BC_COLUMNS).Some?
    ensures DecodeVersionPointer(VersionPointer(cf, key)) == Some((VersionOf(cf, BC_COLUMNS).value, cf, Segment(key)))
    ensures Segment(key) == key <==> POINTER_SEPARATOR !in key
  {
    KnownColumn(cf);
    SegmentIs(cf, key);
    assert VersionPointer(cf, key)[|cf| + 1..] == key;
    if POINTER_SEPARATOR !in key {
      SegmentIs(key, "");
    }
  }

  /* ---- Putting and getting ---- */

  function PutAt(db: Db, cf: string, meta: Meta, key: string, value: string, json: string): Db {
    var pointer := VersionPointer(cf, key);
    db.(cells := db.cells[(cf, key) := value][(BC_JSON, key) := json][(BC_ALL, key) := pointer][(BC_NAMED, IndexKey(meta)) := pointer],
        metas := db.metas[key := meta])
  }

  function Put(db: Db, meta: Meta, key: string, value: string, json: string): Db {
    PutAt(db, BC_NOW, meta, key, value, json)
  }

  function Lookup(db: Db, column: string, key: string): Option<BlockchainItem> {
    if (column, key) !in db.cells then None
    else
      match DecodeVersionPointer(db.cells[(column, key)])
      case None => None
      case Some((version, cf, k)) =>
        if (cf, k) in db.cells && (BC_JSON, k) in db.cells && k in db.metas then
          Some(BlockchainItem(version, db.metas[k], k, db.cells[(cf, k)], db.cells[(BC_JSON, k)]))
        else None
  }

  function GetStoredValue(db: Db, key: string): Option<BlockchainItem> {
    Lookup(db, if key != "" && key[0] == NAMED_PREPEND then BC_NAMED else BC_ALL, key)
  }

  lemma IndexKeyNamed(meta: Meta)
    ensures IndexKey(meta) != "" && IndexKey(meta)[0] == NAMED_PREPEND
  {
  }

  /**
   A stored item reads back, under its index key, exactly when its key has no separator; under its
   own key too, unless that starts like a name.
   */
  lemma ReadBack(db: Db, cf: string, meta: Meta, key: string, value: string, json: string)
    requires VersionOf(cf, BC_COLUMNS).Some?
    ensures var db', item := PutAt(db, cf, meta, key, value, json), BlockchainItem(VersionOf(cf, BC_COLUMNS).value, meta, key, value, json);
            && (GetStoredValue(db', IndexKey(meta)) == Some(item) <==> POINTER_SEPARATOR !in key)
            && ((key == "" || key[0] != NAMED_PREPEND) ==> (GetStoredValue(db', key) == Some(item) <==> POINTER_SEPARATOR !in key))
  {
    hide Segment, DecodeVersionPointer, VersionPointer, VersionOf, IndexKey;
    KnownColumn(cf);
    PointerRoundTrip(cf, key);
    IndexKeyNamed(meta);
  }

  /** A lookup survives the storing of another item under another key and index key. */
  lemma LookupKept(db: Db, column: string, k: string, cf: string, meta: Meta, key: string, value: string, json: string)
    requires VersionOf(cf, BC_COLUMNS).Some?
    requires Lookup(db, column, k).Some? && Lookup(db, column, k).value.key != key
    requires (column == BC_ALL && k != key) || (column == BC_NAMED && k != IndexKey(meta))
    ensures Lookup(PutAt(db, cf, meta, key, value, json), column, k) == Lookup(db, column, k)
  {
    hide Segment, DecodeVersionPointer, VersionPointer, VersionOf, IndexKey;
    KnownColumn(cf);
    var pointer := db.cells[(column, k)];
    var (_, cf0, k0) := DecodeVersionPointer(pointer).value;
    DecodedColumn(pointer);
    KnownColumn(cf0);
  }

  lemma DecodedColumn(pointer: string)
    requires DecodeVersionPointer(pointer).Some?
    ensures VersionOf(DecodeVersionPointer(pointer).value.1, BC_COLUMNS).Some?
  {
  }
}
