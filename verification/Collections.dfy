/** Sums over finite maps, unions, and sets of keys listed in ascending order. */
module Collections {

  /* ---- Ascending key order ---- */

  ghost predicate StrictlyAscending(ks: seq<nat>) {
    forall i, j :: 0 <= i < j < |ks| ==> ks[i] < ks[j]
  }

  ghost predicate IsLeast(m: nat, s: set<nat>) {
    m in s && forall x :: x in s ==> m <= x
  }

  lemma {:induction false} LeastBelow(s: set<nat>, x: nat)
    requires x in s
    ensures exists m: nat :: IsLeast(m, s)
  {
    if y: nat :| y in s && y < x {
      LeastBelow(s, y);
    } else {
      assert IsLeast(x, s);
    }
  }

  function Least(s: set<nat>): (m: nat)
    requires s != {}
    ensures m in s && forall x :: x in s ==> m <= x
  {
    var x :| x in s;
    LeastBelow(s, x);
    assert exists m: nat :: m in s && forall y :: y in s ==> m <= y by {
      var m: nat :| IsLeast(m, s);
      assert m in s && forall y :: y in s ==> m <= y;
    }
    var m :| m in s && forall y :: y in s ==> m <= y;
    m
  }

  /** The members of `s` in ascending order: the iteration order of the ordered maps. */
  function Ascending(s: set<nat>): (ks: seq<nat>)
    ensures |ks| == |s|
    ensures forall k :: k in ks <==> k in s
    ensures StrictlyAscending(ks)
    decreases |s|
  {
    if s == {} then []
    else
      var m := Least(s);
      var rest := Ascending(s - {m});
      assert forall k :: k in [m] + rest <==> k == m || k in rest;
      [m] + rest
  }

  /* ---- Sums ---- */

  ghost function Sum<K(!new)>(m: map<K, nat>): nat
    decreases |m|
  {
    if m == map[] then 0
    else
      var k :| k in m;
      m[k] + Sum(m - {k})
  }

  lemma {:induction false} SumRemove<K(!new)>(m: map<K, nat>, k: K)
    requires k in m
    ensures Sum(m) == m[k] + Sum(m - {k})
    decreases |m|
  {
    var p :| p in m && Sum(m) == m[p] + Sum(m - {p});
    if p != k {
      SumRemove(m - {p}, k);
      SumRemove(m - {k}, p);
      assert m - {p} - {k} == m - {k} - {p};
    }
  }

  lemma SumInsert<K(!new)>(m: map<K, nat>, k: K, v: nat)
    requires k !in m
    ensures Sum(m[k := v]) == Sum(m) + v
  {
    SumRemove(m[k := v], k);
    assert m[k := v] - {k} == m;
  }

  lemma MinusOfUnion<K, V>(m: map<K, V>, n: map<K, V>, k: K)
    requires m.Keys !! n.Keys && k in n
    ensures k in m + n && (m + n)[k] == n[k]
    ensures (m + n) - {k} == m + (n - {k})
    ensures m.Keys !! (n - {k}).Keys
  {
    assert k !in m;
    var l, r := (m + n) - {k}, m + (n - {k});
    assert l.Keys == r.Keys;
    forall x | x in l.Keys ensures l[x] == r[x] {
    }
  }

  lemma {:induction false} SumUnion<K(!new)>(m: map<K, nat>, n: map<K, nat>)
    requires m.Keys !! n.Keys
    ensures Sum(m + n) == Sum(m) + Sum(n)
    decreases |n|
  {
    if n == map[] {
      assert m + n == m;
    } else {
      var k :| k in n;
      var n' := n - {k};
      MinusOfUnion(m, n, k);
      SumUnion(m, n');
      assert Sum(n) == n[k] + Sum(n') by {
        SumRemove(n, k);
      }
      assert Sum(m + n) == n[k] + Sum(m + n') by {
        SumRemove(m + n, k);
      }
    }
  }

  /* ---- Sequences and sets ---- */

  ghost predicate Distinct<T>(s: seq<T>) {
    forall i, j :: 0 <= i < j < |s| ==> s[i] != s[j]
  }

  lemma SubsetSize<T>(s: set<T>, t: set<T>)
    requires s <= t
    ensures |s| <= |t|
    ensures |s| == |t| ==> s == t
  {
    assert t == s + (t - s);
    assert |t| == |s| + |t - s|;
  }

  ghost function ToSet<T>(s: seq<T>): set<T> {
    set x | x in s
  }

  lemma ToSetLast<T>(s: seq<T>)
    requires s != []
    ensures ToSet(s) == ToSet(s[..|s| - 1]) + {s[|s| - 1]}
  {
    assert s == s[..|s| - 1] + [s[|s| - 1]];
  }

  lemma {:induction false} AscendingSize(ks: seq<nat>)
    requires StrictlyAscending(ks)
    ensures |ToSet(ks)| == |ks|
    decreases |ks|
  {
    if ks != [] {
      AscendingSize(ks[..|ks| - 1]);
      ToSetLast(ks);
    }
  }
}
