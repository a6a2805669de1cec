/** Sums over stored tables and over lists, and the facts that let one replace the other. */
module Sums {

  ghost function Pick<K, V>(m: map<K, V>): (k: K)
    requires m != map[]
    ensures k in m
  {
    var k :| k in m; k
  }

  /** The sum of `f` over the values of a table, in no particular order. */
  ghost function MapSum<K, V>(m: map<K, V>, f: V -> int): int
    decreases |m|
  {
    if m == map[] then 0
    else
      var k := Pick(m);
      f(m[k]) + MapSum(m - {k}, f)
  }

  /** Any entry can be taken out of the sum first, so the order does not matter. */
  lemma {:induction false} MapSumRemove<K, V>(m: map<K, V>, k: K, f: V -> int)
    requires k in m
    ensures MapSum(m, f) == f(m[k]) + MapSum(m - {k}, f)
    decreases |m|
  {
    var j := Pick(m);
    if j != k {
      MapSumRemove(m - {j}, k, f);
      MapSumRemove(m - {k}, j, f);
      assert m - {j} - {k} == m - {k} - {j};
    }
  }

  lemma MapSumPut<K, V>(m: map<K, V>, k: K, v: V, f: V -> int)
    ensures MapSum(m[k := v], f) == f(v) + MapSum(m - {k}, f)
  {
    MapSumRemove(m[k := v], k, f);
    assert m[k := v] - {k} == m - {k};
  }

  lemma MapSumWithout<K, V>(m: map<K, V>, k: K, f: V -> int)
    ensures MapSum(m - {k}, f) == MapSum(m, f) - if k in m then f(m[k]) else 0
  {
    if k in m {
      MapSumRemove(m, k, f);
    } else {
      assert m - {k} == m;
    }
  }

  lemma {:induction false} MapSumNonNegative<K, V>(m: map<K, V>, f: V -> int)
    requires forall k :: k in m ==> f(m[k]) >= 0
    ensures MapSum(m, f) >= 0
    decreases |m|
  {
    if m != map[] {
      MapSumNonNegative(m - {Pick(m)}, f);
    }
  }

  /** `*m.entry(key).or_default() += cents` */
  function AddTo(m: map<string, int>, key: string, cents: int): map<string, int> {
    m[key := (if key in m then m[key] else 0) + cents]
  }

  // ---------- lists ----------

  function SeqSum<V>(s: seq<V>, f: V -> int): int {
    if s == [] then 0 else SeqSum(s[..|s| - 1], f) + f(s[|s| - 1])
  }

  lemma {:induction false} SeqSumAppend<V>(s: seq<V>, t: seq<V>, f: V -> int)
    ensures SeqSum(s + t, f) == SeqSum(s, f) + SeqSum(t, f)
  {
    if t == [] {
      assert s + t == s;
    } else {
      assert (s + t)[..|s + t| - 1] == s + t[..|t| - 1];
      SeqSumAppend(s, t[..|t| - 1], f);
    }
  }

  lemma {:induction false} SeqSumSplit<V>(s: seq<V>, f: V -> int, g: V -> int, h: V -> int)
    requires forall i :: 0 <= i < |s| ==> f(s[i]) == g(s[i]) + h(s[i])
    ensures SeqSum(s, f) == SeqSum(s, g) + SeqSum(s, h)
  {
    if s != [] {
      SeqSumSplit(s[..|s| - 1], f, g, h);
    }
  }

  lemma {:induction false} SeqSumSame<V>(s: seq<V>, f: V -> int, g: V -> int)
    requires forall i :: 0 <= i < |s| ==> f(s[i]) == g(s[i])
    ensures SeqSum(s, f) == SeqSum(s, g)
  {
    if s != [] {
      SeqSumSame(s[..|s| - 1], f, g);
    }
  }

  lemma {:induction false} SeqSumNonNegative<V>(s: seq<V>, f: V -> int)
    requires forall i :: 0 <= i < |s| ==> f(s[i]) >= 0
    ensures SeqSum(s, f) >= 0
    ensures SeqSum(s, f) == 0 <==> forall i :: 0 <= i < |s| ==> f(s[i]) == 0
  {
    if s != [] {
      var n := |s| - 1;
      SeqSumNonNegative(s[..n], f);
      if forall i :: 0 <= i < |s| ==> f(s[i]) == 0 {
        forall i | 0 <= i < n ensures f(s[..n][i]) == 0 {
          assert s[..n][i] == s[i];
        }
      }
      if SeqSum(s, f) == 0 {
        forall i | 0 <= i < |s| ensures f(s[i]) == 0 {
          if i < n { assert s[..n][i] == s[i]; }
        }
      }
    }
  }

  lemma MultisetCancel<V>(a: multiset<V>, b: multiset<V>, x: V)
    requires a + multiset{x} == b + multiset{x}
    ensures a == b
  {
    assert a == (a + multiset{x}) - multiset{x};
    assert b == (b + multiset{x}) - multiset{x};
  }

  lemma {:induction false} SeqSumPermutation<V>(s: seq<V>, t: seq<V>, f: V -> int)
    requires multiset(s) == multiset(t)
    ensures SeqSum(s, f) == SeqSum(t, f)
  {
    if s == [] {
      assert t == [] by { assert |multiset(t)| == 0; }
    } else {
      var n := |s| - 1;
      var x := s[n];
      assert s == s[..n] + [x];
      assert x in multiset(t);
      var i :| 0 <= i < |t| && t[i] == x;
      var a, b := t[..i], t[i + 1..];
      assert t == a + [x] + b;
      calc {
        multiset(s[..n]) + multiset{x};
        multiset(s[..n] + [x]);
        multiset(t);
        multiset(a + [x] + b);
        multiset(a) + multiset{x} + multiset(b);
        multiset(a + b) + multiset{x};
      }
      MultisetCancel(multiset(s[..n]), multiset(a + b), x);
      SeqSumPermutation(s[..n], a + b, f);
      SeqSumAppend(a, b, f);
      SeqSumAppend(a + [x], b, f);
      SeqSumAppend(a, [x], f);
      assert SeqSum([x], f) == f(x) by { assert [x][..0] == []; }
    }
  }

  /** No element twice. */
  ghost predicate Distinct<V(!new)>(s: seq<V>) {
    forall i, j :: 0 <= i < j < |s| ==> s[i] != s[j]
  }

  /** `ids` lists every key of `m` once. */
  ghost predicate Lists<K(!new), V>(ids: seq<K>, m: map<K, V>) {
    (forall i, j :: 0 <= i < j < |ids| ==> ids[i] != ids[j])
    && (forall k :: k in ids <==> k in m)
  }

  function Rows<K, V>(ids: seq<K>, m: map<K, V>): (r: seq<V>)
    requires forall k :: k in ids ==> k in m
    ensures |r| == |ids| && forall i :: 0 <= i < |ids| ==> r[i] == m[ids[i]]
  {
    seq(|ids|, i requires 0 <= i < |ids| => m[ids[i]])
  }

  lemma ListsFront<K(!new), V>(ids: seq<K>, m: map<K, V>)
    requires Lists(ids, m) && ids != []
    ensures var n := |ids| - 1; Lists(ids[..n], m - {ids[n]}) && ids[n] in m
  {
    var n := |ids| - 1;
    assert ids == ids[..n] + [ids[n]];
    forall j ensures j in ids[..n] <==> j in m - {ids[n]} {
      assert j in ids <==> j in ids[..n] || j == ids[n];
    }
  }

  lemma ListsNothing<K(!new), V>(m: map<K, V>)
    requires Lists([], m)
    ensures m == map[]
  {
    assert forall k :: k in m ==> k in [];
    assert m.Keys == {};
  }

  lemma RowsFront<K(!new), V>(ids: seq<K>, m: map<K, V>)
    requires Lists(ids, m) && ids != [] && Lists(ids[..|ids| - 1], m - {ids[|ids| - 1]})
    ensures var n := |ids| - 1; Rows(ids, m)[..n] == Rows(ids[..n], m - {ids[n]}) && Rows(ids, m)[n] == m[ids[n]]
  {
  }

  /** Summing a query result, in whatever order it lists the table, sums the table. */
  lemma {:induction false} SeqSumOfTable<K(!new), V>(ids: seq<K>, m: map<K, V>, f: V -> int)
    requires Lists(ids, m)
    ensures SeqSum(Rows(ids, m), f) == MapSum(m, f)
    decreases |ids|
  {
    if ids == [] {
      ListsNothing(m);
    } else {
      var n := |ids| - 1;
      ListsFront(ids, m);
      SeqSumOfTable(ids[..n], m - {ids[n]}, f);
      RowsFront(ids, m);
      MapSumRemove(m, ids[n], f);
    }
  }
}
