// Sums of the values of finite maps, and how they change when some entries change.

module Sums {
  import opened Lists

  ghost function Sum<K>(m: map<K, int>): int
    decreases |m|
  {
    if m == map[] then 0
    else
      var k :| k in m;
      m[k] + Sum(m - {k})
  }

  // The sum does not depend on the order in which entries are taken.
  lemma {:induction false} SumRemove<K>(m: map<K, int>, k: K)
    requires k in m
    ensures Sum(m) == m[k] + Sum(m - {k})
    decreases |m|
  {
    var j :| j in m && Sum(m) == m[j] + Sum(m - {j});
    if j != k {
      SumRemove(m - {j}, k);
      SumRemove(m - {k}, j);
      assert m - {j} - {k} == m - {k} - {j};
    }
  }

  lemma SumInsert<K>(m: map<K, int>, k: K, v: int)
    requires k !in m
    ensures Sum(m[k := v]) == Sum(m) + v
  {
    SumRemove(m[k := v], k);
    assert m[k := v] - {k} == m;
  }

  lemma SumUpdate<K>(m: map<K, int>, k: K, v: int)
    requires k in m
    ensures Sum(m[k := v]) == Sum(m) - m[k] + v
  {
    SumRemove(m, k);
    SumRemove(m[k := v], k);
    assert m[k := v] - {k} == m - {k};
  }

  // The sum of the entries of m at the keys ks.
  ghost function SumAt<K>(m: map<K, int>, ks: seq<K>): int
    requires forall k :: k in ks ==> k in m
  {
    if ks == [] then 0 else SumAt(m, ks[..|ks| - 1]) + m[ks[|ks| - 1]]
  }

  lemma {:induction false} SumAtAgrees<K>(m: map<K, int>, n: map<K, int>, ks: seq<K>)
    requires forall k :: k in ks ==> k in m && k in n && m[k] == n[k]
    ensures SumAt(m, ks) == SumAt(n, ks)
  {
    if ks == [] {
    } else {
      SumAtAgrees(m, n, ks[..|ks| - 1]);
    }
  }

  // Changing the entries at ks, and no others, changes the sum by the change at ks.
  lemma {:induction false} SumChange<K>(m: map<K, int>, n: map<K, int>, ks: seq<K>)
    requires m.Keys == n.Keys && Distinct(ks)
    requires forall k :: k in ks ==> k in m
    requires forall k :: k in m && k !in ks ==> m[k] == n[k]
    ensures Sum(n) - Sum(m) == SumAt(n, ks) - SumAt(m, ks)
    decreases |ks|
  {
    if ks == [] {
      assert m == n;
    } else {
      var init, k := ks[..|ks| - 1], ks[|ks| - 1];
      var mid := n[k := m[k]];
      assert k !in init;
      SumChange(m, mid, init);
      SumUpdate(n, k, m[k]);
      SumAtAgrees(mid, n, init);
    }
  }

  // Adding entries at the new keys ks adds their sum.
  lemma {:induction false} SumExtend<K>(m: map<K, int>, n: map<K, int>, ks: seq<K>)
    requires Distinct(ks) && forall k :: k in ks ==> k !in m
    requires forall k :: k in n <==> k in m || k in ks
    requires forall k :: k in m ==> m[k] == n[k]
    ensures Sum(n) == Sum(m) + SumAt(n, ks)
    decreases |ks|
  {
    if ks == [] {
      assert m == n;
    } else {
      var init, k := ks[..|ks| - 1], ks[|ks| - 1];
      assert k !in init;
      assert forall j :: j in ks <==> j in init || j == k;
      SumExtend(m, n - {k}, init);
      SumRemove(n, k);
      SumAtAgrees(n - {k}, n, init);
    }
  }

  lemma {:induction false} SumNonNegative<K>(m: map<K, int>)
    requires forall k :: k in m ==> m[k] >= 0
    ensures Sum(m) >= 0
    decreases |m|
  {
    if m == map[] {
    } else {
      var k :| k in m;
      SumRemove(m, k);
      SumNonNegative(m - {k});
    }
  }

  lemma {:induction false} SumPlus<K>(m: map<K, int>, n: map<K, int>, s: map<K, int>)
    requires m.Keys == n.Keys == s.Keys
    requires forall k :: k in s ==> s[k] == m[k] + n[k]
    ensures Sum(s) == Sum(m) + Sum(n)
    decreases |s|
  {
    if s == map[] {
      assert m == map[] && n == map[];
    } else {
      var k :| k in s;
      SumRemove(s, k);
      SumRemove(m, k);
      SumRemove(n, k);
      SumPlus(m - {k}, n - {k}, s - {k});
    }
  }

  lemma {:induction false} SumAtMost<K>(m: map<K, int>, n: map<K, int>)
    requires m.Keys <= n.Keys
    requires forall k :: k in m ==> m[k] <= n[k]
    requires forall k :: k in n && k !in m ==> n[k] >= 0
    ensures Sum(m) <= Sum(n)
    decreases |n|
  {
    if n == map[] {
      assert m == map[];
    } else {
      var k :| k in n;
      SumRemove(n, k);
      if k in m { SumRemove(m, k); } else { assert m - {k} == m; }
      SumAtMost(m - {k}, n - {k});
    }
  }

  lemma SumLess<K>(m: map<K, int>, n: map<K, int>, k: K)
    requires m.Keys == n.Keys && k in m && m[k] < n[k]
    requires forall j :: j in m ==> m[j] <= n[j]
    ensures Sum(m) < Sum(n)
  {
    SumRemove(m, k);
    SumRemove(n, k);
    SumAtMost(m - {k}, n - {k});
  }

  lemma SumOfOne<K>(m: map<K, int>, k: K)
    requires k in m && forall j :: j in m && j != k ==> m[j] == 0
    ensures Sum(m) == m[k]
  {
    SumRemove(m, k);
    SumOfZeros(m - {k});
  }

  lemma {:induction false} SumOfZeros<K>(m: map<K, int>)
    requires forall k :: k in m ==> m[k] == 0
    ensures Sum(m) == 0
    decreases |m|
  {
    if m == map[] {
    } else {
      var k :| k in m;
      SumRemove(m, k);
      SumOfZeros(m - {k});
    }
  }
}
