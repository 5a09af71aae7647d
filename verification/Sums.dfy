/** Finite sums and counts over maps. */
module Sums {

  ghost function Sum<K>(m: map<K, int>): int
    decreases |m|
  {
    if m == map[] then 0
    else
      var k :| k in m;
      m[k] + Sum(m - {k})
  }

  /** Any entry may be taken out first. */
  lemma {:induction false} SumRemove<K>(m: map<K, int>, k: K)
    requires k in m
    ensures Sum(m) == m[k] + Sum(m - {k})
    decreases |m|
  {
    var j :| j in m && Sum(m) == m[j] + Sum(m - {j});
    if j != k {
      SumRemove(m - {j}, k);
      SumRemove(m - {k}, j);
      assert (m - {j}) - {k} == (m - {k}) - {j};
    }
  }

  lemma SumInsert<K>(m: map<K, int>, k: K, v: int)
    requires k !in m
    ensures Sum(m[k := v]) == v + Sum(m)
  {
    SumRemove(m[k := v], k);
    assert m[k := v] - {k} == m;
  }

  /** Entries that are zero do not matter. */
  lemma {:induction false} SumDropZeros<K>(m: map<K, int>, big: map<K, int>)
    requires m.Keys <= big.Keys
    requires forall k :: k in big ==> big[k] == if k in m then m[k] else 0
    ensures Sum(m) == Sum(big)
    decreases |big|
  {
    if big == map[] {
      assert m == map[];
    } else {
      var k :| k in big;
      SumRemove(big, k);
      if k in m {
        SumRemove(m, k);
        SumDropZeros(m - {k}, big - {k});
      } else {
        SumDropZeros(m, big - {k});
      }
    }
  }

  function Select<K, V>(m: map<K, V>, p: V -> bool): set<K> {
    set k | k in m && p(m[k])
  }

  /** How many entries of m satisfy p. */
  function Count<K, V>(m: map<K, V>, p: V -> bool): nat {
    |Select(m, p)|
  }

  function Bit(b: bool): nat {
    if b then 1 else 0
  }

  lemma SelectPut<K, V>(m: map<K, V>, k: K, v: V, p: V -> bool)
    ensures Select(m[k := v], p) == Select(m, p) - {k} + if p(v) then {k} else {}
  {
    var after := Select(m, p) - {k} + if p(v) then {k} else {};
    assert forall j :: j in Select(m[k := v], p) <==> j in after;
  }

  lemma CountPut<K, V>(m: map<K, V>, k: K, v: V, p: V -> bool)
    ensures Count(m[k := v], p) == Count(m, p) - Bit(k in m && p(m[k])) + Bit(p(v))
  {
    SelectPut(m, k, v, p);
    SizeWithout(Select(m, p), k);
  }

  lemma CountRemove<K, V>(m: map<K, V>, k: K, p: V -> bool)
    requires k in m
    ensures Count(m - {k}, p) == Count(m, p) - Bit(p(m[k]))
  {
    assert Select(m - {k}, p) == Select(m, p) - {k};
    SizeWithout(Select(m, p), k);
  }

  lemma SizeWithout<K>(s: set<K>, k: K)
    ensures |s - {k}| == |s| - Bit(k in s)
  {
    if k !in s {
      assert s - {k} == s;
    }
  }
}
