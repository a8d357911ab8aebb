/** Sums over maps and sequences. */
module Sums {

  function Get<K>(m: map<K, int>, k: K): int {
    if k in m then m[k] else 0
  }

  /** A stored counter; a missing one reads as zero. */
  function Counter<K>(m: map<K, nat>, k: K): nat {
    if k in m then m[k] else 0
  }

  /** The sum of all values of a map. */
  ghost function Total<K>(m: map<K, int>): int
    decreases |m|
  {
    if m == map[] then 0
    else
      var k :| k in m;
      m[k] + Total(m - {k})
  }

  lemma {:induction false} TotalWithout<K>(m: map<K, int>, k: K)
    requires k in m
    ensures Total(m) == m[k] + Total(m - {k})
    decreases |m|
  {
    var j :| j in m && Total(m) == m[j] + Total(m - {j});
    if j != k {
      TotalWithout(m - {j}, k);
      TotalWithout(m - {k}, j);
      assert m - {j} - {k} == m - {k} - {j};
    }
  }

  lemma TotalUpdate<K>(m: map<K, int>, k: K, v: int)
    ensures Total(m[k := v]) == Total(m) - Get(m, k) + v
  {
    TotalWithout(m[k := v], k);
    if k in m {
      TotalWithout(m, k);
      assert m[k := v] - {k} == m - {k};
    } else {
      assert m[k := v] - {k} == m;
    }
  }

  lemma {:induction false} TotalAtLeast<K>(m: map<K, int>, k: K)
    requires forall j :: j in m ==> 0 <= m[j]
    ensures 0 <= Get(m, k) <= Total(m)
    decreases |m|
  {
    if m != map[] {
      var j :| j in m;
      TotalAtLeast(m - {j}, k);
      TotalWithout(m, j);
    }
  }

  function SeqSum(s: seq<int>): int {
    if s == [] then 0 else s[0] + SeqSum(s[1..])
  }

  lemma SeqSumPush(s: seq<int>, x: int)
    ensures SeqSum(s + [x]) == SeqSum(s) + x
  {
    if s != [] {
      assert (s + [x])[1..] == s[1..] + [x];
    }
  }

  predicate AllPositive(s: seq<int>) {
    forall i :: 0 <= i < |s| ==> 0 < s[i]
  }

  lemma PositivePrefix(s: seq<int>, k: nat)
    requires AllPositive(s) && k <= |s|
    ensures 0 <= SeqSum(s[..k]) <= SeqSum(s)
  {
    if k > 0 {
      PositivePrefix(s[1..], k - 1);
      assert s[..k][1..] == s[1..][..k - 1];
    } else if s != [] {
      PositivePrefix(s[1..], 0);
    }
  }
}
