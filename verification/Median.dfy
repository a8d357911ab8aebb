/** The median of a window's readings: the in-place insertion sort of the
oracle, and what its result means for any list of readings. */
module Median {
  import opened Numeric
  import opened Transactions

  /** Capacity of the stack buffer, equal to the hard limit on oracles. */
  const BUFFER_LEN: nat := 10

  ghost predicate Sorted(t: seq<int>) {
    forall i, j :: 0 <= i < j < |t| ==> t[i] <= t[j]
  }

  /** `key` placed behind every element of `t` that is not larger. */
  function Insert(t: seq<int>, key: int): seq<int> {
    if t != [] && t[|t| - 1] > key then Insert(t[..|t| - 1], key) + [t[|t| - 1]] else t + [key]
  }

  function Sort(s: seq<int>): seq<int> {
    if s == [] then [] else Insert(Sort(s[..|s| - 1]), s[|s| - 1])
  }

  /** The middle element, or the truncated mean of the two middle ones. */
  function Middle(t: seq<int>): int
    requires t != []
  {
    var n := |t|;
    if n % 2 == 0 then TruncDiv(t[n / 2 - 1] + t[n / 2], 2) else t[n / 2]
  }

  function MedianOf(s: seq<int>): int
    requires s != []
  {
    SortSameBag(s);
    Middle(Sort(s))
  }

  // ---- The sort sorts, and nothing else could ----

  lemma BagPush(s: seq<int>, x: int)
    ensures multiset(s + [x]) == multiset(s) + multiset{x}
  {
  }

  lemma {:induction false} InsertBag(t: seq<int>, key: int)
    ensures multiset(Insert(t, key)) == multiset(t) + multiset{key}
  {
    if t != [] && t[|t| - 1] > key {
      var front, last := t[..|t| - 1], t[|t| - 1];
      InsertBag(front, key);
      BagPush(front, last);
      BagPush(Insert(front, key), last);
      assert t == front + [last];
    } else {
      BagPush(t, key);
    }
  }

  lemma InsertSorted(t: seq<int>, key: int, hi: int)
    requires Sorted(t) && (t == [] || t[|t| - 1] <= hi) && key <= hi
    ensures Sorted(Insert(t, key)) && Insert(t, key) != []
    ensures Insert(t, key)[|Insert(t, key)| - 1] <= hi
  {
    if t != [] && t[|t| - 1] > key {
      InsertSorted(t[..|t| - 1], key, t[|t| - 1]);
    }
  }

  lemma {:induction false} SortBag(s: seq<int>)
    ensures multiset(Sort(s)) == multiset(s)
  {
    if s != [] {
      var front, last := s[..|s| - 1], s[|s| - 1];
      SortBag(front);
      InsertBag(Sort(front), last);
      BagPush(front, last);
      assert s == front + [last];
    }
  }

  lemma {:induction false} SortSorted(s: seq<int>)
    ensures Sorted(Sort(s))
    ensures multiset(Sort(s)) == multiset(s)
  {
    SortBag(s);
    if s != [] {
      SortSorted(s[..|s| - 1]);
      var t, key := Sort(s[..|s| - 1]), s[|s| - 1];
      InsertSorted(t, key, if t == [] then key else Max(key, t[|t| - 1]));
    }
  }

  lemma SortSameBag(s: seq<int>)
    ensures |Sort(s)| == |s|
    ensures multiset(Sort(s)) == multiset(s)
  {
    SortSorted(s);
    assert |multiset(Sort(s))| == |multiset(s)|;
  }

  lemma LastIsLargest(t: seq<int>, x: int)
    requires Sorted(t) && x in multiset(t)
    ensures t != [] && x <= t[|t| - 1]
  {
    assert x in t;
  }

  lemma WithoutLast(t: seq<int>)
    requires t != []
    ensures multiset(t[..|t| - 1]) == multiset(t) - multiset{t[|t| - 1]}
  {
    assert t == t[..|t| - 1] + [t[|t| - 1]];
  }

  lemma SameBagSameSize(t: seq<int>, u: seq<int>)
    requires multiset(t) == multiset(u)
    ensures |t| == |u|
  {
    assert |t| == |multiset(t)| == |multiset(u)| == |u|;
  }

  lemma SameLast(t: seq<int>, u: seq<int>)
    requires Sorted(t) && Sorted(u) && multiset(t) == multiset(u)
    requires |t| == |u| != 0
    ensures t[|t| - 1] == u[|u| - 1]
    ensures multiset(t[..|t| - 1]) == multiset(u[..|u| - 1])
  {
    LastIsLargest(t, u[|u| - 1]);
    LastIsLargest(u, t[|t| - 1]);
    WithoutLast(t);
    WithoutLast(u);
  }

  lemma {:induction false} SortedUnique(t: seq<int>, u: seq<int>)
    requires Sorted(t) && Sorted(u) && multiset(t) == multiset(u)
    ensures t == u
  {
    SameBagSameSize(t, u);
    if t != [] {
      SameLast(t, u);
      SortedUnique(t[..|t| - 1], u[..|u| - 1]);
      assert t == t[..|t| - 1] + [t[|t| - 1]];
    }
  }

  /** Any sorted rearrangement of the readings is the one the oracle computes. */
  lemma SortCorrect(s: seq<int>, t: seq<int>)
    ensures t == Sort(s) <==> Sorted(t) && multiset(t) == multiset(s)
  {
    SortSorted(s);
    if Sorted(t) && multiset(t) == multiset(s) {
      SortedUnique(t, Sort(s));
    }
  }

  lemma MedianOfPermutation(s: seq<int>, t: seq<int>)
    requires s != [] && multiset(s) == multiset(t)
    ensures t != [] && MedianOf(s) == MedianOf(t)
  {
    assert |s| == |multiset(s)| == |multiset(t)| == |t|;
    SortSorted(s);
    SortCorrect(t, Sort(s));
  }

  // ---- Order statistics by counting ----

  /** How many elements of `s` are at most `v`. */
  function CountLe(s: seq<int>, v: int): nat {
    if s == [] then 0 else CountLe(s[..|s| - 1], v) + if s[|s| - 1] <= v then 1 else 0
  }

  lemma InsertCount(t: seq<int>, key: int, v: int)
    ensures CountLe(Insert(t, key), v) == CountLe(t, v) + if key <= v then 1 else 0
  {
    var r := Insert(t, key);
    assert r[..|r| - 1] == if t != [] && t[|t| - 1] > key then Insert(t[..|t| - 1], key) else t;
  }

  lemma SortCount(s: seq<int>, v: int)
    ensures CountLe(Sort(s), v) == CountLe(s, v)
  {
    if s != [] {
      SortCount(s[..|s| - 1], v);
      InsertCount(Sort(s[..|s| - 1]), s[|s| - 1], v);
    }
  }

  lemma CountAll(t: seq<int>, v: int)
    ensures CountLe(t, v) <= |t|
    ensures (forall i :: 0 <= i < |t| ==> t[i] <= v) ==> CountLe(t, v) == |t|
  {
  }

  lemma {:induction false} SortedRank(t: seq<int>, k: nat, v: int)
    requires Sorted(t) && k < |t|
    ensures t[k] <= v <==> k < CountLe(t, v)
  {
    var n := |t| - 1;
    CountAll(t, v);
    CountAll(t[..n], v);
    if t[n] > v && k < n {
      SortedRank(t[..n], k, v);
    }
  }

  /** The element at position `k` of the sorted readings is at most `v` exactly
  when more than `k` readings are: the buffer holds the order statistics. */
  lemma OrderStatistic(s: seq<int>, k: nat, v: int)
    requires k < |s|
    ensures k < |Sort(s)| && (Sort(s)[k] <= v <==> k < CountLe(s, v))
  {
    SortSorted(s);
    SortSameBag(s);
    SortedRank(Sort(s), k, v);
    SortCount(s, v);
  }

  lemma CountPointwise(s: seq<int>, t: seq<int>, v: int)
    requires |s| == |t| && forall i :: 0 <= i < |s| ==> s[i] <= t[i]
    ensures CountLe(t, v) <= CountLe(s, v)
  {
  }

  lemma SortMono(s: seq<int>, t: seq<int>, k: nat)
    requires |s| == |t| && k < |s|
    requires forall i :: 0 <= i < |s| ==> s[i] <= t[i]
    ensures |Sort(s)| == |Sort(t)| == |s| && Sort(s)[k] <= Sort(t)[k]
  {
    SortSameBag(s);
    SortSameBag(t);
    var v := Sort(t)[k];
    OrderStatistic(t, k, v);
    CountPointwise(s, t, v);
    OrderStatistic(s, k, v);
  }

  /** Raising any readings never lowers the median. */
  lemma MedianMonotone(s: seq<int>, t: seq<int>)
    requires |s| == |t| != 0
    requires forall i :: 0 <= i < |s| ==> s[i] <= t[i]
    ensures MedianOf(s) <= MedianOf(t)
  {
    SortSameBag(s);
    SortSameBag(t);
    SortMono(s, t, |s| / 2);
    if |s| % 2 == 0 {
      SortMono(s, t, |s| / 2 - 1);
    }
  }

  // ---- A strict majority pins the median down ----

  lemma CountMajority(s: seq<int>, honest: set<nat>, v: int)
    requires forall i :: i in honest ==> i < |s| && s[i] <= v
    ensures |honest| <= CountLe(s, v)
  {
    if s == [] {
      assert honest == {};
    } else {
      var n := |s| - 1;
      CountMajority(s[..n], honest - {n}, v);
      assert n !in honest ==> honest - {n} == honest;
    }
  }

  lemma CountMinority(s: seq<int>, honest: set<nat>, v: int)
    requires forall i :: i in honest ==> i < |s| && v < s[i]
    ensures CountLe(s, v) <= |s| - |honest|
  {
    if s == [] {
      assert honest == {};
    } else {
      var n := |s| - 1;
      CountMinority(s[..n], honest - {n}, v);
      assert n !in honest ==> honest - {n} == honest;
    }
  }

  /** If strictly more than half of the readings lie in `[lo, hi]`, so does the
  median, whatever the others are. */
  lemma MajorityBoundsMedian(s: seq<int>, honest: set<nat>, lo: int, hi: int)
    requires 2 * |honest| > |s|
    requires forall i :: i in honest ==> i < |s| && lo <= s[i] <= hi
    ensures s != [] && lo <= MedianOf(s) <= hi
  {
    CountMajority(s, honest, hi);
    CountMinority(s, honest, lo - 1);
    CountAll(s, hi);
    SortSameBag(s);
    var m := |s| / 2;
    OrderStatistic(s, m, hi);
    OrderStatistic(s, m, lo - 1);
    if |s| % 2 == 0 {
      OrderStatistic(s, m - 1, hi);
      OrderStatistic(s, m - 1, lo - 1);
    }
  }

  ghost function Indices(n: nat): (r: set<nat>)
    ensures |r| == n && forall i :: i in r <==> 0 <= i < n
  {
    if n == 0 then {} else Indices(n - 1) + {n - 1}
  }

  /** The median lies between the smallest and the largest reading; for `i64`
  readings the cast back from `i128` therefore loses nothing. */
  lemma MedianInRange(s: seq<int>, lo: int, hi: int)
    requires s != [] && forall i :: 0 <= i < |s| ==> lo <= s[i] <= hi
    ensures lo <= MedianOf(s) <= hi
  {
    MajorityBoundsMedian(s, Indices(|s|), lo, hi);
  }

  // ---- Where the median lies ----

  /** `m` is the middle element of the sorted `t`, or halfway between the two middle
  ones, less a half toward zero if there is no integer there. */
  predicate InTheMiddle(t: seq<int>, m: int)
    requires t != []
  {
    var n := |t|;
    if n % 2 == 1 then m == t[n / 2]
    else
      var gap := t[n / 2 - 1] + t[n / 2] - 2 * m;
      if t[n / 2 - 1] + t[n / 2] >= 0 then 0 <= gap <= 1 else -1 <= gap <= 0
  }

  /** So it is for any sorted rearrangement of the readings. */
  lemma MedianIsInTheMiddle(s: seq<int>, t: seq<int>)
    requires s != [] && Sorted(t) && multiset(t) == multiset(s)
    ensures t != [] && InTheMiddle(t, MedianOf(s))
  {
    SortSameBag(s);
    SortCorrect(s, t);
    if |t| % 2 == 0 {
      TruncDivTruncates(t[|t| / 2 - 1] + t[|t| / 2], 2);
    }
  }

  lemma MedianIsInEveryMiddle(s: seq<int>)
    requires s != []
    ensures forall t :: Sorted(t) && multiset(t) == multiset(s) ==> t != [] && InTheMiddle(t, MedianOf(s))
  {
    forall t | Sorted(t) && multiset(t) == multiset(s) ensures t != [] && InTheMiddle(t, MedianOf(s)) {
      MedianIsInTheMiddle(s, t);
    }
  }

  lemma MiddleIsBetween(t: seq<int>, m: int)
    requires t != [] && Sorted(t) && InTheMiddle(t, m)
    ensures t[(|t| - 1) / 2] <= m <= t[|t| / 2]
  {
    if |t| % 2 == 0 {
      assert (|t| - 1) / 2 == |t| / 2 - 1;
    }
  }

  lemma {:induction false} HalvesAround(s: seq<int>, lo: nat, hi: nat, m: int)
    requires lo < |s| <= 2 * lo + 2 && 2 * hi <= |s| && hi < |s| == |Sort(s)|
    requires Sort(s)[lo] <= m <= Sort(s)[hi]
    ensures 2 * CountLe(s, m) >= |s| >= 2 * CountLe(s, m - 1)
  {
    OrderStatistic(s, lo, m);
    OrderStatistic(s, hi, m - 1);
  }

  /** At least half of the readings are not above the median, and at most half are
  below it. */
  lemma {:induction false} MedianHalves(s: seq<int>)
    requires s != []
    ensures 2 * CountLe(s, MedianOf(s)) >= |s| >= 2 * CountLe(s, MedianOf(s) - 1)
  {
    SortSorted(s);
    SortSameBag(s);
    MedianIsInTheMiddle(s, Sort(s));
    MiddleIsBetween(Sort(s), MedianOf(s));
    HalvesAround(s, (|s| - 1) / 2, |s| / 2, MedianOf(s));
  }

  /** The values with their signs turned, in reverse. */
  function Mirror(s: seq<int>): (r: seq<int>)
    ensures |r| == |s|
  {
    if s == [] then [] else [-s[|s| - 1]] + Mirror(s[..|s| - 1])
  }

  lemma {:induction false} MirrorAt(s: seq<int>, i: nat)
    requires i < |s|
    ensures Mirror(s)[i] == -s[|s| - 1 - i]
  {
    if i > 0 {
      MirrorAt(s[..|s| - 1], i - 1);
    }
  }

  lemma BagOfLast(s: seq<int>, x: int)
    requires s != []
    ensures multiset(s)[x] == multiset(s[..|s| - 1])[x] + if x == s[|s| - 1] then 1 else 0
  {
    assert s == s[..|s| - 1] + [s[|s| - 1]];
  }

  lemma {:induction false} BagOfMirror(s: seq<int>, x: int)
    requires s != []
    ensures multiset(Mirror(s))[x] == multiset(Mirror(s[..|s| - 1]))[x] + if x == -s[|s| - 1] then 1 else 0
  {
    var head, rest := -s[|s| - 1], Mirror(s[..|s| - 1]);
    assert Mirror(s) == [head] + rest;
    assert multiset([head] + rest) == multiset{head} + multiset(rest);
  }

  lemma {:induction false} MirrorKeepsDifference(s: seq<int>, x: int)
    requires s != []
    ensures multiset(Mirror(s))[x] + multiset(s[..|s| - 1])[-x]
         == multiset(s)[-x] + multiset(Mirror(s[..|s| - 1]))[x]
  {
    BagOfLast(s, -x);
    BagOfMirror(s, x);
  }

  lemma {:induction false} MirrorBag(s: seq<int>, x: int)
    ensures multiset(Mirror(s))[x] == multiset(s)[-x]
  {
    if s == [] {
      assert Mirror(s) == [];
    } else {
      MirrorBag(s[..|s| - 1], x);
      MirrorKeepsDifference(s, x);
    }
  }

  lemma {:induction false} MirrorMiddle(t: seq<int>, m: int, k: int)
    requires t != [] && InTheMiddle(t, m) && InTheMiddle(Mirror(t), k)
    ensures k == -m
  {
    var n := |t|;
    MirrorAt(t, n / 2);
    if n % 2 == 0 {
      MirrorAt(t, n / 2 - 1);
    }
  }

  lemma {:induction false} MirrorSorted(t: seq<int>)
    requires Sorted(t)
    ensures Sorted(Mirror(t))
  {
    forall i, j | 0 <= i < j < |t| ensures Mirror(t)[i] <= Mirror(t)[j] {
      MirrorAt(t, i);
      MirrorAt(t, j);
    }
  }

  lemma {:induction false} MirrorSameBag(s: seq<int>, t: seq<int>)
    requires multiset(s) == multiset(t)
    ensures multiset(Mirror(s)) == multiset(Mirror(t))
  {
    forall x ensures multiset(Mirror(s))[x] == multiset(Mirror(t))[x] {
      MirrorBag(s, x);
      MirrorBag(t, x);
    }
  }

  /** Turning all signs turns the sign of the median: no side is favoured. */
  lemma {:induction false} MedianOfMirror(s: seq<int>)
    requires s != []
    ensures MedianOf(Mirror(s)) == -MedianOf(s)
  {
    var t := Sort(s);
    SortSorted(s);
    SortSameBag(s);
    MirrorSameBag(s, t);
    MirrorSorted(t);
    MedianIsInTheMiddle(s, t);
    MedianIsInTheMiddle(Mirror(s), Mirror(t));
    MirrorMiddle(t, MedianOf(s), MedianOf(Mirror(s)));
  }

  // ---- The sort on the stack buffer ----

  /** The key lands behind the elements that are not larger. */
  lemma {:induction false} InsertBetween(front: seq<int>, back: seq<int>, key: int)
    requires forall i :: 0 <= i < |back| ==> back[i] > key
    requires front == [] || front[|front| - 1] <= key
    ensures Insert(front + back, key) == front + [key] + back
  {
    if back == [] {
      assert front + back == front;
    } else {
      var m := |back| - 1;
      var shorter := back[..m];
      InsertBetween(front, shorter, key);
      assert (front + back)[..|front + back| - 1] == front + shorter;
      assert shorter + [back[m]] == back;
      assert front + [key] + shorter + [back[m]] == front + [key] + (shorter + [back[m]]);
    }
  }

  /** A sequence with the key at `j`, smaller elements before and shifted larger
  ones behind it, is the insertion. */
  lemma {:induction false} Assembled(t: seq<int>, before: seq<int>, j: nat, key: int)
    requires j <= |before| && |t| == |before| + 1
    requires forall k :: 0 <= k < j ==> t[k] == before[k]
    requires t[j] == key && (j == 0 || before[j - 1] <= key)
    requires forall k :: j < k < |t| ==> t[k] == before[k - 1] && t[k] > key
    ensures t == Insert(before, key)
  {
    var front, back := before[..j], before[j..];
    forall k | 0 <= k < |back| ensures back[k] > key {
      assert back[k] == before[j + k] && t[j + k + 1] == before[j + k];
    }
    InsertBetween(front, back, key);
    assert front + back == before;
    assert t == front + [key] + back;
  }

  /** One pass of the sort: shift the larger elements up, drop the key in. */
  method ShiftIn(arr: array<int>, i: nat)
    requires i < arr.Length
    modifies arr
    ensures arr[..i + 1] == Insert(old(arr[..i]), old(arr[i]))
    ensures arr[i + 1..] == old(arr[i + 1..])
  {
    ghost var before := arr[..i];
    var key := arr[i];
    var j := i;
    while j > 0 && arr[j - 1] > key
      invariant 0 <= j <= i
      invariant forall k :: 0 <= k < j ==> arr[k] == before[k]
      invariant forall k :: j < k <= i ==> arr[k] == before[k - 1] && arr[k] > key
      invariant arr[i + 1..] == old(arr[i + 1..])
    {
      arr[j] := arr[j - 1];
      j := j - 1;
    }
    arr[j] := key;
    Assembled(arr[..i + 1], before, j, key);
  }

  lemma SortPush(s: seq<int>, i: nat)
    requires i < |s|
    ensures Sort(s[..i + 1]) == Insert(Sort(s[..i]), s[i])
  {
    assert s[..i + 1][..i] == s[..i];
  }

  method SortBuffer(arr: array<int>, n: nat)
    requires 0 < n <= arr.Length
    modifies arr
    ensures arr[..n] == Sort(old(arr[..n]))
  {
    ghost var start := arr[..];
    SortPush(start, 0);
    for i := 1 to n
      invariant arr[..i] == Sort(start[..i])
      invariant arr[i..] == start[i..]
    {
      ghost var rest := arr[i..];
      assert arr[i] == rest[0] == start[i];
      assert arr[i + 1..] == rest[1..] == start[i + 1..];
      ShiftIn(arr, i);
      SortPush(start, i);
    }
    assert start[..n] == old(arr[..n]);
  }

  /** Reverts on an empty list and on one that exceeds the buffer. */
  method MedianI64(values: seq<int>) returns (r: Txn<int>)
    requires forall i :: 0 <= i < |values| ==> IsI64(values[i])
    ensures |values| == 0 || |values| > BUFFER_LEN ==> r.Reverted?
    ensures 0 < |values| <= BUFFER_LEN ==> r == Committed(MedianOf(values)) && IsI64(r.value)
    ensures r.Committed? ==> forall t :: Sorted(t) && multiset(t) == multiset(values) ==> t != [] && InTheMiddle(t, r.value)
  {
    var n := |values|;
    if n == 0 || n > BUFFER_LEN {
      return Reverted;
    }
    var arr := new int[BUFFER_LEN](_ => 0);
    for i := 0 to n
      invariant arr[..i] == values[..i]
    {
      arr[i] := values[i];
    }
    assert arr[..n] == values;
    SortBuffer(arr, n);
    MedianInRange(values, I64_MIN, I64_MAX);
    if n % 2 == 0 {
      r := Committed(TruncDiv(arr[n / 2 - 1] + arr[n / 2], 2));
    } else {
      r := Committed(arr[n / 2]);
    }
    MedianIsInEveryMiddle(values);
  }
}
