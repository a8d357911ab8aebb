/** From a window's submissions to its credits: seven medians and the formula,
and what a minority of dishonest readings can do to the outcome. */
module HonestMajority {
  import opened Numeric
  import opened Transactions
  import opened OracleData
  import opened Median
  import opened CreditFormula

  /** One column of a window: the same field of every submission. */
  function Column(field: Reading -> int, subs: seq<Submission>): (c: seq<int>)
    ensures |c| == |subs| && forall i :: 0 <= i < |subs| ==> c[i] == field(subs[i].reading)
  {
    seq(|subs|, i requires 0 <= i < |subs| => field(subs[i].reading))
  }

  function Ph(subs: seq<Submission>): seq<int> { Column((r: Reading) => r.ph, subs) }
  function Turbidity(subs: seq<Submission>): seq<int> { Column((r: Reading) => r.turbidity, subs) }
  function Oxygen(subs: seq<Submission>): seq<int> { Column((r: Reading) => r.dissolvedOxygen, subs) }
  function Flow(subs: seq<Submission>): seq<int> { Column((r: Reading) => r.flowRate, subs) }
  function Temperature(subs: seq<Submission>): seq<int> { Column((r: Reading) => r.temperature, subs) }
  function Nitrogen(subs: seq<Submission>): seq<int> { Column((r: Reading) => r.totalNitrogen, subs) }
  function Phosphorus(subs: seq<Submission>): seq<int> { Column((r: Reading) => r.totalPhosphorus, subs) }

  function Medians(subs: seq<Submission>): Reading
    requires subs != []
  {
    Reading(MedianOf(Ph(subs)), MedianOf(Turbidity(subs)), MedianOf(Oxygen(subs)), MedianOf(Flow(subs)),
            MedianOf(Temperature(subs)), MedianOf(Nitrogen(subs)), MedianOf(Phosphorus(subs)))
  }

  /** Reverts when the median buffer cannot hold the window. */
  function Finalize(cfg: OracleConfig, base: Baselines, subs: seq<Submission>): Txn<Finalization> {
    if subs == [] || |subs| > BUFFER_LEN then Reverted
    else
      ComputeFinalization(cfg, Medians(subs), base, cfg.windowSecs)
  }

  /** Both submission paths build the seven columns reading by reading. */
  method Columns(subs: seq<Submission>)
    returns (ph: seq<int>, turbidity: seq<int>, oxygen: seq<int>, flow: seq<int>, temperature: seq<int>, nitrogen: seq<int>, phosphorus: seq<int>)
    ensures ph == Ph(subs)
    ensures turbidity == Turbidity(subs)
    ensures oxygen == Oxygen(subs)
    ensures flow == Flow(subs)
    ensures temperature == Temperature(subs)
    ensures nitrogen == Nitrogen(subs)
    ensures phosphorus == Phosphorus(subs)
  {
    ph, turbidity, oxygen, flow, temperature, nitrogen, phosphorus := [], [], [], [], [], [], [];
    for k := 0 to |subs|
      invariant |ph| == k && forall i :: 0 <= i < k ==> ph[i] == subs[i].reading.ph
      invariant |turbidity| == k && forall i :: 0 <= i < k ==> turbidity[i] == subs[i].reading.turbidity
      invariant |oxygen| == k && forall i :: 0 <= i < k ==> oxygen[i] == subs[i].reading.dissolvedOxygen
      invariant |flow| == k && forall i :: 0 <= i < k ==> flow[i] == subs[i].reading.flowRate
      invariant |temperature| == k && forall i :: 0 <= i < k ==> temperature[i] == subs[i].reading.temperature
      invariant |nitrogen| == k && forall i :: 0 <= i < k ==> nitrogen[i] == subs[i].reading.totalNitrogen
      invariant |phosphorus| == k && forall i :: 0 <= i < k ==> phosphorus[i] == subs[i].reading.totalPhosphorus
    {
      var s := subs[k].reading;
      ph := ph + [s.ph];
      turbidity := turbidity + [s.turbidity];
      oxygen := oxygen + [s.dissolvedOxygen];
      flow := flow + [s.flowRate];
      temperature := temperature + [s.temperature];
      nitrogen := nitrogen + [s.totalNitrogen];
      phosphorus := phosphorus + [s.totalPhosphorus];
    }
  }

  /** They then take the median of each column and apply the formula. */
  method Aggregate(cfg: OracleConfig, base: Baselines, subs: seq<Submission>) returns (r: Txn<Finalization>)
    ensures r == Finalize(cfg, base, subs)
  {
    var ph, turbidity, oxygen, flow, temperature, nitrogen, phosphorus := Columns(subs);
    var mPh :- MedianI64(ph);
    var mTurbidity := MedianI64(turbidity);
    var mOxygen := MedianI64(oxygen);
    var mFlow := MedianI64(flow);
    var mTemperature := MedianI64(temperature);
    var mNitrogen := MedianI64(nitrogen);
    var mPhosphorus := MedianI64(phosphorus);
    var med := Reading(mPh, mTurbidity.value, mOxygen.value, mFlow.value, mTemperature.value,
                       mNitrogen.value, mPhosphorus.value);
    r := ComputeFinalization(cfg, med, base, cfg.windowSecs);
  }

  // ---- The sandwich ----

  ghost predicate Between(lo: Reading, r: Reading, hi: Reading) {
    && lo.flowRate <= r.flowRate <= hi.flowRate
    && lo.totalNitrogen <= r.totalNitrogen <= hi.totalNitrogen
    && lo.totalPhosphorus <= r.totalPhosphorus <= hi.totalPhosphorus
  }

  /** `honest` names more than half of the submissions of the window, and their
  creditable values lie between those of `lo` and `hi`. */
  ghost predicate HonestRange(subs: seq<Submission>, honest: set<nat>, lo: Reading, hi: Reading) {
    && 2 * |honest| > |subs|
    && 0 <= lo.flowRate
    && (forall i :: i in honest ==> i < |subs| && Between(lo, subs[i].reading, hi))
  }

  lemma HonestMedians(subs: seq<Submission>, honest: set<nat>, lo: Reading, hi: Reading)
    requires HonestRange(subs, honest, lo, hi)
    ensures subs != []
    ensures
      var m := Medians(subs);
      && lo.flowRate <= m.flowRate <= hi.flowRate
      && lo.totalNitrogen <= m.totalNitrogen <= hi.totalNitrogen
      && lo.totalPhosphorus <= m.totalPhosphorus <= hi.totalPhosphorus
  {
    MajorityBoundsMedian(Flow(subs), honest, lo.flowRate, hi.flowRate);
    MajorityBoundsMedian(Nitrogen(subs), honest, lo.totalNitrogen, hi.totalNitrogen);
    MajorityBoundsMedian(Phosphorus(subs), honest, lo.totalPhosphorus, hi.totalPhosphorus);
  }

  ghost function Largest(s: seq<int>): (m: int)
    requires s != []
    ensures forall i :: 0 <= i < |s| ==> s[i] <= m
  {
    if |s| == 1 then s[0] else Max(s[0], Largest(s[1..]))
  }

  ghost function Smallest(s: seq<int>): (m: int)
    requires s != []
    ensures forall i :: 0 <= i < |s| ==> m <= s[i]
  {
    if |s| == 1 then s[0] else Min(s[0], Smallest(s[1..]))
  }

  lemma HonestPenalty(cfg: OracleConfig, base: Baselines, subs: seq<Submission>, honest: set<nat>)
    requires 2 * |honest| > |subs|
    requires forall i :: i in honest ==> i < |subs| && GoodQuality(cfg, base, subs[i].reading)
    ensures subs != [] && Penalty(cfg, Medians(subs), base.temp) == 0
  {
    assert honest != {} by { assert |honest| > 0; }
    assert exists i :: i in honest;
    MajorityBoundsMedian(Ph(subs), honest, cfg.phMin, cfg.phMax);
    MajorityBoundsMedian(Turbidity(subs), honest, Smallest(Turbidity(subs)), cfg.turbidityMax);
    MajorityBoundsMedian(Oxygen(subs), honest, cfg.oxygenMin, Largest(Oxygen(subs)));
    MajorityBoundsMedian(Temperature(subs), honest, Smallest(Temperature(subs)), base.temp);
  }

  /** However the other readings are chosen, a window with an honest majority
  never earns more than the honest extremes would at best; and if the honest
  readings all meet the thresholds it is not penalized and earns at least what
  they would at worst. */
  lemma HonestMajoritySandwich(cfg: OracleConfig, base: Baselines, subs: seq<Submission>,
                               honest: set<nat>, lo: Reading, hi: Reading)
    requires HonestRange(subs, honest, lo, hi) && RatesNonNegative(cfg)
    requires Finalize(cfg, base, subs).Committed?
    ensures
      var fin := Finalize(cfg, base, subs).value;
      && 0 <= fin.total
      && fin.total <= Gross(cfg, base, cfg.windowSecs, hi.flowRate, lo.totalNitrogen, lo.totalPhosphorus)
      && ((forall i :: i in honest ==> GoodQuality(cfg, base, subs[i].reading)) ==>
            && fin.penalty == 0
            && Gross(cfg, base, cfg.windowSecs, lo.flowRate, hi.totalNitrogen, hi.totalPhosphorus) <= fin.total)
  {
    HonestMedians(subs, honest, lo, hi);
    var m, secs := Medians(subs), cfg.windowSecs;
    PenaltyLeavesThirtyPercent(cfg, m, base, secs);
    FinalizationExact(cfg, m, base, secs);
    GrossMono(cfg, base, secs, hi.flowRate, m.flowRate, lo.totalNitrogen, m.totalNitrogen,
              lo.totalPhosphorus, m.totalPhosphorus);
    if forall i :: i in honest ==> GoodQuality(cfg, base, subs[i].reading) {
      HonestPenalty(cfg, base, subs, honest);
      GrossMono(cfg, base, secs, m.flowRate, lo.flowRate, m.totalNitrogen, hi.totalNitrogen,
                m.totalPhosphorus, hi.totalPhosphorus);
    }
  }

  /** Nor can a minority block the window: if the formula fits at the honest
  extremes, it fits at the medians, so the finalization goes through. */
  lemma MinorityCannotBlock(cfg: OracleConfig, base: Baselines, subs: seq<Submission>, honest: set<nat>, lo: Reading, hi: Reading)
    requires cfg.Valid() && RatesNonNegative(cfg) && HonestRange(subs, honest, lo, hi) && |subs| <= BUFFER_LEN
    requires Fits(cfg, base, cfg.windowSecs, hi.flowRate, lo.totalNitrogen, lo.totalPhosphorus)
    ensures Finalize(cfg, base, subs).Committed?
  {
    HonestMedians(subs, honest, lo, hi);
    FitsBelow(cfg, Medians(subs), base, cfg.windowSecs, hi.flowRate, lo.totalNitrogen, lo.totalPhosphorus);
  }

  function Repeated(x: int, n: nat): (s: seq<int>)
    ensures |s| == n && forall i :: 0 <= i < n ==> s[i] == x
  {
    seq(n, _ => x)
  }

  lemma AppendLarge(t: seq<int>, x: int, n: nat)
    requires Sorted(t) && forall i :: 0 <= i < |t| ==> t[i] <= x
    ensures Sorted(t + Repeated(x, n))
  {
  }

  lemma SortedThenLarge(s: seq<int>, x: int, n: nat)
    requires forall i :: 0 <= i < |s| ==> s[i] <= x
    ensures Sort(s + Repeated(x, n)) == Sort(s) + Repeated(x, n)
  {
    SortSorted(s);
    var t := Sort(s);
    forall i | 0 <= i < |t| ensures t[i] <= x {
      assert t[i] in multiset(t) && t[i] in s;
    }
    AppendLarge(t, x, n);
    SortCorrect(s + Repeated(x, n), t + Repeated(x, n));
  }

  /** The median of an even number of readings whose middle two are known. */
  lemma MedianOfTwo(s: seq<int>, h: nat, low: int, high: int, middle: int)
    requires 0 < h && |s| == 2 * h == |Sort(s)| && Sort(s)[h - 1] == low && Sort(s)[h] == high && low + high == 2 * middle
    ensures MedianOf(s) == middle
  {
    assert |s| / 2 == h && |s| % 2 == 0;
    assert TruncDiv(2 * middle, 2) == middle;
  }

  /** Half is not enough: whatever the honest half of a column reports, the other
  half can agree on a value that takes the median past any bound above it. */
  lemma {:induction false} HalfIsNotEnough(honest: seq<int>, bound: int) returns (x: int)
    requires honest != [] && forall i :: 0 <= i < |honest| ==> honest[i] <= bound
    ensures MedianOf(honest + Repeated(x, |honest|)) == bound + 1
  {
    var h, t := |honest|, Sort(honest);
    SortSameBag(honest);
    assert t[h - 1] in multiset(t) && t[h - 1] in honest;
    x := 2 * bound + 2 - t[h - 1];
    SortedThenLarge(honest, x, h);
    MedianOfTwo(honest + Repeated(x, h), h, t[h - 1], x, bound + 1);
  }

  lemma BagWithout<T>(s: seq<T>, j: nat)
    requires j < |s|
    ensures multiset(s[..j] + s[j + 1..]) == multiset(s) - multiset{s[j]}
  {
    assert s == s[..j] + [s[j]] + s[j + 1..];
  }

  lemma ColumnWithout(field: Reading -> int, s: seq<Submission>, j: nat)
    requires j < |s|
    ensures multiset(Column(field, s[..j] + s[j + 1..])) == multiset(Column(field, s)) - multiset{field(s[j].reading)}
  {
    var c := Column(field, s);
    BagWithout(c, j);
    assert Column(field, s[..j] + s[j + 1..]) == c[..j] + c[j + 1..];
  }

  /** Take equal submissions out of two windows: if the columns then agree, they
  agreed before. */
  lemma ColumnsAgree(field: Reading -> int, s: seq<Submission>, i: nat, t: seq<Submission>, j: nat)
    requires i < |s| && j < |t| && s[i] == t[j]
    requires multiset(Column(field, s[..i] + s[i + 1..])) == multiset(Column(field, t[..j] + t[j + 1..]))
    ensures multiset(Column(field, s)) == multiset(Column(field, t))
  {
    ColumnWithout(field, s, i);
    ColumnWithout(field, t, j);
    var v := field(s[i].reading);
    assert Column(field, s)[i] == v && Column(field, t)[j] == v;
    SameAfterRemoval(multiset(Column(field, s)), multiset(Column(field, t)), v);
  }

  /** The first element of one list is somewhere in any rearrangement of it. */
  lemma SameElsewhere<T>(s: seq<T>, t: seq<T>) returns (j: nat)
    requires s != [] && multiset(s) == multiset(t)
    ensures j < |t| && t[j] == s[0]
    ensures multiset(s[..0] + s[1..]) == multiset(t[..j] + t[j + 1..])
  {
    assert s[0] in multiset(t);
    j :| j < |t| && t[j] == s[0];
    BagWithout(s, 0);
    BagWithout(t, j);
  }

  lemma {:induction false} ColumnBag(field: Reading -> int, subs: seq<Submission>, other: seq<Submission>)
    requires |subs| == |other| && multiset(subs) == multiset(other)
    ensures multiset(Column(field, subs)) == multiset(Column(field, other))
  {
    if subs != [] {
      var j := SameElsewhere(subs, other);
      ColumnBag(field, subs[..0] + subs[1..], other[..j] + other[j + 1..]);
      ColumnsAgree(field, subs, 0, other, j);
    }
  }

  lemma SameAfterRemoval<T>(a: multiset<T>, b: multiset<T>, x: T)
    requires x in a && x in b && a - multiset{x} == b - multiset{x}
    ensures a == b
  {
    assert a == a - multiset{x} + multiset{x};
    assert b == b - multiset{x} + multiset{x};
  }

  lemma MedianOfColumn(field: Reading -> int, subs: seq<Submission>, other: seq<Submission>)
    requires |subs| == |other| != 0 && multiset(subs) == multiset(other)
    ensures MedianOf(Column(field, subs)) == MedianOf(Column(field, other))
  {
    ColumnBag(field, subs, other);
    MedianOfPermutation(Column(field, subs), Column(field, other));
  }

  /** The order in which oracles report cannot change the credits. */
  lemma SubmissionOrderIrrelevant(cfg: OracleConfig, base: Baselines, subs: seq<Submission>, other: seq<Submission>)
    requires multiset(subs) == multiset(other)
    ensures Finalize(cfg, base, subs) == Finalize(cfg, base, other)
  {
    assert |subs| == |multiset(subs)| == |multiset(other)| == |other|;
    if subs != [] {
      MedianOfColumn((r: Reading) => r.ph, subs, other);
      MedianOfColumn((r: Reading) => r.turbidity, subs, other);
      MedianOfColumn((r: Reading) => r.dissolvedOxygen, subs, other);
      MedianOfColumn((r: Reading) => r.flowRate, subs, other);
      MedianOfColumn((r: Reading) => r.temperature, subs, other);
      MedianOfColumn((r: Reading) => r.totalNitrogen, subs, other);
      MedianOfColumn((r: Reading) => r.totalPhosphorus, subs, other);
    }
  }
}
