/** How many dishonest oracles, rather than readings, a window can stand. */
module OracleCoalitions {
  import opened Transactions
  import opened Lists
  import opened Banks
  import opened OracleData
  import opened Median
  import opened CreditFormula
  import opened HonestMajority
  import opened OracleSpec
  import opened OracleAccountability
  import opened OracleHistory

  /** The positions of the readings of the given oracles. */
  ghost function ReadingsBy(subs: seq<Submission>, oracles: set<Address>): set<nat> {
    set i: nat | i < |subs| && subs[i].oracle in oracles
  }

  lemma {:induction false} ReadingsOfOne(subs: seq<Submission>, o: Address)
    ensures |ReadingsBy(subs, {o})| == Appearances(subs, o)
  {
    if subs != [] {
      var n := |subs| - 1;
      ReadingsOfOne(subs[..n], o);
      assert ReadingsBy(subs, {o}) == ReadingsBy(subs[..n], {o}) + if subs[n].oracle == o then {n} else {};
    }
  }

  lemma UnionSize<T>(a: set<T>, b: set<T>)
    ensures |a + b| <= |a| + |b|
  {
    assert a + b == a + (b - a);
    SubsetSize(b - a, b);
  }

  lemma ReadingsSplit(subs: seq<Submission>, oracles: set<Address>, o: Address)
    requires o in oracles
    ensures |ReadingsBy(subs, oracles)| <= |ReadingsBy(subs, oracles - {o})| + |ReadingsBy(subs, {o})|
  {
    assert ReadingsBy(subs, oracles) == ReadingsBy(subs, oracles - {o}) + ReadingsBy(subs, {o});
    UnionSize(ReadingsBy(subs, oracles - {o}), ReadingsBy(subs, {o}));
  }

  lemma TimesOneMore(k: nat, n: nat)
    ensures k * (n + 1) == k * n + k
  {
  }

  /** Oracles with at most `k` readings each have at most `k` times their number. */
  lemma {:induction false} ReadingsBound(subs: seq<Submission>, oracles: set<Address>, k: nat)
    requires forall o :: o in oracles ==> Appearances(subs, o) <= k
    ensures |ReadingsBy(subs, oracles)| <= k * |oracles|
    decreases |oracles|
  {
    if oracles != {} {
      var o :| o in oracles;
      ReadingsBound(subs, oracles - {o}, k);
      ReadingsOfOne(subs, o);
      ReadingsSplit(subs, oracles, o);
      TimesOneMore(k, |oracles - {o}|);
      assert |oracles| == |oracles - {o}| + 1;
    }
  }

  ghost function ReadingsOfOthers(subs: seq<Submission>, oracles: set<Address>): set<nat> {
    set i: nat | i < |subs| && subs[i].oracle !in oracles
  }

  /** If the liars are few enough for that, most readings are honest. */
  lemma MostAreHonest(subs: seq<Submission>, liars: set<Address>, k: nat)
    requires forall o :: o in liars ==> Appearances(subs, o) <= k
    requires 2 * (k * |liars|) < |subs|
    ensures 2 * |ReadingsOfOthers(subs, liars)| > |subs|
  {
    ReadingsBound(subs, liars, k);
    assert Indices(|subs|) == ReadingsBy(subs, liars) + ReadingsOfOthers(subs, liars);
    UnionSize(ReadingsBy(subs, liars), ReadingsOfOthers(subs, liars));
  }

  /** What the honest oracles of a window report lies between `lo` and `hi`. */
  ghost predicate OthersBetween(subs: seq<Submission>, liars: set<Address>, lo: Reading, hi: Reading) {
    0 <= lo.flowRate && forall i :: 0 <= i < |subs| && subs[i].oracle !in liars ==> Between(lo, subs[i].reading, hi)
  }

  /** The sandwich for a stored result, in terms of oracles: liars with at most `k`
  readings each, together less than half of the window, cannot push the total
  beyond what the honest extremes allow. */
  lemma CoalitionIsSandwiched(s: System, env: Env, c: Call, liars: set<Address>, k: nat, lo: Reading, hi: Reading)
    requires StoresResult(s, env, c) && RatesNonNegative(s.store.config) && c.project in Next(s, env, c).store.windows
    requires
      var subs := Next(s, env, c).store.windows[c.project].subs;
      && (forall o :: o in liars ==> Appearances(subs, o) <= k) && 2 * (k * |liars|) < |subs|
      && OthersBetween(subs, liars, lo, hi)
    ensures c.project in Next(s, env, c).store.history.last
    ensures
      var cfg, base := s.store.config, ResolveBaselines(ProjectOf(s.store, c.project));
      var fin := Next(s, env, c).store.history.last[c.project].fin;
      var subs := Next(s, env, c).store.windows[c.project].subs;
      && 0 <= fin.total <= Gross(cfg, base, cfg.windowSecs, hi.flowRate, lo.totalNitrogen, lo.totalPhosphorus)
      && ((forall i :: i in ReadingsOfOthers(subs, liars) ==> GoodQuality(cfg, base, subs[i].reading)) ==>
            && fin.penalty == 0
            && Gross(cfg, base, cfg.windowSecs, lo.flowRate, hi.totalNitrogen, hi.totalPhosphorus) <= fin.total)
  {
    var subs := Next(s, env, c).store.windows[c.project].subs;
    MostAreHonest(subs, liars, k);
    StoredResultIsSandwiched(s, env, c, ReadingsOfOthers(subs, liars), lo, hi);
  }

  /** As no oracle has more than two readings, that holds in every run for liars
  that are fewer than a quarter of the readings of the window. */
  lemma FewLiarsAreSandwiched(env: Env, admin: Address, stakingToken: Address, treasury: Address, bank: Bank, calls: seq<Call>,
                              c: Call, liars: set<Address>, lo: Reading, hi: Reading)
    requires
      var s := Run(Deployed(admin, stakingToken, treasury, bank), env, calls);
      && StoresResult(s, env, c) && RatesNonNegative(s.store.config) && c.project in Next(s, env, c).store.windows
      && var subs := Next(s, env, c).store.windows[c.project].subs;
      && 4 * |liars| < |subs| && OthersBetween(subs, liars, lo, hi)
    ensures
      var s := Run(Deployed(admin, stakingToken, treasury, bank), env, calls);
      var u, cfg, base := Next(s, env, c).store, s.store.config, ResolveBaselines(ProjectOf(s.store, c.project));
      && c.project in u.history.last
      && var fin, subs := u.history.last[c.project].fin, u.windows[c.project].subs;
      && 0 <= fin.total <= Gross(cfg, base, cfg.windowSecs, hi.flowRate, lo.totalNitrogen, lo.totalPhosphorus)
      && ((forall i :: i in ReadingsOfOthers(subs, liars) ==> GoodQuality(cfg, base, subs[i].reading)) ==>
            && fin.penalty == 0
            && Gross(cfg, base, cfg.windowSecs, lo.flowRate, hi.totalNitrogen, hi.totalPhosphorus) <= fin.total)
  {
    var d := Deployed(admin, stakingToken, treasury, bank);
    var s := Run(d, env, calls);
    RunPush(d, env, calls, c);
    forall o | o in liars ensures Appearances(Next(s, env, c).store.windows[c.project].subs, o) <= 2 {
      AtMostTwicePerWindow(env, admin, stakingToken, treasury, bank, calls + [c], c.project, o);
    }
    CoalitionIsSandwiched(s, env, c, liars, 2, lo, hi);
  }
}
