/** The oracle's stored results and its counters, over every run. */
module OracleHistory {
  import opened Numeric
  import opened Transactions
  import opened Sums
  import opened Banks
  import opened OracleData
  import opened Median
  import opened CreditFormula
  import opened HonestMajority
  import opened OracleSpec
  import opened OracleSteps
  import opened OracleAccountability

  // ---- Results, summaries and the last result agree ----

  /** The stored positions of each project are those below its count. */
  ghost predicate Contiguous<T(!new)>(stored: map<(ProjectId, nat), T>, counts: map<ProjectId, nat>) {
    forall p: ProjectId, i: nat :: (p, i) in stored <==> i < Counter(counts, p)
  }

  ghost predicate SummariesMatch(h: History) {
    forall k :: k in h.results ==> k in h.summaries && h.summaries[k] == Project(h.results[k])
  }

  ghost predicate LastMatches(h: History) {
    forall p :: if p in h.last then (p, Counter(h.counts, p) - 1) in h.results && h.last[p] == h.results[(p, Counter(h.counts, p) - 1)]
                else Counter(h.counts, p) == 0
  }

  ghost predicate Consistent(h: History) {
    && Contiguous(h.results, h.counts) && Contiguous(h.summaries, h.counts)
    && SummariesMatch(h) && LastMatches(h)
    && h.submitCount == h.finalizedCount
  }

  lemma StaysContiguous<T(!new)>(stored: map<(ProjectId, nat), T>, counts: map<ProjectId, nat>, project: ProjectId, x: T)
    requires Contiguous(stored, counts)
    ensures Contiguous(stored[(project, Counter(counts, project)) := x], counts[project := Counter(counts, project) + 1])
  {
  }

  lemma AppendStaysConsistent(h: History, project: ProjectId, r: Result, subs: seq<Submission>)
    requires Consistent(h)
    ensures Consistent(Append(h, project, r, subs))
  {
    var g := Append(h, project, r, subs);
    StaysContiguous(h.results, h.counts, project, r);
    StaysContiguous(h.summaries, h.counts, project, Project(r));
    LastStaysMatched(h, g, project, r);
  }

  lemma LastStaysMatched(h: History, g: History, project: ProjectId, r: Result)
    requires LastMatches(h)
    requires g.last == h.last[project := r] && g.counts == h.counts[project := Counter(h.counts, project) + 1]
    requires g.results == h.results[(project, Counter(h.counts, project)) := r]
    ensures LastMatches(g)
  {
  }

  // ---- Counting readings ----

  function Sizes(results: map<(ProjectId, nat), Result>): map<(ProjectId, nat), int> {
    map k | k in results :: results[k].oracleCount
  }

  /** The readings behind all stored results. */
  ghost function Credited(h: History): int {
    Total(Sizes(h.results))
  }

  function Waiting(w: Window): int {
    if w.finalized then 0 else |w.subs|
  }

  function Queues(windows: map<ProjectId, Window>): map<ProjectId, int> {
    map p | p in windows :: Waiting(windows[p])
  }

  /** The readings in unfinished windows. */
  ghost function Queued(windows: map<ProjectId, Window>): int {
    Total(Queues(windows))
  }

  lemma QueuedUpdate(windows: map<ProjectId, Window>, p: ProjectId, w: Window)
    ensures Queued(windows[p := w]) == Queued(windows) - (if p in windows then Waiting(windows[p]) else 0) + Waiting(w)
  {
    assert Queues(windows[p := w]) == Queues(windows)[p := Waiting(w)];
    TotalUpdate(Queues(windows), p, Waiting(w));
  }

  lemma AppendCredits(h: History, project: ProjectId, r: Result, subs: seq<Submission>)
    requires Consistent(h)
    ensures Credited(Append(h, project, r, subs)) == Credited(h) + r.oracleCount
  {
    var k := (project, Counter(h.counts, project));
    assert k !in h.results;
    assert Sizes(h.results[k := r]) == Sizes(h.results)[k := r.oracleCount];
    TotalUpdate(Sizes(h.results), k, r.oracleCount);
  }

  lemma {:induction false} BumpTotal(m: map<Address, nat>, subs: seq<Submission>)
    ensures Total(Bump(m, subs)) == Total(m) + |subs|
  {
    if subs != [] {
      var front, o := Bump(m, subs[..|subs| - 1]), subs[|subs| - 1].oracle;
      BumpTotal(m, subs[..|subs| - 1]);
      TotalUpdate(front, o, Counter(front, o) + 1);
    }
  }

  /** Accepted readings that are in no stored result and no open window. */
  ghost function Lost(s: Storage): int {
    s.submissions - Credited(s.history) - Queued(s.windows)
  }

  ghost predicate Tallied(s: Storage) {
    && Consistent(s.history)
    && Total(s.history.finalizedCount) == Credited(s.history)
  }

  /** What restarting an unfinished window throws away. */
  function Discarded(s: Storage, c: Call): int {
    if c.CallReset? && c.admin == s.admin && c.project in s.windows then Waiting(s.windows[c.project]) else 0
  }

  lemma QuietTally(s: Storage, u: Storage, c: Call)
    requires Tallied(s) && Quiet(c) && QuietEffect(s, u, c)
    ensures Tallied(u) && Lost(u) == Lost(s) + Discarded(s, c)
  {
    match c
    case CallOpen(_, p, now) => QueuedUpdate(s.windows, p, FreshWindow(now));
    case CallReset(_, p, now) => QueuedUpdate(s.windows, p, FreshWindow(now));
    case CallBeginReveal(p, now) =>
      QueuedUpdate(s.windows, p, s.windows[p].(phase := Reveal, revealLedger := now.ledger));
    case _ =>
  }

  lemma ReadingTally(s: Storage, t: Storage, c: Call)
    requires Tallied(s) && (c.CallSubmit? || c.CallReveal?) && ReadEffect(s, t, c)
    ensures Tallied(t) && Lost(t) == Lost(s)
  {
    QueuedUpdate(s.windows, c.project, t.windows[c.project]);
  }

  lemma FinishTally(t: Storage, u: Storage, c: Call, r: Result)
    requires Tallied(t) && !Quiet(c) && FinishEffect(t, u, c, r)
    ensures Tallied(u) && Lost(u) == Lost(t)
  {
    var subs := t.windows[c.project].subs;
    AppendStaysConsistent(t.history, c.project, r, subs);
    AppendCredits(t.history, c.project, r, subs);
    BumpTotal(t.history.finalizedCount, subs);
    QueuedUpdate(t.windows, c.project, u.windows[c.project]);
  }

  lemma TransitionTally(s: Storage, u: Storage, c: Call)
    requires Tallied(s) && Transition(s, u, c) && (u == s ==> Discarded(s, c) == 0)
    ensures Tallied(u) && Lost(u) == Lost(s) + Discarded(s, c)
  {
    if u != s {
      if Quiet(c) {
        QuietTally(s, u, c);
      } else {
        var t, r :| Via(s, t, u, c, r);
        if !c.CallFinalize? {
          ReadingTally(s, t, c);
        }
        if r.Some? {
          FinishTally(t, u, c, r.value);
        }
      }
    }
  }

  /** A reset that throws readings away does change the storage. */
  lemma ResetIsNotIdle(s: System, env: Env, c: Call)
    requires Discarded(s.store, c) != 0
    ensures Next(s, env, c).store != s.store
  {
    assert Next(s, env, c).store.windows[c.project].subs == [];
  }

  function DiscardedInRun(s: System, env: Env, calls: seq<Call>): int {
    if calls == [] then 0
    else
      DiscardedInRun(s, env, calls[..|calls| - 1])
      + Discarded(Run(s, env, calls[..|calls| - 1]).store, calls[|calls| - 1])
  }

  lemma {:induction false} RunTally(s: System, env: Env, calls: seq<Call>)
    requires Tallied(s.store)
    ensures Tallied(Run(s, env, calls).store)
    ensures Lost(Run(s, env, calls).store) == Lost(s.store) + DiscardedInRun(s, env, calls)
  {
    if calls != [] {
      var before, c := Run(s, env, calls[..|calls| - 1]), calls[|calls| - 1];
      RunTally(s, env, calls[..|calls| - 1]);
      StepIsTransition(before, env, c);
      if Discarded(before.store, c) != 0 {
        ResetIsNotIdle(before, env, c);
      }
      TransitionTally(before.store, Next(before, env, c).store, c);
    }
  }

  /** In every reachable state results, summaries and the last result agree; the
  oracles' finalized counts add up to the readings behind the stored results;
  and every accepted reading is behind a stored result, in an unfinished window,
  or was discarded by a reset of an unfinished window. */
  lemma EveryReadingAccountedFor(env: Env, admin: Address, stakingToken: Address, treasury: Address, bank: Bank, calls: seq<Call>)
    ensures
      var d := Deployed(admin, stakingToken, treasury, bank);
      var s := Run(d, env, calls).store;
      && Consistent(s.history)
      && Total(s.history.finalizedCount) == Credited(s.history)
      && s.submissions == Credited(s.history) + Queued(s.windows) + DiscardedInRun(d, env, calls)
  {
    var d := Deployed(admin, stakingToken, treasury, bank);
    assert Sizes(map[]) == map[] && Queues(map[]) == map[];
    RunTally(d, env, calls);
  }

  /** A stored summary tells the total, what was minted, and how many readings were
  behind it and when. */
  ghost predicate SummariesTell(h: History) {
    forall k :: k in h.results ==>
      && k in h.summaries
      && h.summaries[k].total == h.results[k].fin.total && h.summaries[k].minted == h.results[k].minted
      && h.summaries[k].oracleCount == h.results[k].oracleCount && h.summaries[k].finalizedAt == h.results[k].finalizedAt
  }

  lemma EverySummaryTells(env: Env, admin: Address, stakingToken: Address, treasury: Address, bank: Bank, calls: seq<Call>)
    ensures SummariesTell(Run(Deployed(admin, stakingToken, treasury, bank), env, calls).store.history)
  {
    EveryReadingAccountedFor(env, admin, stakingToken, treasury, bank, calls);
  }

  // ---- Pages ----

  /** All results of a project, oldest first. */
  function Results(h: History, project: ProjectId): (log: seq<Result>)
    requires Consistent(h)
  {
    seq(Counter(h.counts, project), i requires 0 <= i < Counter(h.counts, project) => h.results[(project, i)])
  }

  function Summarized(results: seq<Result>): seq<Summary> {
    seq(|results|, i requires 0 <= i < |results| => Project(results[i]))
  }

  lemma {:induction false} EntriesAt<T(!new)>(stored: map<(ProjectId, nat), T>, counts: map<ProjectId, nat>, project: ProjectId, start: nat, end: nat)
    requires Contiguous(stored, counts) && start <= end <= Counter(counts, project)
    ensures |Entries(stored, project, start, end)| == end - start
    ensures forall i :: 0 <= i < end - start ==>
              (project, start + i) in stored && Entries(stored, project, start, end)[i] == stored[(project, start + i)]
    decreases end
  {
    if start < end {
      EntriesAt(stored, counts, project, start, end - 1);
      assert (project, end - 1) in stored;
    }
  }

  lemma EntriesAreSlice(h: History, project: ProjectId, start: nat, end: nat)
    requires Consistent(h) && start <= end <= Counter(h.counts, project)
    ensures Entries(h.results, project, start, end) == Results(h, project)[start..end]
    ensures Entries(h.summaries, project, start, end) == Summarized(Results(h, project)[start..end])
  {
    EntriesAt(h.results, h.counts, project, start, end);
    EntriesAt(h.summaries, h.counts, project, start, end);
  }

  lemma NoWrap64(a: nat, b: nat)
    requires a + b < TWO_64
    ensures Add64(a, b) == a + b
  {
  }

  /** Short of a wrap, a page of results is the matching slice of the log. */
  lemma ResultPageIsSlice(h: History, project: ProjectId, offset: nat, limit: nat)
    requires Consistent(h) && offset + limit < TWO_64
    ensures
      var n := Counter(h.counts, project);
      ResultPage(h, project, offset, limit) == if offset <= n then Results(h, project)[offset..Min(offset + limit, n)] else []
  {
    NoWrap64(offset, limit);
    if offset <= Counter(h.counts, project) {
      EntriesAreSlice(h, project, offset, Min(offset + limit, Counter(h.counts, project)));
    }
  }

  /** A page of summaries always is, projected. */
  lemma SummaryPageIsSlice(h: History, project: ProjectId, offset: nat, limit: nat)
    requires Consistent(h) && offset < TWO_64 && Counter(h.counts, project) < TWO_64
    ensures
      var n := Counter(h.counts, project);
      SummaryPage(h, project, offset, limit)
      == if offset <= n then Summarized(Results(h, project)[offset..Min(offset + limit, n)]) else []
  {
    if offset <= Counter(h.counts, project) {
      EntriesAreSlice(h, project, offset, Min(offset + limit, Counter(h.counts, project)));
    }
  }

  /** So the two pages match exactly if the sum of offset and limit does not wrap,
  or there is nothing at the offset anyway; after a wrap the results are missing. */
  lemma PagesMatchExactly(h: History, project: ProjectId, offset: nat, limit: nat)
    requires Consistent(h) && offset < TWO_64 && limit < TWO_32 && Counter(h.counts, project) < TWO_64
    ensures SummaryPage(h, project, offset, limit) == Summarized(ResultPage(h, project, offset, limit))
            <==> offset + limit < TWO_64 || Counter(h.counts, project) <= offset
  {
    SummaryPageIsSlice(h, project, offset, limit);
    if offset + limit < TWO_64 {
      ResultPageIsSlice(h, project, offset, limit);
    } else {
      assert Add64(offset, limit) < offset;
      assert ResultPage(h, project, offset, limit) == [];
      if offset < Counter(h.counts, project) {
        assert |SummaryPage(h, project, offset, limit)| > 0;
      }
    }
  }

  lemma ReadingKeepsInputs(s: Storage, t: Storage, u: Storage, c: Call, r: Option<Result>)
    requires !Quiet(c) && Via(s, t, u, c, r)
    ensures t.history == s.history && t.config == s.config && t.projects == s.projects
    ensures r.None? ==> u == t
    ensures r.Some? ==> FinishEffect(t, u, c, r.value)
  {
  }

  lemma FinishStoresOne(t: Storage, u: Storage, c: Call, r: Result, project: ProjectId)
    requires !Quiet(c) && FinishEffect(t, u, c, r)
    ensures Counter(u.history.counts, project) <= Counter(t.history.counts, project) + 1
  {
  }

  lemma HeavyStoresAtMostOne(s: Storage, t: Storage, u: Storage, c: Call, r: Option<Result>, project: ProjectId)
    requires !Quiet(c) && Via(s, t, u, c, r)
    ensures Counter(u.history.counts, project) <= Counter(s.history.counts, project) + 1
  {
    ReadingKeepsInputs(s, t, u, c, r);
    if r.Some? {
      FinishStoresOne(t, u, c, r.value, project);
    }
  }

  lemma TransitionStoresAtMostOne(s: Storage, u: Storage, c: Call, project: ProjectId)
    requires Transition(s, u, c)
    ensures Counter(u.history.counts, project) <= Counter(s.history.counts, project) + 1
  {
    if u != s && !Quiet(c) {
      var t, r :| Via(s, t, u, c, r);
      HeavyStoresAtMostOne(s, t, u, c, r, project);
    }
  }

  lemma {:induction false} CountWithinCalls(s: System, env: Env, calls: seq<Call>, project: ProjectId)
    ensures Counter(Run(s, env, calls).store.history.counts, project) <= Counter(s.store.history.counts, project) + |calls|
  {
    if calls != [] {
      var before := Run(s, env, calls[..|calls| - 1]);
      CountWithinCalls(s, env, calls[..|calls| - 1], project);
      StepIsTransition(before, env, calls[|calls| - 1]);
      TransitionStoresAtMostOne(before.store, Run(s, env, calls).store, calls[|calls| - 1], project);
    }
  }

  /** A wrap takes an offset within `2^32` of the largest one, and a run of fewer
  than that many calls stores nothing there: in every run a contract can live
  through, summary pages are the projected result pages, for every offset and
  limit. */
  lemma PagesMatchInEveryRun(env: Env, admin: Address, stakingToken: Address, treasury: Address, bank: Bank, calls: seq<Call>,
                             project: ProjectId, offset: nat, limit: nat)
    requires |calls| <= TWO_64 - TWO_32 && offset < TWO_64 && limit < TWO_32
    ensures
      var h := Run(Deployed(admin, stakingToken, treasury, bank), env, calls).store.history;
      SummaryPage(h, project, offset, limit) == Summarized(ResultPage(h, project, offset, limit))
  {
    var d := Deployed(admin, stakingToken, treasury, bank);
    EveryReadingAccountedFor(env, admin, stakingToken, treasury, bank, calls);
    CountWithinCalls(d, env, calls, project);
    PagesMatchExactly(Run(d, env, calls).store.history, project, offset, limit);
  }

  // ---- What a stored result says ----

  predicate StoresResult(s: System, env: Env, c: Call) {
    && !Quiet(c)
    && Counter(Next(s, env, c).store.history.counts, c.project) > Counter(s.store.history.counts, c.project)
  }

  lemma FinishStores(t: Storage, u: Storage, c: Call, r: Result)
    requires !Quiet(c) && FinishEffect(t, u, c, r)
    ensures u.history.last == t.history.last[c.project := r]
    ensures u.history.results == t.history.results[(c.project, Counter(t.history.counts, c.project)) := r]
    ensures c.project in u.windows && u.windows[c.project].finalized && r.oracleCount == |u.windows[c.project].subs|
    ensures r.finalizedAt == c.now.timestamp
    ensures Finalize(t.config, ResolveBaselines(ProjectOf(t, c.project)), u.windows[c.project].subs) == Committed(r.fin)
  {
  }

  /** Storage `u` differs from `s` by result `r`: what the formula makes of the
  medians of the readings that stay behind in the finished window. */
  ghost predicate Stores(s: Storage, u: Storage, project: ProjectId, r: Result) {
    && u.history.last == s.history.last[project := r]
    && u.history.results == s.history.results[(project, Counter(s.history.counts, project)) := r]
    && project in u.windows && u.windows[project].finalized && r.oracleCount == |u.windows[project].subs|
    && Finalize(s.config, ResolveBaselines(ProjectOf(s, project)), u.windows[project].subs) == Committed(r.fin)
  }

  lemma ViaStores(s: Storage, t: Storage, u: Storage, c: Call, r: Option<Result>)
    requires !Quiet(c) && Via(s, t, u, c, r)
    ensures if r.Some? then Stores(s, u, c.project, r.value) && r.value.finalizedAt == c.now.timestamp else u.history == s.history
  {
    ReadingKeepsInputs(s, t, u, c, r);
    if r.Some? {
      FinishStores(t, u, c, r.value);
    }
  }

  /** A call that stores a result stores just that, with its time. */
  lemma StoredResultIsComputed(s: System, env: Env, c: Call) returns (r: Result)
    requires StoresResult(s, env, c)
    ensures Stores(s.store, Next(s, env, c).store, c.project, r) && r.finalizedAt == c.now.timestamp
  {
    var t, found := Anatomy(s, env, c);
    ViaStores(s.store, t, Next(s, env, c).store, c, found);
    r := found.value;
  }

  /** `m` is the middle of a column, however it is sorted. */
  ghost predicate MiddleOf(column: seq<int>, m: int) {
    forall t :: Sorted(t) && multiset(t) == multiset(column) ==> t != [] && InTheMiddle(t, m)
  }

  ghost predicate MiddleReading(subs: seq<Submission>, med: Reading) {
    && MiddleOf(seq(|subs|, i requires 0 <= i < |subs| => subs[i].reading.ph), med.ph)
    && MiddleOf(seq(|subs|, i requires 0 <= i < |subs| => subs[i].reading.turbidity), med.turbidity)
    && MiddleOf(seq(|subs|, i requires 0 <= i < |subs| => subs[i].reading.dissolvedOxygen), med.dissolvedOxygen)
    && MiddleOf(seq(|subs|, i requires 0 <= i < |subs| => subs[i].reading.flowRate), med.flowRate)
    && MiddleOf(seq(|subs|, i requires 0 <= i < |subs| => subs[i].reading.temperature), med.temperature)
    && MiddleOf(seq(|subs|, i requires 0 <= i < |subs| => subs[i].reading.totalNitrogen), med.totalNitrogen)
    && MiddleOf(seq(|subs|, i requires 0 <= i < |subs| => subs[i].reading.totalPhosphorus), med.totalPhosphorus)
  }

  lemma ColumnMiddle(column: seq<int>, same: seq<int>)
    requires column != [] && column == same
    ensures MiddleOf(same, MedianOf(column))
  {
    MedianIsInEveryMiddle(column);
  }

  lemma MediansAreMiddle(subs: seq<Submission>)
    requires subs != []
    ensures MiddleReading(subs, Medians(subs))
  {
    ColumnMiddle(Ph(subs), seq(|subs|, i requires 0 <= i < |subs| => subs[i].reading.ph));
    ColumnMiddle(Turbidity(subs), seq(|subs|, i requires 0 <= i < |subs| => subs[i].reading.turbidity));
    ColumnMiddle(Oxygen(subs), seq(|subs|, i requires 0 <= i < |subs| => subs[i].reading.dissolvedOxygen));
    ColumnMiddle(Flow(subs), seq(|subs|, i requires 0 <= i < |subs| => subs[i].reading.flowRate));
    ColumnMiddle(Temperature(subs), seq(|subs|, i requires 0 <= i < |subs| => subs[i].reading.temperature));
    ColumnMiddle(Nitrogen(subs), seq(|subs|, i requires 0 <= i < |subs| => subs[i].reading.totalNitrogen));
    ColumnMiddle(Phosphorus(subs), seq(|subs|, i requires 0 <= i < |subs| => subs[i].reading.totalPhosphorus));
  }

  lemma StoresEarned(s: Storage, u: Storage, project: ProjectId, r: Result) returns (med: Reading)
    requires Stores(s, u, project, r)
    ensures MiddleReading(u.windows[project].subs, med)
    ensures Earns(s.config, ResolveBaselines(ProjectOf(s, project)), s.config.windowSecs, med, r.fin)
  {
    med := Medians(u.windows[project].subs);
    MediansAreMiddle(u.windows[project].subs);
    FinalizationEarns(s.config, med, ResolveBaselines(ProjectOf(s, project)), s.config.windowSecs);
  }

  /** From readings to credits: what is stored is what the middle reading of the
  window earns, under the configuration and the baselines of its project, by
  rounding and by the cost of every threshold it misses. */
  lemma StoredResultIsEarned(s: System, env: Env, c: Call) returns (r: Result, med: Reading)
    requires StoresResult(s, env, c)
    ensures Stores(s.store, Next(s, env, c).store, c.project, r)
    ensures MiddleReading(Next(s, env, c).store.windows[c.project].subs, med)
    ensures Earns(s.store.config, ResolveBaselines(ProjectOf(s.store, c.project)), s.store.config.windowSecs, med, r.fin)
  {
    r := StoredResultIsComputed(s, env, c);
    med := StoresEarned(s.store, Next(s, env, c).store, c.project, r);
  }

  /** The sandwich, for what the contract actually stores: if more than half of the
  readings of the window are honest, the stored total is at most what the honest
  extremes earn at best; and if those are of good quality, at least what they
  earn at worst, without penalty. */
  lemma StoredResultIsSandwiched(s: System, env: Env, c: Call, honest: set<nat>, lo: Reading, hi: Reading)
    requires StoresResult(s, env, c) && RatesNonNegative(s.store.config)
    requires c.project in Next(s, env, c).store.windows && HonestRange(Next(s, env, c).store.windows[c.project].subs, honest, lo, hi)
    ensures c.project in Next(s, env, c).store.history.last
    ensures
      var cfg, base := s.store.config, ResolveBaselines(ProjectOf(s.store, c.project));
      var fin := Next(s, env, c).store.history.last[c.project].fin;
      var subs := Next(s, env, c).store.windows[c.project].subs;
      && 0 <= fin.total <= Gross(cfg, base, cfg.windowSecs, hi.flowRate, lo.totalNitrogen, lo.totalPhosphorus)
      && ((forall i :: i in honest ==> GoodQuality(cfg, base, subs[i].reading)) ==>
            && fin.penalty == 0
            && Gross(cfg, base, cfg.windowSecs, lo.flowRate, hi.totalNitrogen, hi.totalPhosphorus) <= fin.total)
  {
    var r := StoredResultIsComputed(s, env, c);
    HonestMajoritySandwich(s.store.config, ResolveBaselines(ProjectOf(s.store, c.project)),
                           Next(s, env, c).store.windows[c.project].subs, honest, lo, hi);
  }

  // ---- Whose readings were credited ----

  lemma {:induction false} BumpCounts(m: map<Address, nat>, subs: seq<Submission>, oracle: Address)
    ensures Counter(Bump(m, subs), oracle) == Counter(m, oracle) + Appearances(subs, oracle)
  {
    if subs != [] {
      BumpCounts(m, subs[..|subs| - 1], oracle);
    }
  }

  /** What the change from `s` to `u` stores, in readings of the oracle. */
  function CreditedBy(s: Storage, u: Storage, c: Call, oracle: Address): nat {
    if !Quiet(c) && c.project in u.windows && Counter(u.history.counts, c.project) > Counter(s.history.counts, c.project)
    then Appearances(u.windows[c.project].subs, oracle) else 0
  }

  /** The readings of the oracle behind the results that a run stored. */
  function CreditedTo(s: System, env: Env, calls: seq<Call>, oracle: Address): nat {
    if calls == [] then 0
    else
      var before, c := Run(s, env, calls[..|calls| - 1]), calls[|calls| - 1];
      CreditedTo(s, env, calls[..|calls| - 1], oracle) + CreditedBy(before.store, Next(before, env, c).store, c, oracle)
  }

  lemma FinishCounts(t: Storage, u: Storage, c: Call, r: Result, oracle: Address)
    requires !Quiet(c) && FinishEffect(t, u, c, r)
    ensures c.project in u.windows && Counter(u.history.counts, c.project) > Counter(t.history.counts, c.project)
    ensures Counter(u.history.finalizedCount, oracle)
         == Counter(t.history.finalizedCount, oracle) + Appearances(u.windows[c.project].subs, oracle)
  {
    BumpCounts(t.history.finalizedCount, t.windows[c.project].subs, oracle);
  }

  lemma HeavyCounts(s: Storage, t: Storage, u: Storage, c: Call, r: Option<Result>, oracle: Address)
    requires !Quiet(c) && Via(s, t, u, c, r)
    ensures Counter(u.history.finalizedCount, oracle) == Counter(s.history.finalizedCount, oracle) + CreditedBy(s, u, c, oracle)
  {
    ReadingKeepsInputs(s, t, u, c, r);
    if r.Some? {
      FinishCounts(t, u, c, r.value, oracle);
    }
  }

  lemma StepCounts(s: System, env: Env, c: Call, oracle: Address)
    ensures
      var u := Next(s, env, c).store;
      Counter(u.history.finalizedCount, oracle) == Counter(s.store.history.finalizedCount, oracle) + CreditedBy(s.store, u, c, oracle)
  {
    if Step(s, env, c).Committed? {
      if Quiet(c) {
        QuietStepEffect(s, env, c);
      } else {
        var t, r := Anatomy(s, env, c);
        HeavyCounts(s.store, t, Next(s, env, c).store, c, r, oracle);
      }
    }
  }

  /** In every run an oracle's counter is the number of its own readings behind the
  results stored so far. */
  lemma {:induction false} CountersAreOwn(env: Env, admin: Address, stakingToken: Address, treasury: Address, bank: Bank,
                                          calls: seq<Call>, oracle: Address)
    ensures
      var d := Deployed(admin, stakingToken, treasury, bank);
      Counter(Run(d, env, calls).store.history.finalizedCount, oracle) == CreditedTo(d, env, calls, oracle)
  {
    if calls != [] {
      var d := Deployed(admin, stakingToken, treasury, bank);
      CountersAreOwn(env, admin, stakingToken, treasury, bank, calls[..|calls| - 1], oracle);
      StepCounts(Run(d, env, calls[..|calls| - 1]), env, calls[|calls| - 1], oracle);
    }
  }
}
