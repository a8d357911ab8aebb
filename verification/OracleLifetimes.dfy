/** What belongs to a window and what an earlier one left behind: readings,
markers and commitments, traced back to the call that began the window. */
module OracleLifetimes {
  import opened Transactions
  import opened Banks
  import opened OracleData
  import opened OracleSpec
  import opened OracleSteps
  import opened OracleAccountability
  import opened OracleDeadlines

  // ---- Where a window begins ----

  /** The call gives the project a new window. */
  predicate Begins(s: System, env: Env, c: Call, project: ProjectId) {
    && Step(s, env, c).Committed?
    && (if c.CallOpen? || c.CallReset? then c.project == project
        else c.CallSubmit? && c.project == project && project !in s.store.windows)
  }

  /** The markers that the new window finds. */
  function Found(s: System, env: Env, c: Call): Markers {
    if c.CallSubmit? then s.store.marks else Next(s, env, c).store.marks
  }

  /** The markers that the project's current window found when it began. */
  function AtStart(s: System, env: Env, calls: seq<Call>, project: ProjectId): Markers {
    if calls == [] then s.store.marks
    else
      var before, c := Run(s, env, calls[..|calls| - 1]), calls[|calls| - 1];
      if Begins(before, env, c, project) then Found(before, env, c) else AtStart(s, env, calls[..|calls| - 1], project)
  }

  // ---- Readings are markers set since then ----

  /** Each marker the window did not find stands for one of its readings. */
  ghost predicate Exact(s: Storage, start: Markers, project: ProjectId, oracle: Address) {
    var key := (project, oracle);
    if project in s.windows then
      !s.windows[project].finalized ==>
        Appearances(s.windows[project].subs, oracle) == MarkersOf(s.marks, key) - MarkersOf(start, key)
    else MarkersOf(s.marks, key) == 0
  }

  lemma QuietStaysExact(s: Storage, u: Storage, c: Call, start: Markers, project: ProjectId, oracle: Address)
    requires Exact(s, start, project, oracle) && Quiet(c) && QuietEffect(s, u, c)
    requires (c.CallOpen? || c.CallReset?) ==> c.project != project
    ensures Exact(u, start, project, oracle)
  {
  }

  lemma FreshIsExact(s: Storage, u: Storage, c: Call, project: ProjectId, oracle: Address)
    requires (c.CallOpen? || c.CallReset?) && c.project == project && QuietEffect(s, u, c)
    ensures Exact(u, u.marks, project, oracle)
  {
  }

  lemma ReadingStaysExact(s: Storage, t: Storage, c: Call, start: Markers, project: ProjectId, oracle: Address)
    requires Exact(s, start, project, oracle) && (c.CallSubmit? || c.CallReveal?) && ReadEffect(s, t, c)
    ensures Exact(t, if c.project == project && project !in s.windows then s.marks else start, project, oracle)
  {
    if c.project == project {
      var w, key := WindowFor(s, project, c.now), (project, oracle);
      AppearancesPush(w.subs, t.windows[project].subs[|w.subs|], oracle);
      assert MarkersOf(t.marks, key) == MarkersOf(s.marks, key) + if oracle == c.oracle then 1 else 0;
    }
  }

  lemma FinishStaysExact(t: Storage, u: Storage, c: Call, r: Result, start: Markers, project: ProjectId, oracle: Address)
    requires Exact(t, start, project, oracle) && !Quiet(c) && FinishEffect(t, u, c, r)
    ensures Exact(u, start, project, oracle)
  {
  }

  lemma HeavyStaysExact(s: Storage, t: Storage, u: Storage, c: Call, r: Option<Result>, start: Markers, project: ProjectId, oracle: Address)
    requires Exact(s, start, project, oracle) && !Quiet(c) && Via(s, t, u, c, r)
    ensures Exact(u, if c.CallSubmit? && c.project == project && project !in s.windows then s.marks else start, project, oracle)
  {
    var begun := if c.CallSubmit? && c.project == project && project !in s.windows then s.marks else start;
    if c.CallFinalize? {
      assert Exact(t, begun, project, oracle);
    } else {
      ReadingStaysExact(s, t, c, start, project, oracle);
    }
    if r.Some? {
      FinishStaysExact(t, u, c, r.value, begun, project, oracle);
    }
  }

  lemma QuietStepStaysExact(s: System, env: Env, c: Call, start: Markers, project: ProjectId, oracle: Address)
    requires Exact(s.store, start, project, oracle) && Quiet(c) && Step(s, env, c).Committed?
    ensures
      var u := Next(s, env, c).store;
      Exact(u, if (c.CallOpen? || c.CallReset?) && c.project == project then u.marks else start, project, oracle)
  {
    QuietStepEffect(s, env, c);
    if (c.CallOpen? || c.CallReset?) && c.project == project {
      FreshIsExact(s.store, Next(s, env, c).store, c, project, oracle);
    } else {
      QuietStaysExact(s.store, Next(s, env, c).store, c, start, project, oracle);
    }
  }

  lemma StepStaysExact(s: System, env: Env, c: Call, start: Markers, project: ProjectId, oracle: Address)
    requires Exact(s.store, start, project, oracle)
    ensures Exact(Next(s, env, c).store, if Begins(s, env, c, project) then Found(s, env, c) else start, project, oracle)
  {
    if Step(s, env, c).Committed? {
      if Quiet(c) {
        QuietStepStaysExact(s, env, c, start, project, oracle);
      } else {
        var t, r := Anatomy(s, env, c);
        HeavyStaysExact(s.store, t, Next(s, env, c).store, c, r, start, project, oracle);
      }
    }
  }

  lemma {:induction false} RunStaysExact(d: System, env: Env, calls: seq<Call>, project: ProjectId, oracle: Address)
    requires d.store.windows == map[] && d.store.marks == Markers(map[], {}, {})
    ensures Exact(Run(d, env, calls).store, AtStart(d, env, calls, project), project, oracle)
  {
    if calls != [] {
      var front, c := calls[..|calls| - 1], calls[|calls| - 1];
      RunStaysExact(d, env, front, project, oracle);
      StepStaysExact(Run(d, env, front), env, c, AtStart(d, env, front, project), project, oracle);
    }
  }

  /** In an unfinished window an oracle has as many readings as it has markers that
  the window did not find: twice exactly if both its markers are set and neither
  was when the window began, and at most once if one of them is missing. */
  lemma TwiceExactlyWithBothFreshMarkers(env: Env, admin: Address, stakingToken: Address, treasury: Address, bank: Bank,
                                         calls: seq<Call>, project: ProjectId, oracle: Address)
    ensures
      var d, key := Deployed(admin, stakingToken, treasury, bank), (project, oracle);
      var s, start := Run(d, env, calls).store, AtStart(d, env, calls, project);
      WindowActive(s, project) ==>
        var n := Appearances(s.windows[project].subs, oracle);
        && (n == 2 <==> (key in s.marks.submitted && key in s.marks.revealed)
                        && key !in start.submitted && key !in start.revealed)
        && (!(key in s.marks.submitted && key in s.marks.revealed) ==> n <= 1)
        && n <= 2
  {
    RunStaysExact(Deployed(admin, stakingToken, treasury, bank), env, calls, project, oracle);
  }

  // ---- When a second reading is accepted ----

  /** The oracle holds a commitment it can open now. */
  predicate Openable(s: Storage, env: Env, oracle: Address, project: ProjectId, opening: Opening, now: Now) {
    && CanOpen(s, env, oracle, project, opening)
    && RevealOpens(s, s.windows[project]) <= now.ledger <= RevealCloses(s, s.windows[project])
  }

  /** The oracle can use the direct path now. */
  predicate Submittable(s: Storage, oracle: Address, project: ProjectId, nonce: nat, reading: Sample) {
    && oracle in s.roster.active && HasStake(s, oracle)
    && WindowActive(s, project)
    && nonce == NonceOf(s, project, oracle) + 1
    && reading.Plausible()
    && (project in s.open || |s.open| < s.config.maxOpenWindows)
  }

  /** An oracle whose one reading came by the direct path gets a second one by
  opening its commitment, exactly if it can open it and no reveal is marked. */
  lemma RevealIsSecondReading(s: Storage, env: Env, oracle: Address, project: ProjectId, opening: Opening, now: Now)
    requires WindowActive(s, project) && Appearances(s.windows[project].subs, oracle) == 1
    ensures
      var r := AcceptReveal(s, env, oracle, project, opening, now);
      && (r.Committed? <==> Openable(s, env, oracle, project, opening, now) && (project, oracle) !in s.marks.revealed)
      && (r.Committed? ==> project in r.value.windows && Appearances(r.value.windows[project].subs, oracle) == 2)
  {
    AppearancesPush(s.windows[project].subs, Submission(oracle, opening.nonce, now.timestamp, opening.reading), oracle);
  }

  /** And the other way round, after a reveal. */
  lemma SubmitIsSecondReading(s: Storage, oracle: Address, project: ProjectId, nonce: nat, reading: Sample, now: Now)
    requires WindowActive(s, project) && Appearances(s.windows[project].subs, oracle) == 1
    ensures
      var r := AcceptDirect(s, oracle, project, nonce, reading, now);
      && (r.Committed? <==> Submittable(s, oracle, project, nonce, reading) && (project, oracle) !in s.marks.submitted)
      && (r.Committed? ==> project in r.value.windows && Appearances(r.value.windows[project].subs, oracle) == 2)
  {
    AppearancesPush(s.windows[project].subs, Submission(oracle, nonce, now.timestamp, reading), oracle);
  }

  /** In every run, the second reading gets in whenever the first belongs to the
  current window and the other path is open to the oracle and unused. */
  lemma SecondReadingGetsIn(env: Env, admin: Address, stakingToken: Address, treasury: Address, bank: Bank, calls: seq<Call>,
                            oracle: Address, project: ProjectId, opening: Opening, nonce: nat, reading: Sample, now: Now)
    ensures
      var d, key := Deployed(admin, stakingToken, treasury, bank), (project, oracle);
      var s, start := Run(d, env, calls).store, AtStart(d, env, calls, project);
      var revealed, submitted := AcceptReveal(s, env, oracle, project, opening, now), AcceptDirect(s, oracle, project, nonce, reading, now);
      && (key in s.marks.submitted && key !in start.submitted && key !in s.marks.revealed && key !in start.revealed
          && Openable(s, env, oracle, project, opening, now) ==>
            revealed.Committed? && Appearances(revealed.value.windows[project].subs, oracle) == 2)
      && (key in s.marks.revealed && key !in start.revealed && key !in s.marks.submitted && key !in start.submitted
          && Submittable(s, oracle, project, nonce, reading) ==>
            submitted.Committed? && Appearances(submitted.value.windows[project].subs, oracle) == 2)
  {
    var d := Deployed(admin, stakingToken, treasury, bank);
    RunStaysExact(d, env, calls, project, oracle);
    var s := Run(d, env, calls).store;
    if WindowActive(s, project) && Appearances(s.windows[project].subs, oracle) == 1 {
      RevealIsSecondReading(s, env, oracle, project, opening, now);
      SubmitIsSecondReading(s, oracle, project, nonce, reading, now);
    }
  }

  // ---- How long the direct path stays closed ----

  /** The call is a committed reset that reaches the oracle: it is whitelisted, or
  among the reporters of the window that is thrown away. */
  predicate Frees(s: Storage, c: Call, project: ProjectId, oracle: Address) {
    && c.CallReset? && c.project == project && c.admin == s.admin && project in s.windows
    && (oracle in s.roster.list || oracle in Reporters(s.windows[project].subs))
  }

  lemma QuietMarker(s: Storage, u: Storage, c: Call, project: ProjectId, oracle: Address)
    requires Quiet(c) && QuietEffect(s, u, c)
    ensures (project, oracle) in u.marks.submitted <==> (project, oracle) in s.marks.submitted && !Frees(s, c, project, oracle)
  {
  }

  lemma ReadingMarker(s: Storage, t: Storage, c: Call, project: ProjectId, oracle: Address)
    requires (c.CallSubmit? || c.CallReveal?) && ReadEffect(s, t, c)
    ensures (project, oracle) in t.marks.submitted
            <==> (project, oracle) in s.marks.submitted || (c.CallSubmit? && c.project == project && c.oracle == oracle)
  {
  }

  lemma FinishMarker(t: Storage, u: Storage, c: Call, r: Result)
    requires !Quiet(c) && FinishEffect(t, u, c, r)
    ensures u.marks.submitted == t.marks.submitted
  {
  }

  lemma HeavyMarker(s: Storage, t: Storage, u: Storage, c: Call, r: Option<Result>, project: ProjectId, oracle: Address)
    requires !Quiet(c) && Via(s, t, u, c, r)
    ensures (project, oracle) in u.marks.submitted
            <==> (project, oracle) in s.marks.submitted || (c.CallSubmit? && c.project == project && c.oracle == oracle)
  {
    if !c.CallFinalize? {
      ReadingMarker(s, t, c, project, oracle);
    }
    if r.Some? {
      FinishMarker(t, u, c, r.value);
    }
  }

  predicate SubmitsAs(s: System, env: Env, c: Call, project: ProjectId, oracle: Address) {
    c.CallSubmit? && c.project == project && c.oracle == oracle && Step(s, env, c).Committed?
  }

  lemma QuietStepMarker(s: System, env: Env, c: Call, project: ProjectId, oracle: Address)
    requires Quiet(c) && Step(s, env, c).Committed?
    ensures (project, oracle) in Next(s, env, c).store.marks.submitted
            <==> (project, oracle) in s.store.marks.submitted && !Frees(s.store, c, project, oracle)
  {
    QuietStepEffect(s, env, c);
    QuietMarker(s.store, Next(s, env, c).store, c, project, oracle);
  }

  lemma StepMarker(s: System, env: Env, c: Call, project: ProjectId, oracle: Address)
    ensures (project, oracle) in Next(s, env, c).store.marks.submitted
            <==> SubmitsAs(s, env, c, project, oracle)
                 || ((project, oracle) in s.store.marks.submitted && !Frees(s.store, c, project, oracle))
  {
    if Step(s, env, c).Committed? {
      if Quiet(c) {
        QuietStepMarker(s, env, c, project, oracle);
      } else {
        var t, r := Anatomy(s, env, c);
        HeavyMarker(s.store, t, Next(s, env, c).store, c, r, project, oracle);
      }
    }
  }

  /** The oracle submitted directly and no reset has reached it since. */
  predicate Spent(s: System, env: Env, calls: seq<Call>, project: ProjectId, oracle: Address) {
    calls != [] &&
    var before, c := Run(s, env, calls[..|calls| - 1]), calls[|calls| - 1];
    || SubmitsAs(before, env, c, project, oracle)
    || (Spent(s, env, calls[..|calls| - 1], project, oracle) && !Frees(before.store, c, project, oracle))
  }

  /** In every run, an oracle is marked as having submitted directly exactly if it
  has done so and no committed reset has reached it since, whether or not windows
  finished in between; while it is marked, the direct path refuses it. */
  lemma {:induction false} DirectPathIsSpentExactly(env: Env, admin: Address, stakingToken: Address, treasury: Address, bank: Bank,
                                                    calls: seq<Call>, project: ProjectId, oracle: Address)
    ensures
      var d := Deployed(admin, stakingToken, treasury, bank);
      && ((project, oracle) in Run(d, env, calls).store.marks.submitted <==> Spent(d, env, calls, project, oracle))
      && (Spent(d, env, calls, project, oracle) ==>
            forall nonce, reading, now ::
              AcceptDirect(Run(d, env, calls).store, oracle, project, nonce, reading, now).Reverted?)
  {
    if calls != [] {
      var d, front := Deployed(admin, stakingToken, treasury, bank), calls[..|calls| - 1];
      DirectPathIsSpentExactly(env, admin, stakingToken, treasury, bank, front, project, oracle);
      StepMarker(Run(d, env, front), env, calls[|calls| - 1], project, oracle);
    }
  }

  // ---- Which window a commitment belongs to ----

  /** The oracle committed to the project's current window. */
  predicate MadeInWindow(s: System, env: Env, calls: seq<Call>, project: ProjectId, oracle: Address) {
    calls != [] &&
    var before, c := Run(s, env, calls[..|calls| - 1]), calls[|calls| - 1];
    && !Begins(before, env, c, project)
    && ((CommitsAs(before, env, c, oracle) && c.project == project)
        || MadeInWindow(s, env, calls[..|calls| - 1], project, oracle))
  }

  /** In an unfinished window a stored commitment was either found or made; and
  while commits are taken, none that was found is gone. */
  ghost predicate Traced(s: Storage, start: Markers, made: bool, project: ProjectId, oracle: Address) {
    var key := (project, oracle);
    WindowActive(s, project) ==>
      && (made ==> key !in start.commitments)
      && (key in s.marks.commitments && !made ==> key in start.commitments)
      && (s.windows[project].phase.Commit? && key in start.commitments ==> key in s.marks.commitments)
  }

  lemma QuietStaysTraced(s: Storage, u: Storage, c: Call, start: Markers, made: bool, project: ProjectId, oracle: Address)
    requires Traced(s, start, made, project, oracle) && Quiet(c) && QuietEffect(s, u, c)
    requires (c.CallOpen? || c.CallReset?) ==> c.project != project
    ensures Traced(u, start, made || (c.CallCommit? && c.project == project && c.oracle == oracle), project, oracle)
  {
  }

  lemma FreshIsTraced(u: Storage, project: ProjectId, oracle: Address)
    ensures Traced(u, u.marks, false, project, oracle)
  {
  }

  lemma FirstReadingIsTraced(s: Storage, t: Storage, u: Storage, c: Call, r: Option<Result>, oracle: Address)
    requires c.CallSubmit? && c.project !in s.windows && Via(s, t, u, c, r)
    ensures Traced(u, s.marks, false, c.project, oracle)
  {
    assert t.marks.commitments == s.marks.commitments && t.windows[c.project].phase.Reveal?;
    assert r.Some? ==> u.marks == t.marks;
  }

  lemma HeavyStaysTraced(s: Storage, t: Storage, u: Storage, c: Call, r: Option<Result>, start: Markers, made: bool,
                         project: ProjectId, oracle: Address)
    requires Traced(s, start, made, project, oracle) && !Quiet(c) && Via(s, t, u, c, r)
    ensures c.CallSubmit? && c.project == project && project !in s.windows ==> Traced(u, s.marks, false, project, oracle)
    ensures !(c.CallSubmit? && c.project == project && project !in s.windows) ==> Traced(u, start, made, project, oracle)
  {
    if c.CallSubmit? && c.project == project && project !in s.windows {
      FirstReadingIsTraced(s, t, u, c, r, oracle);
    } else {
      PassOrReadingStaysTraced(s, t, u, c, r, start, made, project, oracle);
    }
  }

  lemma PassStaysTraced(s: Storage, t: Storage, passed: ProjectId, start: Markers, made: bool, project: ProjectId, oracle: Address)
    requires Traced(s, start, made, project, oracle) && PassEffect(s, t, passed)
    requires passed in s.windows && s.windows[passed].phase.Reveal?
    ensures Traced(t, start, made, project, oracle)
  {
  }

  lemma ReadingStaysTraced(s: Storage, t: Storage, c: Call, start: Markers, made: bool, project: ProjectId, oracle: Address)
    requires Traced(s, start, made, project, oracle) && (c.CallSubmit? || c.CallReveal?) && ReadEffect(s, t, c)
    requires c.CallSubmit? && c.project == project ==> project in s.windows
    ensures Traced(t, start, made, project, oracle)
  {
  }

  lemma FinishStaysTraced(t: Storage, u: Storage, c: Call, r: Result, start: Markers, made: bool, project: ProjectId, oracle: Address)
    requires Traced(t, start, made, project, oracle) && !Quiet(c) && FinishEffect(t, u, c, r)
    ensures Traced(u, start, made, project, oracle)
  {
  }

  lemma PassOrReadingStaysTraced(s: Storage, t: Storage, u: Storage, c: Call, r: Option<Result>, start: Markers, made: bool,
                                 project: ProjectId, oracle: Address)
    requires Traced(s, start, made, project, oracle) && !Quiet(c) && Via(s, t, u, c, r)
    requires c.CallSubmit? && c.project == project ==> project in s.windows
    ensures Traced(u, start, made, project, oracle)
  {
    if c.CallFinalize? {
      PassStaysTraced(s, t, c.project, start, made, project, oracle);
    } else {
      ReadingStaysTraced(s, t, c, start, made, project, oracle);
    }
    if r.Some? {
      FinishStaysTraced(t, u, c, r.value, start, made, project, oracle);
    }
  }

  lemma QuietStepStaysTraced(s: System, env: Env, c: Call, start: Markers, made: bool, project: ProjectId, oracle: Address)
    requires Traced(s.store, start, made, project, oracle) && Quiet(c) && Step(s, env, c).Committed?
    ensures
      var u, begun := Next(s, env, c).store, (c.CallOpen? || c.CallReset?) && c.project == project;
      Traced(u, if begun then u.marks else start,
             !begun && (made || (c.CallCommit? && c.project == project && c.oracle == oracle)), project, oracle)
  {
    QuietStepEffect(s, env, c);
    if (c.CallOpen? || c.CallReset?) && c.project == project {
      FreshIsTraced(Next(s, env, c).store, project, oracle);
    } else {
      QuietStaysTraced(s.store, Next(s, env, c).store, c, start, made, project, oracle);
    }
  }

  lemma StepStaysTraced(s: System, env: Env, c: Call, start: Markers, made: bool, project: ProjectId, oracle: Address)
    requires Traced(s.store, start, made, project, oracle)
    ensures
      var begins := Begins(s, env, c, project);
      Traced(Next(s, env, c).store, if begins then Found(s, env, c) else start,
             !begins && (made || (CommitsAs(s, env, c, oracle) && c.project == project)), project, oracle)
  {
    if Step(s, env, c).Committed? {
      if Quiet(c) {
        QuietStepStaysTraced(s, env, c, start, made, project, oracle);
      } else {
        var t, r := Anatomy(s, env, c);
        HeavyStaysTraced(s.store, t, Next(s, env, c).store, c, r, start, made, project, oracle);
      }
    }
  }

  lemma {:induction false} RunStaysTraced(d: System, env: Env, calls: seq<Call>, project: ProjectId, oracle: Address)
    requires d.store.windows == map[]
    ensures Traced(Run(d, env, calls).store, AtStart(d, env, calls, project), MadeInWindow(d, env, calls, project, oracle), project, oracle)
  {
    if calls != [] {
      var front, c := calls[..|calls| - 1], calls[|calls| - 1];
      RunStaysTraced(d, env, front, project, oracle);
      StepStaysTraced(Run(d, env, front), env, c, AtStart(d, env, front, project), MadeInWindow(d, env, front, project, oracle), project, oracle);
    }
  }

  /** An accepted reveal opens a commitment made in the same window exactly if the
  window did not find one of that oracle when it began. */
  lemma RevealIsOfThisWindowExactly(env: Env, admin: Address, stakingToken: Address, treasury: Address, bank: Bank, calls: seq<Call>,
                                    oracle: Address, project: ProjectId, opening: Opening, now: Now)
    requires AcceptReveal(Run(Deployed(admin, stakingToken, treasury, bank), env, calls).store, env, oracle, project, opening, now).Committed?
    ensures
      var d := Deployed(admin, stakingToken, treasury, bank);
      MadeInWindow(d, env, calls, project, oracle) <==> (project, oracle) !in AtStart(d, env, calls, project).commitments
  {
    RunStaysTraced(Deployed(admin, stakingToken, treasury, bank), env, calls, project, oracle);
  }
}
