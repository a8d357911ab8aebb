/** What the oracle lets in: whose readings, which ones, and whose settings. */
module OracleAdmission {
  import opened Numeric
  import opened Transactions
  import opened Lists
  import opened Banks
  import opened OracleData
  import opened OracleSpec
  import opened OracleSteps
  import opened OracleWindows

  /** A whitelisted oracle with the stake that is asked for. */
  predicate Eligible(s: Storage, oracle: Address) {
    && oracle in s.roster.active
    && (s.config.minStake <= 0 || (oracle in s.book.stakes && s.config.minStake <= s.book.stakes[oracle].amount))
  }

  /** A reading within the physical bounds, in the contract's units. */
  predicate InBounds(r: Reading) {
    && 0 <= r.ph <= 1400 && 0 <= r.turbidity <= 10_000 && 0 <= r.temperature <= 500
    && 0 <= r.dissolvedOxygen && 0 <= r.flowRate && 0 <= r.totalNitrogen && 0 <= r.totalPhosphorus
  }

  /** A direct submission is let in only from an eligible oracle, with the next nonce
  and a reading within bounds. */
  lemma SubmissionIsAdmitted(s: Storage, oracle: Address, project: ProjectId, nonce: nat, reading: Sample, now: Now)
    requires AcceptDirect(s, oracle, project, nonce, reading, now).Committed?
    ensures Eligible(s, oracle) && InBounds(reading) && nonce == NonceOf(s, project, oracle) + 1
    ensures project in s.open || |s.open| < s.config.maxOpenWindows
  {
  }

  /** A commit, besides, only in the commit phase and while nothing is paused; and a
  reveal only in the reveal phase, between its two ledgers. */
  lemma CommitIsAdmitted(s: Storage, oracle: Address, project: ProjectId, nonce: nat, digest: Digest)
    requires CommitReading(s, oracle, project, nonce, digest).Committed?
    ensures Eligible(s, oracle) && !s.paused && nonce == NonceOf(s, project, oracle) + 1
    ensures project in s.windows && s.windows[project].phase.Commit? && !s.windows[project].finalized
  {
  }

  lemma RevealIsAdmitted(s: Storage, env: Env, oracle: Address, project: ProjectId, p: Opening, now: Now)
    requires AcceptReveal(s, env, oracle, project, p, now).Committed?
    ensures Eligible(s, oracle) && !s.paused && InBounds(p.reading)
    ensures project in s.windows && s.windows[project].phase.Reveal? && !s.windows[project].finalized
    ensures RevealOpens(s, s.windows[project]) <= now.ledger <= RevealCloses(s, s.windows[project])
    ensures (project, oracle) in s.marks.commitments && s.marks.commitments[(project, oracle)] == Commitment(DigestOf(env, p), p.nonce)
  {
  }

  // ---- Every reading in a window was let in ----

  /** The call sends this reading to the project. */
  predicate Sends(c: Call, project: ProjectId, sub: Submission) {
    || (c.CallSubmit? && c.project == project && c.oracle == sub.oracle && c.nonce == sub.nonce
        && c.reading == sub.reading && c.now.timestamp == sub.timestamp)
    || (c.CallReveal? && c.project == project && c.oracle == sub.oracle && c.opening.nonce == sub.nonce
        && c.opening.reading == sub.reading && c.now.timestamp == sub.timestamp)
  }

  /** And it is let in, from an oracle that is eligible at that moment. */
  predicate Brings(s: System, env: Env, c: Call, project: ProjectId, sub: Submission) {
    Sends(c, project, sub) && Step(s, env, c).Committed? && Eligible(s.store, sub.oracle) && InBounds(sub.reading)
  }

  ghost predicate Brought(d: System, env: Env, calls: seq<Call>, project: ProjectId, sub: Submission) {
    exists i :: 0 <= i < |calls| && Brings(Run(d, env, calls[..i]), env, calls[i], project, sub)
  }

  ghost predicate AllBrought(d: System, env: Env, calls: seq<Call>, subs: seq<Submission>, project: ProjectId) {
    forall k :: 0 <= k < |subs| ==> Brought(d, env, calls, project, subs[k])
  }

  lemma BroughtBefore(d: System, env: Env, calls: seq<Call>, project: ProjectId, sub: Submission)
    requires calls != []
    requires
      var front := calls[..|calls| - 1];
      Brought(d, env, front, project, sub) || Brings(Run(d, env, front), env, calls[|calls| - 1], project, sub)
    ensures Brought(d, env, calls, project, sub)
  {
    var front := calls[..|calls| - 1];
    if Brought(d, env, front, project, sub) {
      var i :| 0 <= i < |front| && Brings(Run(d, env, front[..i]), env, front[i], project, sub);
      assert front[..i] == calls[..i] && front[i] == calls[i];
    }
  }

  /** A window's readings after a call are those before, those and the one brought,
  or none. */
  ghost predicate Grows(s: System, env: Env, c: Call, project: ProjectId) {
    var u := Next(s, env, c).store;
    project in u.windows ==>
      var subs := if project in s.store.windows then s.store.windows[project].subs else [];
      || u.windows[project].subs == [] || u.windows[project].subs == subs
      || (exists sub :: Brings(s, env, c, project, sub) && u.windows[project].subs == subs + [sub])
  }

  lemma ReadingIsAdmitted(s: System, env: Env, c: Call)
    requires (c.CallSubmit? || c.CallReveal?) && Step(s, env, c).Committed?
    ensures Eligible(s.store, c.oracle) && InBounds(if c.CallSubmit? then c.reading else c.opening.reading)
  {
    if c.CallSubmit? {
      SubmissionIsAdmitted(s.store, c.oracle, c.project, c.nonce, c.reading, c.now);
    } else {
      RevealIsAdmitted(s.store, env, c.oracle, c.project, c.opening, c.now);
    }
  }

  lemma ReadingGrows(s: Storage, t: Storage, u: Storage, c: Call, r: Option<Result>) returns (sub: Submission)
    requires (c.CallSubmit? || c.CallReveal?) && Via(s, t, u, c, r)
    ensures Sends(c, c.project, sub) && sub.oracle == c.oracle && c.project in u.windows
    ensures u.windows[c.project].subs == (if c.project in s.windows then s.windows[c.project].subs else []) + [sub]
  {
    sub := if c.CallSubmit? then Submission(c.oracle, c.nonce, c.now.timestamp, c.reading)
           else Submission(c.oracle, c.opening.nonce, c.now.timestamp, c.opening.reading);
    assert u.windows[c.project].subs == t.windows[c.project].subs == WindowFor(s, c.project, c.now).subs + [sub];
  }

  lemma OthersStay(s: Storage, t: Storage, u: Storage, c: Call, r: Option<Result>, project: ProjectId)
    requires !Quiet(c) && Via(s, t, u, c, r) && (c.CallFinalize? || c.project != project)
    ensures project in u.windows <==> project in s.windows
    ensures project in s.windows ==> u.windows[project].subs == s.windows[project].subs
  {
  }

  lemma HeavyGrows(s: System, env: Env, c: Call, project: ProjectId)
    requires !Quiet(c) && Step(s, env, c).Committed?
    ensures Grows(s, env, c, project)
  {
    var t, r := Anatomy(s, env, c);
    if c.CallFinalize? || c.project != project {
      OthersStay(s.store, t, Next(s, env, c).store, c, r, project);
    } else {
      var sub := ReadingGrows(s.store, t, Next(s, env, c).store, c, r);
      ReadingIsAdmitted(s, env, c);
      assert Brings(s, env, c, project, sub);
    }
  }

  lemma StepGrows(s: System, env: Env, c: Call, project: ProjectId)
    ensures Grows(s, env, c, project)
  {
    if Step(s, env, c).Committed? {
      if Quiet(c) {
        QuietStepEffect(s, env, c);
      } else {
        HeavyGrows(s, env, c, project);
      }
    }
  }

  lemma StepBrings(d: System, env: Env, calls: seq<Call>, project: ProjectId)
    requires calls != [] && project in Run(d, env, calls).store.windows
    requires
      var front := calls[..|calls| - 1];
      project in Run(d, env, front).store.windows
      ==> AllBrought(d, env, front, Run(d, env, front).store.windows[project].subs, project)
    ensures AllBrought(d, env, calls, Run(d, env, calls).store.windows[project].subs, project)
  {
    var front, c, subs := calls[..|calls| - 1], calls[|calls| - 1], Run(d, env, calls).store.windows[project].subs;
    StepGrows(Run(d, env, front), env, c, project);
    forall k | 0 <= k < |subs| ensures Brought(d, env, calls, project, subs[k]) {
      BroughtBefore(d, env, calls, project, subs[k]);
    }
  }

  /** In every run each reading in a window was sent to that project by its oracle,
  under that nonce and at that time, and was let in when it came: within bounds, and
  from an oracle then whitelisted and with enough of a stake. */
  lemma {:induction false} ReadingsWereAdmitted(env: Env, admin: Address, stakingToken: Address, treasury: Address, bank: Bank,
                                                calls: seq<Call>, project: ProjectId)
    ensures
      var d := Deployed(admin, stakingToken, treasury, bank);
      project in Run(d, env, calls).store.windows ==>
        AllBrought(d, env, calls, Run(d, env, calls).store.windows[project].subs, project)
  {
    if calls != [] {
      var d := Deployed(admin, stakingToken, treasury, bank);
      ReadingsWereAdmitted(env, admin, stakingToken, treasury, bank, calls[..|calls| - 1], project);
      if project in Run(d, env, calls).store.windows {
        StepBrings(d, env, calls, project);
      }
    }
  }

  // ---- Whose settings ----

  /** The roster changes by the admin alone, up to the configured number and with
  the stake that is asked for, and not below the quorum; so do configuration and
  projects, and the list of open projects grows only within its limit. */
  predicate ChangesByRight(s: Storage, c: Call, u: Storage) {
    && (u.roster != s.roster ==>
          || (c.CallAddOracle? && c.admin == s.admin && u.roster.count <= s.config.maxOracles
              && (s.config.minStake <= 0 || s.config.minStake <= StakeOf(s.book, c.oracle).amount))
          || (c.CallRemoveOracle? && c.admin == s.admin && s.config.minOracles <= u.roster.count
              && (StakeOf(s.book, c.oracle).amount <= 0 || StakeOf(s.book, c.oracle).amount < s.config.minStake)))
    && (u.config != s.config ==> c.CallUpdateConfig? && c.admin == s.admin)
    && (u.projects != s.projects ==> c.CallSetProject? && c.admin == s.admin)
    && (u.paused != s.paused ==> c.CallSetPaused?)
    && u.admin == s.admin
  }

  /** The settings a call may not touch. */
  predicate SameSettings(s: Storage, u: Storage) {
    u.roster == s.roster && u.config == s.config && u.projects == s.projects && u.paused == s.paused && u.admin == s.admin
  }

  lemma SettingsCallsByRight(s: System, env: Env, c: Call)
    requires SettingsCall(c) && Step(s, env, c).Committed?
    ensures ChangesByRight(s.store, c, Next(s, env, c).store)
  {
  }

  lemma QuietCallsKeepSettings(s: System, env: Env, c: Call)
    requires Quiet(c) && !SettingsCall(c) && Step(s, env, c).Committed?
    ensures SameSettings(s.store, Next(s, env, c).store)
  {
  }

  lemma ReadKeepsSettings(s: Storage, env: Env, c: Call)
    requires c.CallSubmit? || c.CallReveal?
    ensures c.CallSubmit? ==>
              var t := AcceptDirect(s, c.oracle, c.project, c.nonce, c.reading, c.now);
              t.Committed? ==> SameSettings(s, t.value)
    ensures c.CallReveal? ==>
              var t := AcceptReveal(s, env, c.oracle, c.project, c.opening, c.now);
              t.Committed? ==> SameSettings(s, t.value)
  {
  }

  lemma HeavyKeepsSettings(s: System, env: Env, c: Call)
    requires !Quiet(c) && Step(s, env, c).Committed?
    ensures SameSettings(s.store, Next(s, env, c).store)
  {
    if !c.CallFinalize? {
      ReadKeepsSettings(s.store, env, c);
    }
  }

  lemma SettingsChangeByRight(s: System, env: Env, c: Call)
    ensures ChangesByRight(s.store, c, Next(s, env, c).store)
  {
    if Step(s, env, c).Committed? {
      if SettingsCall(c) {
        SettingsCallsByRight(s, env, c);
      } else if Quiet(c) {
        QuietCallsKeepSettings(s, env, c);
      } else {
        HeavyKeepsSettings(s, env, c);
      }
    }
  }

  lemma OpenListGrowsWithin(s: System, env: Env, c: Call)
    ensures
      var before, after := s.store.open, Next(s, env, c).store.open;
      |after| > |before| ==> |after| <= s.store.config.maxOpenWindows && (c.CallOpen? || c.CallSubmit?)
  {
    if Step(s, env, c).Committed? && !Quiet(c) {
      var t, r := Anatomy(s, env, c);
      if c.CallSubmit? {
        SubmissionIsAdmitted(s.store, c.oracle, c.project, c.nonce, c.reading, c.now);
      }
      if r.Some? {
        WithoutIsShorter(t.open, c.project);
      }
    }
  }

  lemma {:induction false} WithoutIsShorter(list: seq<ProjectId>, x: ProjectId)
    ensures |Without(list, x)| <= |list|
  {
    if list != [] {
      WithoutIsShorter(list[..|list| - 1], x);
    }
  }

  /** Only the admin opens or resets a window, and opens none over an unfinished one;
  it begins empty, now, with the commit phase. */
  lemma WindowsBeginByRight(s: System, env: Env, c: Call)
    requires (c.CallOpen? || c.CallReset?) && Step(s, env, c).Committed?
    ensures c.admin == s.store.admin
    ensures c.CallOpen? ==> c.project !in s.store.windows || s.store.windows[c.project].finalized
    ensures c.CallReset? ==> c.project in s.store.windows
    ensures c.project in Next(s, env, c).store.windows
    ensures Next(s, env, c).store.windows[c.project] == Window(Commit, c.now.timestamp, 0, [], false)
  {
  }

  /** The reveal phase of a window begins exactly if it is in its commit phase, that is
  over, and some listed oracle has committed. */
  lemma RevealPhaseBeginsExactly(s: Storage, project: ProjectId, now: Now)
    ensures BeginReveal(s, project, now).Committed? <==>
              && project in s.windows && !s.windows[project].finalized && s.windows[project].phase.Commit?
              && (s.windows[project].openedAt + s.config.commitPhaseSecs) % TWO_64 <= now.timestamp
              && exists o :: o in s.roster.list && (project, o) in s.marks.commitments
  {
    if HasCommit(s, project) {
      var i :| 0 <= i < |s.roster.list| && (project, s.roster.list[i]) in s.marks.commitments;
      assert s.roster.list[i] in s.roster.list;
    }
    if o :| o in s.roster.list && (project, o) in s.marks.commitments {
      var i :| 0 <= i < |s.roster.list| && s.roster.list[i] == o;
    }
  }

  /** While the contract is paused the commit-reveal path stands still, with its
  penalties; direct submissions and stakes go on. */
  lemma CommitRevealStandsWhilePaused(s: System, env: Env, c: Call)
    requires s.store.paused && (c.CallCommit? || c.CallReveal? || c.CallFinalize?)
    ensures Next(s, env, c) == s
  {
  }

  // ---- Whose stakes ----

  /** A stake falls only by its oracle's own unstake or claim, by a slash of the admin
  within the stake, on record with its reason and time, in a penalty pass, or by
  more staked than an `i128` can hold; and while an oracle is whitelisted, by an
  unstake not below the minimum. */
  predicate StakeFallsByRight(s: Storage, c: Call, u: Storage, oracle: Address) {
    || (c.CallUnstake? && c.oracle == oracle && 0 < c.amount && StakeOf(u.book, oracle).amount == StakeOf(s.book, oracle).amount - c.amount
        && (oracle in s.roster.active ==> s.config.minStake <= StakeOf(u.book, oracle).amount))
    || (c.CallClaim? && c.oracle == oracle)
    || (c.CallSlash? && c.oracle == oracle && c.caller == s.admin && 0 < c.amount <= StakeOf(s.book, oracle).amount
        && StakeOf(u.book, oracle).amount == StakeOf(s.book, oracle).amount - c.amount
        && oracle in u.book.slashes && u.book.slashes[oracle] == SlashRecord(c.reason, c.now.timestamp))
    || c.CallFinalize?
    || (c.CallStake? && c.oracle == oracle && I128_MAX < StakeOf(s.book, oracle).amount + c.amount)
  }

  lemma StakeCallsByRight(s: System, env: Env, c: Call, oracle: Address)
    requires (c.CallStake? || c.CallUnstake? || c.CallClaim? || c.CallSlash?) && Step(s, env, c).Committed?
    requires I128_MIN <= StakeOf(s.store.book, oracle).amount
    requires StakeOf(Next(s, env, c).store.book, oracle).amount < StakeOf(s.store.book, oracle).amount
    ensures StakeFallsByRight(s.store, c, Next(s, env, c).store, oracle)
  {
  }

  lemma OtherCallsKeepStakes(s: System, env: Env, c: Call)
    requires !(c.CallStake? || c.CallUnstake? || c.CallClaim? || c.CallSlash? || c.CallFinalize?) && Step(s, env, c).Committed?
    ensures Next(s, env, c).store.book == s.store.book
  {
    if Quiet(c) {
      QuietStepEffect(s, env, c);
    } else {
      var t, r := Anatomy(s, env, c);
    }
  }

  lemma StakesFallByRight(s: System, env: Env, c: Call, oracle: Address)
    requires I128_MIN <= StakeOf(s.store.book, oracle).amount
    requires StakeOf(Next(s, env, c).store.book, oracle).amount < StakeOf(s.store.book, oracle).amount
    ensures StakeFallsByRight(s.store, c, Next(s, env, c).store, oracle)
  {
    if c.CallStake? || c.CallUnstake? || c.CallClaim? || c.CallSlash? {
      StakeCallsByRight(s, env, c, oracle);
    } else if !c.CallFinalize? && Step(s, env, c).Committed? {
      OtherCallsKeepStakes(s, env, c);
    }
  }

  /** That minimum does not outlive the claim: an oracle that claims stays on the
  whitelist with nothing at stake, and if a minimum is asked for no path takes
  anything from it until it stakes again. */
  lemma ClaimDisarms(s: System, env: Env, c: Call)
    requires c.CallClaim? && Step(s, env, c).Committed? && c.oracle in s.store.roster.active && 0 < s.store.config.minStake
    ensures
      var t := Next(s, env, c).store;
      && c.oracle in t.roster.active && StakeOf(t.book, c.oracle).amount == 0
      && (forall project, nonce, reading, now :: AcceptDirect(t, c.oracle, project, nonce, reading, now).Reverted?)
      && (forall project, nonce, digest :: CommitReading(t, c.oracle, project, nonce, digest).Reverted?)
      && (forall project, opening, now :: AcceptReveal(t, env, c.oracle, project, opening, now).Reverted?)
  {
  }

  /** A quorum and a maximum of up to ten oracles, a cut of up to half a stake between
  its bounds, a window from a minute to a day, and a fee of up to everything. */
  predicate ConfigInBounds(c: OracleConfig) {
    && 1 <= c.minOracles <= c.maxOracles <= 10 && 1 <= c.maxOpenWindows
    && c.slashPctBps <= 5_000 && 0 <= c.minSlash <= c.maxSlash
    && 60 <= c.windowSecs <= 24 * 3_600 && c.feeBps <= 10_000
  }

  /** The admin can set exactly the configurations within these bounds whose quorum
  the whitelist can meet; and in every run the configuration is one. */
  lemma ConfigurationStaysInBounds(env: Env, admin: Address, stakingToken: Address, treasury: Address, bank: Bank,
                                   calls: seq<Call>, config: OracleConfig)
    ensures
      var s := Run(Deployed(admin, stakingToken, treasury, bank), env, calls).store;
      && ConfigInBounds(s.config)
      && (UpdateConfig(s, s.admin, config).Committed? <==> ConfigInBounds(config) && config.minOracles <= s.roster.count)
  {
    WindowBound(env, admin, stakingToken, treasury, bank, calls);
  }

  /** What a deployment starts with: a quorum of three of up to ten oracles, no
  minimum stake, a cooldown of a day, a commit phase of five minutes, reveals for
  sixty ledgers, a cut of a tenth without further bounds, windows of an hour, up to
  twenty of them, no fee, and ten and twenty credits per kilogram. */
  lemma Defaults(admin: Address, stakingToken: Address, treasury: Address)
    ensures
      var c := Init(admin, stakingToken, treasury).config;
      && c.minOracles == 3 && c.maxOracles == 10 && c.minStake == 0 && c.unstakeCooldown == 24 * 3_600
      && c.commitPhaseSecs == 5 * 60 && c.minRevealLedgers == 0 && c.maxRevealLedgers == 60
      && c.slashPctBps == 1_000 && c.minSlash == 0 && c.maxSlash == I128_MAX
      && c.windowSecs == 3_600 && c.maxOpenWindows == 20 && c.feeBps == 0
      && c.creditPerKgN == 10 && c.creditPerKgP == 20
      && c.phMin == 600 && c.phMax == 700 && c.turbidityMax == 50 && c.oxygenMin == 50 && c.temperatureMax == 300
      && c.stakingToken == stakingToken && c.treasury == treasury
  {
  }
}
