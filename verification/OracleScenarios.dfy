/** Short runs of a new oracle deployment that show what the contract can do. */
module OracleScenarios {
  import opened Numeric
  import opened Transactions
  import opened Sums
  import opened Lists
  import opened Banks
  import opened Bytes
  import opened OracleData
  import opened Median
  import opened CreditFormula
  import opened HonestMajority
  import opened OracleSpec
  import opened OracleWindows
  import opened OracleDeadlines
  import opened OracleReveals

  // ---- Steps of a run whose bank stays as it is ----

  ghost predicate Arrives(d: System, env: Env, calls: seq<Call>, s: Storage) {
    Run(d, env, calls) == System(s, d.bank)
  }

  lemma AfterStoreStep(d: System, env: Env, calls: seq<Call>, s: Storage, c: Call, t: Storage)
    requires Arrives(d, env, calls, s) && StoreStep(s, env, c) == Committed(t)
    requires !c.CallFinalize? && !c.CallStake? && !c.CallClaim? && !c.CallSlash? && !c.CallTransfer?
    ensures Arrives(d, env, calls + [c], t)
  {
    RunPush(d, env, calls, c);
  }

  lemma AfterAdd(d: System, env: Env, calls: seq<Call>, s: Storage, o: Address)
    requires Arrives(d, env, calls, s)
    requires o !in s.roster.active && s.roster.count < s.config.maxOracles && s.config.minStake == 0
    ensures Arrives(d, env, calls + [CallAddOracle(s.admin, o)],
                    s.(roster := Roster(s.roster.list + [o], s.roster.active + {o}, s.roster.count + 1)))
  {
    AfterStoreStep(d, env, calls, s, CallAddOracle(s.admin, o), AddOracle(s, s.admin, o).value);
  }

  lemma AfterConfig(d: System, env: Env, calls: seq<Call>, s: Storage, config: OracleConfig)
    requires Arrives(d, env, calls, s) && config.Valid() && config.minOracles <= s.roster.count
    ensures Arrives(d, env, calls + [CallUpdateConfig(s.admin, config)], s.(config := config))
  {
    AfterStoreStep(d, env, calls, s, CallUpdateConfig(s.admin, config), s.(config := config));
  }

  lemma AfterOpen(d: System, env: Env, calls: seq<Call>, s: Storage, p: ProjectId, now: Now)
    requires Arrives(d, env, calls, s) && !WindowActive(s, p) && p !in s.open && |s.open| < s.config.maxOpenWindows
    ensures Arrives(d, env, calls + [CallOpen(s.admin, p, now)],
                    s.(windows := s.windows[p := FreshWindow(now)], open := s.open + [p]))
  {
    AfterStoreStep(d, env, calls, s, CallOpen(s.admin, p, now), OpenWindow(s, s.admin, p, now).value);
  }

  lemma AfterCommit(d: System, env: Env, calls: seq<Call>, s: Storage, o: Address, p: ProjectId, nonce: nat, digest: Digest)
    requires Arrives(d, env, calls, s) && !s.paused && o in s.roster.active && s.config.minStake == 0
    requires WindowActive(s, p) && s.windows[p].phase.Commit? && (p, o) !in s.marks.commitments
    requires nonce == NonceOf(s, p, o) + 1
    ensures Arrives(d, env, calls + [CallCommit(o, p, nonce, digest)],
                    s.(nonces := s.nonces[(p, o) := nonce],
                       marks := s.marks.(commitments := s.marks.commitments[(p, o) := Commitment(digest, nonce)])))
  {
    AfterStoreStep(d, env, calls, s, CallCommit(o, p, nonce, digest), CommitReading(s, o, p, nonce, digest).value);
  }

  lemma AfterBegin(d: System, env: Env, calls: seq<Call>, s: Storage, p: ProjectId, now: Now, i: nat)
    requires Arrives(d, env, calls, s) && WindowActive(s, p) && s.windows[p].phase.Commit?
    requires Add64(s.windows[p].openedAt, s.config.commitPhaseSecs) <= now.timestamp
    requires i < |s.roster.list| && (p, s.roster.list[i]) in s.marks.commitments
    ensures Arrives(d, env, calls + [CallBeginReveal(p, now)],
                    s.(windows := s.windows[p := s.windows[p].(phase := Reveal, revealLedger := now.ledger)]))
  {
    assert HasCommit(s, p);
    AfterStoreStep(d, env, calls, s, CallBeginReveal(p, now), BeginReveal(s, p, now).value);
  }

  /** A direct submission that does not yet make the quorum. */
  lemma AfterSubmit(d: System, env: Env, calls: seq<Call>, s: Storage, c: Call, t: Storage)
    requires Arrives(d, env, calls, s) && c.CallSubmit?
    requires AcceptDirect(s, c.oracle, c.project, c.nonce, c.reading, c.now) == Committed(t)
    requires |t.windows[c.project].subs| < s.config.minOracles
    ensures Arrives(d, env, calls + [c], t)
  {
    assert SubmitReading(s, c.oracle, c.project, c.nonce, c.reading, c.now, c.token) == Committed((t, None));
    AfterStoreStep(d, env, calls, s, c, t);
  }

  /** A direct submission that does. */
  lemma SubmitFinishes(s: Storage, env: Env, c: Call, t: Storage, r: Result)
    requires c.CallSubmit? && AcceptDirect(s, c.oracle, c.project, c.nonce, c.reading, c.now) == Committed(t)
    requires c.project in t.windows && |t.windows[c.project].subs| >= s.config.minOracles
    requires ResultOf(t, c.project, t.windows[c.project].subs, c.now, c.token) == Committed(r)
    ensures StoreStep(s, env, c) == Committed(Finished(t, c.project, r))
  {
    ConcludesTo(t, c.project, c.now, c.token, r);
    SubmitTakes(s, c, t, Finished(t, c.project, r), r);
    SubmitStep(s, env, c, Finished(t, c.project, r), r);
  }

  lemma SubmitStep(s: Storage, env: Env, c: Call, u: Storage, r: Result)
    requires c.CallSubmit? && SubmitReading(s, c.oracle, c.project, c.nonce, c.reading, c.now, c.token) == Committed((u, Some(r)))
    ensures StoreStep(s, env, c) == Committed(u)
  {
  }

  lemma ConcludesTo(t: Storage, p: ProjectId, now: Now, token: TokenView, r: Result)
    requires p in t.windows && ResultOf(t, p, t.windows[p].subs, now, token) == Committed(r)
    ensures Conclude(t, p, t.windows[p], now, token) == Committed((Finished(t, p, r), r))
  {
  }

  lemma SubmitTakes(s: Storage, c: Call, t: Storage, u: Storage, r: Result)
    requires c.CallSubmit? && AcceptDirect(s, c.oracle, c.project, c.nonce, c.reading, c.now) == Committed(t)
    requires c.project in t.windows && |t.windows[c.project].subs| >= s.config.minOracles
    requires Conclude(t, c.project, t.windows[c.project], c.now, c.token) == Committed((u, r))
    ensures SubmitReading(s, c.oracle, c.project, c.nonce, c.reading, c.now, c.token) == Committed((u, Some(r)))
  {
  }

  function Finished(t: Storage, p: ProjectId, r: Result): Storage
    requires p in t.windows
  {
    t.(windows := t.windows[p := t.windows[p].(finalized := true)], open := Without(t.open, p),
       history := Append(t.history, p, r, t.windows[p].subs))
  }

  /** A reveal that does not yet make the quorum. */
  lemma AfterReveal(d: System, env: Env, calls: seq<Call>, s: Storage, c: Call, t: Storage)
    requires Arrives(d, env, calls, s) && c.CallReveal?
    requires AcceptReveal(s, env, c.oracle, c.project, c.opening, c.now) == Committed(t)
    requires |t.windows[c.project].subs| < t.config.minOracles
    ensures Arrives(d, env, calls + [c], t)
  {
    assert RevealReading(s, env, c.oracle, c.project, c.opening, c.now, c.token) == Committed((t, None));
    AfterStoreStep(d, env, calls, s, c, t);
  }

  /** Readings without flow earn nothing and cannot overflow. */
  lemma NoFlowFinalizes(cfg: OracleConfig, base: Baselines, subs: seq<Submission>)
    requires 1 <= |subs| <= BUFFER_LEN && forall i :: 0 <= i < |subs| ==> subs[i].reading.flowRate == 0
    ensures Finalize(cfg, base, subs).Committed? && Finalize(cfg, base, subs).value.total == 0
  {
    MedianInRange(Flow(subs), 0, 0);
    var med := Medians(subs);
    assert CheckedRemoval(base.n, med.totalNitrogen, 0, cfg.windowSecs) == Committed(0);
    assert CheckedRemoval(base.p, med.totalPhosphorus, 0, cfg.windowSecs) == Committed(0);
    assert 0 * cfg.creditPerKgN == 0 && 0 * cfg.creditPerKgP == 0;
    assert 0 * (BPS - Penalty(cfg, med, base.temp)) == 0;
  }

  const STILL: Sample := Reading(650, 0, 100, 0, 0, 0, 0)

  // ---- A history that begins with a commit ----

  const THREE: Roster := Roster([7, 8, 9], {7, 8, 9}, 3)

  function Adding(): seq<Call> {
    [] + [CallAddOracle(0, 7)] + [CallAddOracle(0, 8)] + [CallAddOracle(0, 9)]
  }

  lemma AddingRuns(env: Env, stakingToken: Address, treasury: Address, bank: Bank)
    ensures
      var d := Deployed(0, stakingToken, treasury, bank);
      Arrives(d, env, Adding(), d.store.(roster := THREE))
  {
    var d := Deployed(0, stakingToken, treasury, bank);
    var s := d.store;
    AfterAdd(d, env, [], s, 7);
    var s1 := s.(roster := Roster(s.roster.list + [7], s.roster.active + {7}, 1));
    AfterAdd(d, env, [] + [CallAddOracle(0, 7)], s1, 8);
    var s2 := s1.(roster := Roster(s1.roster.list + [8], s1.roster.active + {8}, 2));
    AfterAdd(d, env, [] + [CallAddOracle(0, 7)] + [CallAddOracle(0, 8)], s2, 9);
    assert s.roster.list + [7] + [8] + [9] == [7, 8, 9] && s.roster.active + {7} + {8} + {9} == {7, 8, 9};
  }

  /** Oracle 7 of a new deployment with three of them commits to a digest under a
  given configuration, and the reveal phase begins in `ledger`. */
  function Committing(config: OracleConfig, digest: Digest, ledger: nat): seq<Call> {
    Adding() + [CallUpdateConfig(0, config)] + [CallOpen(0, 1, Now(0, 0))] + [CallCommit(7, 1, 1, digest)]
    + [CallBeginReveal(1, Now(config.commitPhaseSecs, ledger))]
  }

  /** The storage of a new deployment after that. */
  function Began(s: Storage, config: OracleConfig, digest: Digest, ledger: nat): Storage {
    s.(config := config, roster := THREE, nonces := map[(1, 7) := 1], open := [1],
       windows := map[1 := Window(Reveal, 0, ledger, [], false)],
       marks := Markers(map[(1, 7) := Commitment(digest, 1)], {}, {}))
  }

  /** A configuration such histories can run under. */
  predicate Plain(config: OracleConfig) {
    config.Valid() && config.minOracles <= 3 && config.minStake == 0 && config.commitPhaseSecs < TWO_64
  }

  lemma CommittingRuns(env: Env, stakingToken: Address, treasury: Address, bank: Bank, config: OracleConfig, digest: Digest, ledger: nat)
    requires Plain(config)
    ensures
      var d := Deployed(0, stakingToken, treasury, bank);
      Arrives(d, env, Committing(config, digest, ledger), Began(d.store, config, digest, ledger))
  {
    var d := Deployed(0, stakingToken, treasury, bank);
    AddingRuns(env, stakingToken, treasury, bank);
    var s1, cs := d.store.(roster := THREE), Adding();
    AfterConfig(d, env, cs, s1, config);
    var s2 := s1.(config := config);
    cs := cs + [CallUpdateConfig(0, config)];
    AfterOpen(d, env, cs, s2, 1, Now(0, 0));
    var w := FreshWindow(Now(0, 0));
    assert s2.windows[1 := w] == map[1 := w] && s2.open + [1] == [1];
    CommitAndBegin(d, env, cs + [CallOpen(0, 1, Now(0, 0))], s2.(windows := map[1 := w], open := [1]),
                   stakingToken, treasury, config, digest, ledger);
  }

  lemma CommitAndBegin(d: System, env: Env, cs: seq<Call>, s: Storage, stakingToken: Address, treasury: Address,
                       config: OracleConfig, digest: Digest, ledger: nat)
    requires Plain(config) && d.store == Init(0, stakingToken, treasury)
    requires s == d.store.(config := config, roster := THREE, windows := map[1 := FreshWindow(Now(0, 0))], open := [1])
    requires Arrives(d, env, cs, s)
    ensures Arrives(d, env, cs + [CallCommit(7, 1, 1, digest)] + [CallBeginReveal(1, Now(config.commitPhaseSecs, ledger))],
                    Began(d.store, config, digest, ledger))
  {
    AfterCommit(d, env, cs, s, 7, 1, 1, digest);
    var t := s.(nonces := s.nonces[(1, 7) := 1],
                marks := s.marks.(commitments := s.marks.commitments[(1, 7) := Commitment(digest, 1)]));
    AfterBegin(d, env, cs + [CallCommit(7, 1, 1, digest)], t, 1, Now(config.commitPhaseSecs, ledger), 0);
    var w := Window(Reveal, 0, ledger, [], false);
    assert t.windows[1 := w] == map[1 := w];
  }

  // ---- One oracle, two readings ----

  /** The commit and the direct submission of oracle 7, and its reveal. */
  function Twice(env: Env, config: OracleConfig, reading: Sample, token: TokenView, salt: Bytes): seq<Call> {
    var opening := Opening(1, reading, salt);
    Committing(config, DigestOf(env, opening), 0)
    + [CallSubmit(7, 1, 2, reading, Now(300, 0), token)] + [CallReveal(7, 1, opening, Now(300, 0), token)]
  }

  /** The storage after that: two readings of one oracle in one open window. */
  function Doubled(s: Storage, digest: Digest, reading: Sample): Storage {
    s.(config := DefaultConfig(s.config.stakingToken, s.config.treasury), roster := THREE, nonces := map[(1, 7) := 2], open := [1],
       submissions := 2,
       windows := map[1 := Window(Reveal, 0, 0, [Submission(7, 2, 300, reading), Submission(7, 1, 300, reading)], false)],
       marks := Markers(map[(1, 7) := Commitment(digest, 1)], {(1, 7)}, {(1, 7)}))
  }

  lemma DirectAfterCommit(s: Storage, stakingToken: Address, treasury: Address, digest: Digest, reading: Sample) returns (t: Storage)
    requires s == Init(0, stakingToken, treasury) && reading.Plausible()
    ensures
      var b := Began(s, s.config, digest, 0);
      && t == b.(nonces := map[(1, 7) := 2], submissions := 1,
                 windows := map[1 := Window(Reveal, 0, 0, [Submission(7, 2, 300, reading)], false)],
                 marks := b.marks.(submitted := {(1, 7)}))
      && AcceptDirect(b, 7, 1, 2, reading, Now(300, 0)) == Committed(t)
  {
    var b, first := Began(s, s.config, digest, 0), Submission(7, 2, 300, reading);
    var w := Window(Reveal, 0, 0, [first], false);
    t := b.(nonces := map[(1, 7) := 2], submissions := 1, windows := map[1 := w], marks := b.marks.(submitted := {(1, 7)}));
    assert b.nonces[(1, 7) := 2] == map[(1, 7) := 2] && b.windows[1 := w] == map[1 := w];
    assert [] + [first] == [first] && {} + {(1, 7)} == {(1, 7)};
  }

  lemma RevealAfterDirect(env: Env, s: Storage, stakingToken: Address, treasury: Address, reading: Sample, salt: Bytes, t: Storage)
    requires s == Init(0, stakingToken, treasury) && reading.Plausible()
    requires
      var b := Began(s, s.config, DigestOf(env, Opening(1, reading, salt)), 0);
      t == b.(nonces := map[(1, 7) := 2], submissions := 1,
              windows := map[1 := Window(Reveal, 0, 0, [Submission(7, 2, 300, reading)], false)],
              marks := b.marks.(submitted := {(1, 7)}))
    ensures AcceptReveal(t, env, 7, 1, Opening(1, reading, salt), Now(300, 0))
         == Committed(Doubled(s, DigestOf(env, Opening(1, reading, salt)), reading))
  {
    var first, second := Submission(7, 2, 300, reading), Submission(7, 1, 300, reading);
    var w := Window(Reveal, 0, 0, [first, second], false);
    assert t.windows[1 := w] == map[1 := w] && [first] + [second] == [first, second];
    assert {} + {(1, 7)} == {(1, 7)};
  }

  /** Twice is possible: having committed, an oracle submits directly with the next
  nonce and then reveals, all for one unfinished window. */
  lemma OneOracleTwiceInAWindow(env: Env, stakingToken: Address, treasury: Address, bank: Bank, reading: Sample, token: TokenView, salt: Bytes)
    requires reading.Plausible()
    ensures
      var d, config := Deployed(0, stakingToken, treasury, bank), DefaultConfig(stakingToken, treasury);
      Arrives(d, env, Twice(env, config, reading, token, salt), Doubled(d.store, DigestOf(env, Opening(1, reading, salt)), reading))
  {
    var d, config := Deployed(0, stakingToken, treasury, bank), DefaultConfig(stakingToken, treasury);
    var opening := Opening(1, reading, salt);
    var digest := DigestOf(env, opening);
    CommittingRuns(env, stakingToken, treasury, bank, config, digest, 0);
    var t := DirectAfterCommit(d.store, stakingToken, treasury, digest, reading);
    RevealAfterDirect(env, d.store, stakingToken, treasury, reading, salt, t);
    var cs, c := Committing(config, digest, 0), CallSubmit(7, 1, 2, reading, Now(300, 0), token);
    AfterSubmit(d, env, cs, Began(d.store, config, digest, 0), c, t);
    AfterReveal(d, env, cs + [c], t, CallReveal(7, 1, opening, Now(300, 0), token), Doubled(d.store, digest, reading));
  }

  // ---- One liar among two reporters ----

  /** A good reading without flow, and the same with some. */
  const HONEST: Sample := Reading(650, 0, 100, 0, 0, 10, 2)
  const LIE: Sample := Reading(650, 0, 100, 1000, 0, 10, 2)

  lemma TwoLiesDecide(cfg: OracleConfig, subs: seq<Submission>)
    requires |subs| == 3 && subs[0].reading == LIE && subs[1].reading == LIE
    requires cfg == DefaultConfig(cfg.stakingToken, cfg.treasury)
    ensures Finalize(cfg, ResolveBaselines(None), subs) == Committed(Finalization(0, 0, 0, 100, 100))
  {
    MajorityBoundsMedian(Ph(subs), {0, 1}, 650, 650);
    MajorityBoundsMedian(Turbidity(subs), {0, 1}, 0, 0);
    MajorityBoundsMedian(Oxygen(subs), {0, 1}, 100, 100);
    MajorityBoundsMedian(Flow(subs), {0, 1}, 1000, 1000);
    MajorityBoundsMedian(Temperature(subs), {0, 1}, 0, 0);
    MajorityBoundsMedian(Nitrogen(subs), {0, 1}, 10, 10);
    MajorityBoundsMedian(Phosphorus(subs), {0, 1}, 2, 2);
    assert Medians(subs) == LIE;
  }

  lemma HonestIsThird(s: Storage, stakingToken: Address, treasury: Address, digest: Digest) returns (t: Storage)
    requires s == Init(0, stakingToken, treasury)
    ensures AcceptDirect(Doubled(s, digest, LIE), 8, 1, 1, HONEST, Now(300, 0)) == Committed(t)
    ensures t.windows == map[1 := t.windows[1]] && t.config == s.config && t.projects == map[]
    ensures t.windows[1].subs == [Submission(7, 2, 300, LIE), Submission(7, 1, 300, LIE), Submission(8, 1, 300, HONEST)]
  {
    var b := Doubled(s, digest, LIE);
    t := AcceptDirect(b, 8, 1, 1, HONEST, Now(300, 0)).value;
    assert b.windows[1].subs + [Submission(8, 1, 300, HONEST)]
        == [Submission(7, 2, 300, LIE), Submission(7, 1, 300, LIE), Submission(8, 1, 300, HONEST)];
  }

  /** So one oracle decides a result of three readings and two reporters: it earns
  a hundred credits, although the other reported no flow at all. */
  lemma OneLiarDecides(env: Env, stakingToken: Address, treasury: Address, bank: Bank, token: TokenView, salt: Bytes)
    ensures
      var d, config := Deployed(0, stakingToken, treasury, bank), DefaultConfig(stakingToken, treasury);
      var calls := Twice(env, config, LIE, token, salt) + [CallSubmit(8, 1, 1, HONEST, Now(300, 0), token)];
      var last := Run(d, env, calls).store.history.last;
      1 in last && last[1].fin.total == 100 && last[1].oracleCount == 3
  {
    var d, config := Deployed(0, stakingToken, treasury, bank), DefaultConfig(stakingToken, treasury);
    var digest := DigestOf(env, Opening(1, LIE, salt));
    OneOracleTwiceInAWindow(env, stakingToken, treasury, bank, LIE, token, salt);
    var t := HonestIsThird(d.store, stakingToken, treasury, digest);
    TwoLiesDecide(t.config, t.windows[1].subs);
    var r := Result(1, Finalization(0, 0, 0, 100, 100), 0, 0, 3, 300);
    assert ResultOf(t, 1, t.windows[1].subs, Now(300, 0), token) == Committed(r);
    var c := CallSubmit(8, 1, 1, HONEST, Now(300, 0), token);
    SubmitFinishes(Doubled(d.store, digest, LIE), env, c, t, r);
    AfterStoreStep(d, env, Twice(env, config, LIE, token, salt), Doubled(d.store, digest, LIE), c, Finished(t, 1, r));
  }

  // ---- What a finished window leaves behind ----

  lemma AfterRemove(d: System, env: Env, calls: seq<Call>, s: Storage, o: Address)
    requires Arrives(d, env, calls, s) && o in s.roster.active && s.book.stakes == map[] && s.open == []
    requires s.config.minOracles < s.roster.count
    ensures Arrives(d, env, calls + [CallRemoveOracle(s.admin, o)],
                    s.(roster := Roster(Without(s.roster.list, o), s.roster.active - {o}, s.roster.count - 1)))
  {
    AfterStoreStep(d, env, calls, s, CallRemoveOracle(s.admin, o), RemoveOracle(s, s.admin, o).value);
  }

  lemma AfterReset(d: System, env: Env, calls: seq<Call>, s: Storage, p: ProjectId, now: Now)
    requires Arrives(d, env, calls, s) && p in s.windows
    ensures Arrives(d, env, calls + [CallReset(s.admin, p, now)], ResetWindow(s, s.admin, p, now).value)
  {
    AfterStoreStep(d, env, calls, s, CallReset(s.admin, p, now), ResetWindow(s, s.admin, p, now).value);
  }

  function Solo(stakingToken: Address, treasury: Address): OracleConfig {
    DefaultConfig(stakingToken, treasury).(minOracles := 1)
  }

  /** With a quorum of one, a single direct submission finishes a window. */
  function Soloing(stakingToken: Address, treasury: Address, token: TokenView): seq<Call> {
    Adding() + [CallUpdateConfig(0, Solo(stakingToken, treasury))] + [CallSubmit(7, 1, 1, STILL, Now(0, 0), token)]
  }

  lemma StillResult(s: Storage, p: ProjectId, subs: seq<Submission>, now: Now, token: TokenView) returns (r: Result)
    requires 1 <= |subs| <= BUFFER_LEN && s.projects == map[]
    requires forall i :: 0 <= i < |subs| ==> subs[i].reading == STILL
    ensures ResultOf(s, p, subs, now, token) == Committed(r)
  {
    NoFlowFinalizes(s.config, ResolveBaselines(ProjectOf(s, p)), subs);
    r := ResultOf(s, p, subs, now, token).value;
  }

  lemma SoloRuns(env: Env, stakingToken: Address, treasury: Address, bank: Bank, token: TokenView) returns (s: Storage)
    ensures Arrives(Deployed(0, stakingToken, treasury, bank), env, Soloing(stakingToken, treasury, token), s)
    ensures s.admin == 0 && !s.paused && s.config == Solo(stakingToken, treasury) && s.roster == THREE && s.open == []
    ensures 1 in s.windows && s.windows[1].finalized && NonceOf(s, 1, 8) == 0
    ensures (1, 7) in s.marks.submitted && s.book == StakeBook(map[], map[], map[])
  {
    var d, config := Deployed(0, stakingToken, treasury, bank), Solo(stakingToken, treasury);
    AddingRuns(env, stakingToken, treasury, bank);
    AfterConfig(d, env, Adding(), d.store.(roster := THREE), config);
    var b, c := d.store.(roster := THREE, config := config), CallSubmit(7, 1, 1, STILL, Now(0, 0), token);
    var t := AcceptDirect(b, 7, 1, 1, STILL, Now(0, 0)).value;
    assert t.windows[1].subs == [] + [Submission(7, 1, 0, STILL)] == [Submission(7, 1, 0, STILL)];
    var r := StillResult(t, 1, t.windows[1].subs, Now(0, 0), token);
    SubmitFinishes(b, env, c, t, r);
    AfterStoreStep(d, env, Adding() + [CallUpdateConfig(0, config)], b, c, Finished(t, 1, r));
    s := Finished(t, 1, r);
    assert t.open == [] + [1] == [1] && Without([1], 1) == Without([1][..0], 1) == [];
  }

  /** Resetting that window makes one that is open and not listed. */
  lemma ResetUnlists(env: Env, stakingToken: Address, treasury: Address, bank: Bank, token: TokenView, now: Now)
    ensures
      var s := Run(Deployed(0, stakingToken, treasury, bank), env, Soloing(stakingToken, treasury, token) + [CallReset(0, 1, now)]).store;
      WindowActive(s, 1) && 1 !in s.open
  {
    var s := SoloRuns(env, stakingToken, treasury, bank, token);
    AfterReset(Deployed(0, stakingToken, treasury, bank), env, Soloing(stakingToken, treasury, token), s, 1, now);
  }

  /** An oracle that commits to it can be removed. */
  lemma CommitterIsRemoved(env: Env, stakingToken: Address, treasury: Address, bank: Bank, token: TokenView, now: Now, digest: Digest)
    ensures
      var calls := Soloing(stakingToken, treasury, token) + [CallReset(0, 1, now)] + [CallCommit(8, 1, 1, digest)];
      var s := Run(Deployed(0, stakingToken, treasury, bank), env, calls).store;
      EngagedIn(s, 1, 8) && RemoveOracle(s, 0, 8).Committed?
  {
    var d := Deployed(0, stakingToken, treasury, bank);
    var s := SoloRuns(env, stakingToken, treasury, bank, token);
    var cs := Soloing(stakingToken, treasury, token);
    AfterReset(d, env, cs, s, 1, now);
    var t := ResetWindow(s, 0, 1, now).value;
    assert (1, 8) in KeysOf(1, s.roster.list) by {
      assert s.roster.list[1] == 8;
    }
    AfterCommit(d, env, cs + [CallReset(0, 1, now)], t, 8, 1, 1, digest);
  }

  /** A reset does not free everyone: an oracle that reported, was removed when the
  window was finished, and comes back after the reset is still refused. */
  lemma ResetMissesTheRemoved(env: Env, stakingToken: Address, treasury: Address, bank: Bank, token: TokenView, now: Now,
                              nonce: nat, reading: Sample, later: Now)
    ensures
      var calls := Soloing(stakingToken, treasury, token)
                   + [CallRemoveOracle(0, 7)] + [CallOpen(0, 1, now)] + [CallReset(0, 1, now)] + [CallAddOracle(0, 7)];
      var s := Run(Deployed(0, stakingToken, treasury, bank), env, calls).store;
      7 in s.roster.active && AcceptDirect(s, 7, 1, nonce, reading, later).Reverted?
  {
    var d := Deployed(0, stakingToken, treasury, bank);
    var s := SoloRuns(env, stakingToken, treasury, bank, token);
    var cs := Soloing(stakingToken, treasury, token);
    AfterRemove(d, env, cs, s, 7);
    WithoutRemoves(s.roster.list, 7);
    var s1 := s.(roster := Roster(Without(s.roster.list, 7), s.roster.active - {7}, 2));
    cs := cs + [CallRemoveOracle(0, 7)];
    AfterOpen(d, env, cs, s1, 1, now);
    var s2 := s1.(windows := s1.windows[1 := FreshWindow(now)], open := s1.open + [1]);
    cs := cs + [CallOpen(0, 1, now)];
    AfterReset(d, env, cs, s2, 1, now);
    var s3 := ResetWindow(s2, 0, 1, now).value;
    assert (1, 7) !in KeysOf(1, Reporters(s2.windows[1].subs)) + KeysOf(1, s2.roster.list);
    AfterAdd(d, env, cs + [CallReset(0, 1, now)], s3, 7);
  }

  // ---- A commitment that outlives its window ----

  /** Oracle 7 commits, oracle 8 finishes the window directly, and a new window of
  the project reaches its reveal phase. */
  function Outliving(stakingToken: Address, treasury: Address, digest: Digest, token: TokenView): seq<Call> {
    Adding() + [CallUpdateConfig(0, Solo(stakingToken, treasury))] + [CallOpen(0, 1, Now(0, 0))] + [CallCommit(7, 1, 1, digest)]
    + [CallSubmit(8, 1, 1, STILL, Now(0, 0), token)] + [CallOpen(0, 1, Now(0, 0))] + [CallBeginReveal(1, Now(300, 0))]
  }

  lemma CommitThenFinish(env: Env, stakingToken: Address, treasury: Address, bank: Bank, digest: Digest, token: TokenView)
    returns (s: Storage)
    ensures
      var calls := Adding() + [CallUpdateConfig(0, Solo(stakingToken, treasury))] + [CallOpen(0, 1, Now(0, 0))]
                   + [CallCommit(7, 1, 1, digest)] + [CallSubmit(8, 1, 1, STILL, Now(0, 0), token)];
      Arrives(Deployed(0, stakingToken, treasury, bank), env, calls, s)
    ensures s.admin == 0 && !s.paused && s.config == Solo(stakingToken, treasury) && s.roster == THREE && s.open == []
    ensures 1 in s.windows && s.windows[1].finalized
    ensures s.marks == Markers(map[(1, 7) := Commitment(digest, 1)], {(1, 8)}, {}) && s.book == StakeBook(map[], map[], map[])
  {
    var d, config := Deployed(0, stakingToken, treasury, bank), Solo(stakingToken, treasury);
    AddingRuns(env, stakingToken, treasury, bank);
    AfterConfig(d, env, Adding(), d.store.(roster := THREE), config);
    var b, cs := d.store.(roster := THREE, config := config), Adding() + [CallUpdateConfig(0, config)];
    AfterOpen(d, env, cs, b, 1, Now(0, 0));
    var w := FreshWindow(Now(0, 0));
    assert b.windows[1 := w] == map[1 := w] && b.open + [1] == [1];
    var s1 := b.(windows := map[1 := w], open := [1]);
    cs := cs + [CallOpen(0, 1, Now(0, 0))];
    AfterCommit(d, env, cs, s1, 7, 1, 1, digest);
    var s2 := s1.(nonces := s1.nonces[(1, 7) := 1], marks := Markers(map[(1, 7) := Commitment(digest, 1)], {}, {}));
    assert s1.marks.commitments[(1, 7) := Commitment(digest, 1)] == map[(1, 7) := Commitment(digest, 1)];
    s := FinishDirectly(d, env, cs + [CallCommit(7, 1, 1, digest)], s2, token);
  }

  lemma DirectIntoOpen(s: Storage) returns (t: Storage)
    requires 8 in s.roster.active && s.config.minStake == 0
    requires s.windows == map[1 := FreshWindow(Now(0, 0))] && s.open == [1] && NonceOf(s, 1, 8) == 0 && s.marks.submitted == {}
    ensures AcceptDirect(s, 8, 1, 1, STILL, Now(0, 0)) == Committed(t)
    ensures 1 in t.windows && t.windows[1].subs == [Submission(8, 1, 0, STILL)] && t.open == [1]
    ensures t.marks == s.marks.(submitted := {(1, 8)})
    ensures t.admin == s.admin && t.paused == s.paused && t.config == s.config && t.roster == s.roster && t.book == s.book
    ensures t.projects == s.projects
  {
    t := AcceptDirect(s, 8, 1, 1, STILL, Now(0, 0)).value;
    assert {} + {(1, 8)} == {(1, 8)};
    assert t.windows[1].subs == [] + [Submission(8, 1, 0, STILL)] == [Submission(8, 1, 0, STILL)];
  }

  lemma FinishDirectly(d: System, env: Env, cs: seq<Call>, s2: Storage, token: TokenView) returns (s: Storage)
    requires Arrives(d, env, cs, s2)
    requires s2.roster == THREE && s2.config.minOracles == 1 && s2.config.minStake == 0 && s2.projects == map[]
    requires s2.windows == map[1 := FreshWindow(Now(0, 0))] && s2.open == [1] && NonceOf(s2, 1, 8) == 0 && s2.marks.submitted == {}
    ensures Arrives(d, env, cs + [CallSubmit(8, 1, 1, STILL, Now(0, 0), token)], s)
    ensures s.open == [] && 1 in s.windows && s.windows[1].finalized
    ensures s.marks == s2.marks.(submitted := {(1, 8)})
    ensures s.admin == s2.admin && s.paused == s2.paused && s.config == s2.config && s.roster == s2.roster && s.book == s2.book
  {
    var t := DirectIntoOpen(s2);
    var r := StillResult(t, 1, t.windows[1].subs, Now(0, 0), token);
    SubmitFinishes(s2, env, CallSubmit(8, 1, 1, STILL, Now(0, 0), token), t, r);
    s := Finished(t, 1, r);
    AfterStoreStep(d, env, cs, s2, CallSubmit(8, 1, 1, STILL, Now(0, 0), token), s);
    assert Without([1], 1) == Without([1][..0], 1) == [];
  }

  lemma OutlivingRuns(env: Env, stakingToken: Address, treasury: Address, bank: Bank, digest: Digest, token: TokenView) returns (s: Storage)
    ensures Arrives(Deployed(0, stakingToken, treasury, bank), env, Outliving(stakingToken, treasury, digest, token), s)
    ensures !s.paused && s.config == Solo(stakingToken, treasury) && s.roster == THREE && s.book == StakeBook(map[], map[], map[])
    ensures 1 in s.windows && s.windows[1] == Window(Reveal, 0, 0, [], false)
    ensures s.marks == Markers(map[(1, 7) := Commitment(digest, 1)], {(1, 8)}, {})
  {
    var d := Deployed(0, stakingToken, treasury, bank);
    var before := CommitThenFinish(env, stakingToken, treasury, bank, digest, token);
    var cs := Adding() + [CallUpdateConfig(0, Solo(stakingToken, treasury))] + [CallOpen(0, 1, Now(0, 0))]
              + [CallCommit(7, 1, 1, digest)] + [CallSubmit(8, 1, 1, STILL, Now(0, 0), token)];
    AfterOpen(d, env, cs, before, 1, Now(0, 0));
    var t := before.(windows := before.windows[1 := FreshWindow(Now(0, 0))], open := before.open + [1]);
    AfterBegin(d, env, cs + [CallOpen(0, 1, Now(0, 0))], t, 1, Now(300, 0), 0);
    s := t.(windows := t.windows[1 := t.windows[1].(phase := Reveal, revealLedger := 0)]);
  }

  /** In the new window the old commitment is still good for a reveal. */
  lemma OldCommitmentIsRevealed(env: Env, stakingToken: Address, treasury: Address, bank: Bank, token: TokenView, opening: Opening)
    requires opening.nonce == 1 && opening.reading.Plausible()
    ensures
      var s := Run(Deployed(0, stakingToken, treasury, bank), env,
                   Outliving(stakingToken, treasury, DigestOf(env, opening), token)).store;
      && 1 in s.windows && s.windows[1].subs == []
      && AcceptReveal(s, env, 7, 1, opening, Now(300, 0)).Committed?
  {
    var s := OutlivingRuns(env, stakingToken, treasury, bank, DigestOf(env, opening), token);
  }

  /** And it is penalized there, although its oracle never committed to that window. */
  lemma OldCommitmentIsPenalized(env: Env, stakingToken: Address, treasury: Address, bank: Bank, digest: Digest, token: TokenView,
                                 ledger: nat)
    requires 60 < ledger < TWO_32
    ensures
      var calls := Outliving(stakingToken, treasury, digest, token) + [CallFinalize(1, Now(300, ledger), token, true)];
      var s := Run(Deployed(0, stakingToken, treasury, bank), env, calls).store;
      Counter(s.book.missed, 7) == 1 && (1, 7) !in s.marks.commitments
  {
    var d, c := Deployed(0, stakingToken, treasury, bank), CallFinalize(1, Now(300, ledger), token, true);
    var s := OutlivingRuns(env, stakingToken, treasury, bank, digest, token);
    RunPush(d, env, Outliving(stakingToken, treasury, digest, token), c);
    PassWithoutStakes(Purse(s.marks.commitments, s.book, bank), s.config, env.self, {}, 1, THREE.list, c.now, c.permit);
    assert Step(System(s, bank), env, c).Committed?;
    FinalizeWindowPenalizesExactly(System(s, bank), env, c, 7);
    MissedRevealIsConsumed(System(s, bank), env, c, 7);
  }

  // ---- A reveal that outlives its window ----

  /** With a quorum of two, oracle 7 reveals, oracle 8 finishes the window directly,
  and the next one is opened. */
  function Revealing(env: Env, stakingToken: Address, treasury: Address, salt: Bytes, token: TokenView): seq<Call> {
    var config, opening := DefaultConfig(stakingToken, treasury).(minOracles := 2), Opening(1, STILL, salt);
    Committing(config, DigestOf(env, opening), 0) + [CallReveal(7, 1, opening, Now(300, 0), token)]
    + [CallSubmit(8, 1, 1, STILL, Now(300, 0), token)] + [CallOpen(0, 1, Now(300, 0))]
  }

  lemma RevealThenFinish(s: Storage, env: Env, stakingToken: Address, treasury: Address, salt: Bytes, token: TokenView)
    returns (t: Storage, u: Storage, r: Result)
    requires s == Init(0, stakingToken, treasury)
    ensures
      var config, opening := s.config.(minOracles := 2), Opening(1, STILL, salt);
      && AcceptReveal(Began(s, config, DigestOf(env, opening), 0), env, 7, 1, opening, Now(300, 0)) == Committed(t)
      && |t.windows[1].subs| == 1
    ensures AcceptDirect(t, 8, 1, 1, STILL, Now(300, 0)) == Committed(u) && 1 in u.windows && |u.windows[1].subs| == 2
    ensures ResultOf(u, 1, u.windows[1].subs, Now(300, 0), token) == Committed(r) && t.config.minOracles == 2
    ensures u.admin == 0 && !u.paused && u.config == s.config.(minOracles := 2) && u.roster == THREE && u.open == [1]
    ensures (1, 7) in u.marks.commitments && (1, 7) in u.marks.revealed
  {
    var b := Began(s, s.config.(minOracles := 2), DigestOf(env, Opening(1, STILL, salt)), 0);
    t := AcceptReveal(b, env, 7, 1, Opening(1, STILL, salt), Now(300, 0)).value;
    assert t.windows[1].subs == [] + [Submission(7, 1, 300, STILL)];
    u := AcceptDirect(t, 8, 1, 1, STILL, Now(300, 0)).value;
    assert u.windows[1].subs == t.windows[1].subs + [Submission(8, 1, 300, STILL)];
    r := StillResult(u, 1, u.windows[1].subs, Now(300, 0), token);
  }

  lemma FinishAfterReveal(d: System, env: Env, cs: seq<Call>, t: Storage, u: Storage, r: Result, token: TokenView)
    requires Arrives(d, env, cs, t) && t.config.minOracles == 2
    requires AcceptDirect(t, 8, 1, 1, STILL, Now(300, 0)) == Committed(u) && 1 in u.windows && |u.windows[1].subs| == 2
    requires ResultOf(u, 1, u.windows[1].subs, Now(300, 0), token) == Committed(r)
    requires u.admin == 0 && u.open == [1] && 1 <= u.config.maxOpenWindows
    ensures Arrives(d, env, cs + [CallSubmit(8, 1, 1, STILL, Now(300, 0), token)] + [CallOpen(0, 1, Now(300, 0))],
                    Finished(u, 1, r).(windows := u.windows[1 := FreshWindow(Now(300, 0))], open := [1]))
  {
    var c := CallSubmit(8, 1, 1, STILL, Now(300, 0), token);
    SubmitFinishes(t, env, c, u, r);
    AfterStoreStep(d, env, cs, t, c, Finished(u, 1, r));
    assert Without([1], 1) == Without([1][..0], 1) == [];
    AfterOpen(d, env, cs + [c], Finished(u, 1, r), 1, Now(300, 0));
    assert Finished(u, 1, r).windows[1 := FreshWindow(Now(300, 0))] == u.windows[1 := FreshWindow(Now(300, 0))];
    assert [] + [1] == [1];
  }

  lemma RevealingRuns(env: Env, stakingToken: Address, treasury: Address, bank: Bank, salt: Bytes, token: TokenView) returns (s: Storage)
    ensures Arrives(Deployed(0, stakingToken, treasury, bank), env, Revealing(env, stakingToken, treasury, salt, token), s)
    ensures 1 in s.windows && s.windows[1] == FreshWindow(Now(300, 0)) && s.roster == THREE && !s.paused
    ensures (1, 7) in s.marks.commitments && (1, 7) in s.marks.revealed
  {
    var d, config := Deployed(0, stakingToken, treasury, bank), DefaultConfig(stakingToken, treasury).(minOracles := 2);
    var first := Opening(1, STILL, salt);
    var cs, c := Committing(config, DigestOf(env, first), 0), CallReveal(7, 1, first, Now(300, 0), token);
    CommittingRuns(env, stakingToken, treasury, bank, config, DigestOf(env, first), 0);
    var t, u, r := RevealThenFinish(d.store, env, stakingToken, treasury, salt, token);
    AfterReveal(d, env, cs, Began(d.store, config, DigestOf(env, first), 0), c, t);
    FinishAfterReveal(d, env, cs + [c], t, u, r, token);
    s := Finished(u, 1, r).(windows := u.windows[1 := FreshWindow(Now(300, 0))], open := [1]);
  }

  /** In the new window oracle 7, still whitelisted, can neither commit nor reveal. */
  lemma RevealedIsLockedOut(env: Env, stakingToken: Address, treasury: Address, bank: Bank, salt: Bytes, token: TokenView,
                            nonce: nat, digest: Digest, opening: Opening, later: Now)
    ensures
      var s := Run(Deployed(0, stakingToken, treasury, bank), env, Revealing(env, stakingToken, treasury, salt, token)).store;
      && 1 in s.windows && s.windows[1] == FreshWindow(Now(300, 0)) && 7 in s.roster.active && !s.paused
      && CommitReading(s, 7, 1, nonce, digest).Reverted?
      && AcceptReveal(s, env, 7, 1, opening, later).Reverted?
  {
    var s := RevealingRuns(env, stakingToken, treasury, bank, salt, token);
  }

  // ---- A reporter that can be removed ----

  /** With one more oracle than the quorum, one whose direct reading is in a listed
  open window can still be removed. */
  lemma DirectReporterIsRemoved(env: Env, stakingToken: Address, treasury: Address, bank: Bank, token: TokenView)
    ensures
      var d := Deployed(0, stakingToken, treasury, bank);
      var calls := Adding() + [CallAddOracle(0, 10)] + [CallSubmit(7, 1, 1, STILL, Now(0, 0), token)];
      var s := Run(d, env, calls).store;
      && 1 in s.open && WindowActive(s, 1) && s.windows[1].subs == [Submission(7, 1, 0, STILL)]
      && RemoveOracle(s, 0, 7).Committed?
  {
    var d := Deployed(0, stakingToken, treasury, bank);
    AddingRuns(env, stakingToken, treasury, bank);
    AfterAdd(d, env, Adding(), d.store.(roster := THREE), 10);
    var b := d.store.(roster := Roster(THREE.list + [10], THREE.active + {10}, 4));
    var t := AcceptDirect(b, 7, 1, 1, STILL, Now(0, 0)).value;
    assert t.windows[1].subs == [] + [Submission(7, 1, 0, STILL)] == [Submission(7, 1, 0, STILL)];
    AfterSubmit(d, env, Adding() + [CallAddOracle(0, 10)], b, CallSubmit(7, 1, 1, STILL, Now(0, 0), token), t);
    assert t.open == [] + [1] == [1];
  }

  // ---- A deadline that wraps ----

  lemma {:induction false} PassWithoutStakes(p: Purse, cfg: OracleConfig, self: Address, revealed: set<Key>, project: ProjectId,
                                             oracles: seq<Address>, now: Now, permit: bool)
    requires p.book.stakes == map[]
    ensures PenalizeEach(p, cfg, self, revealed, project, oracles, now, permit).Committed?
    decreases |oracles|
  {
    if oracles != [] {
      var q := PenalizeOne(p, cfg, self, revealed, project, oracles[0], now, permit).value;
      PassWithoutStakes(q, cfg, self, revealed, project, oracles[1..], now, permit);
    }
  }

  /** The longest reveal period that can be configured wraps in every ledger but
  the first: the oracle is penalized in the very ledger the phase began. */
  lemma LongestPeriodPenalizesAtOnce(env: Env, stakingToken: Address, treasury: Address, bank: Bank, digest: Digest, token: TokenView, ledger: nat)
    requires 1 <= ledger < TWO_32
    ensures
      var config := DefaultConfig(stakingToken, treasury).(maxRevealLedgers := TWO_32 - 1);
      var calls := Committing(config, digest, ledger) + [CallFinalize(1, Now(300, ledger), token, true)];
      && config.Valid()
      && Counter(Run(Deployed(0, stakingToken, treasury, bank), env, calls).store.book.missed, 7) == 1
  {
    var d := Deployed(0, stakingToken, treasury, bank);
    var config := DefaultConfig(stakingToken, treasury).(maxRevealLedgers := TWO_32 - 1);
    var c := CallFinalize(1, Now(300, ledger), token, true);
    CommittingRuns(env, stakingToken, treasury, bank, config, digest, ledger);
    RunPush(d, env, Committing(config, digest, ledger), c);
    WrappedPass(System(Began(d.store, config, digest, ledger), bank), env, stakingToken, treasury, digest, ledger, c);
  }

  lemma WrappedPass(s: System, env: Env, stakingToken: Address, treasury: Address, digest: Digest, ledger: nat, c: Call)
    requires 1 <= ledger < TWO_32 && c.CallFinalize? && c.project == 1 && c.now == Now(300, ledger)
    requires s.store == Began(Init(0, stakingToken, treasury), s.store.config, digest, ledger)
    requires s.store.config == DefaultConfig(stakingToken, treasury).(maxRevealLedgers := TWO_32 - 1)
    ensures Counter(Next(s, env, c).store.book.missed, 7) == 1
  {
    var p := Purse(s.store.marks.commitments, s.store.book, s.bank);
    PassWithoutStakes(p, s.store.config, env.self, {}, 1, THREE.list, c.now, c.permit);
    assert Add32(ledger, TWO_32 - 1) == ledger - 1;
    assert Step(s, env, c).Committed?;
    FinalizeWindowPenalizesExactly(s, env, c, 7);
  }

  lemma RevealOpensAtOnce(s: Storage, env: Env, stakingToken: Address, treasury: Address, opening: Opening, ledger: nat)
    requires opening.nonce == 1 && opening.reading.Plausible() && 1 <= ledger && ledger + 60 < TWO_32
    requires s == Init(0, stakingToken, treasury)
    ensures
      var b := Began(s, s.config.(minRevealLedgers := TWO_32 - 1), DigestOf(env, opening), ledger);
      AcceptReveal(b, env, 7, 1, opening, Now(300, ledger)).Committed?
  {
    WrapsBelow(ledger, TWO_32 - 1, TWO_32);
  }

  /** The longest delay before reveals likewise: a reveal is accepted in the very
  ledger the phase began. */
  lemma LongestDelayRevealsAtOnce(env: Env, stakingToken: Address, treasury: Address, bank: Bank, opening: Opening, ledger: nat)
    requires opening.nonce == 1 && opening.reading.Plausible() && 1 <= ledger && ledger + 60 < TWO_32
    ensures
      var config := DefaultConfig(stakingToken, treasury).(minRevealLedgers := TWO_32 - 1);
      var s := Run(Deployed(0, stakingToken, treasury, bank), env, Committing(config, DigestOf(env, opening), ledger)).store;
      config.Valid() && AcceptReveal(s, env, 7, 1, opening, Now(300, ledger)).Committed?
  {
    var config := DefaultConfig(stakingToken, treasury).(minRevealLedgers := TWO_32 - 1);
    CommittingRuns(env, stakingToken, treasury, bank, config, DigestOf(env, opening), ledger);
    RevealOpensAtOnce(Init(0, stakingToken, treasury), env, stakingToken, treasury, opening, ledger);
  }

  /** And the longest commit phase ends in the second its window was opened, at any
  time but the first. */
  lemma LongestPhaseEndsAtOnce(env: Env, stakingToken: Address, treasury: Address, bank: Bank, digest: Digest, now: Now)
    requires 1 <= now.timestamp < TWO_64
    ensures
      var config := DefaultConfig(stakingToken, treasury).(commitPhaseSecs := TWO_64 - 1);
      var calls := Adding() + [CallUpdateConfig(0, config)] + [CallOpen(0, 1, now)] + [CallCommit(7, 1, 1, digest)];
      var s := Run(Deployed(0, stakingToken, treasury, bank), env, calls).store;
      config.Valid() && BeginReveal(s, 1, now).Committed?
  {
    var d, config := Deployed(0, stakingToken, treasury, bank), DefaultConfig(stakingToken, treasury).(commitPhaseSecs := TWO_64 - 1);
    AddingRuns(env, stakingToken, treasury, bank);
    AfterConfig(d, env, Adding(), d.store.(roster := THREE), config);
    var b, cs := d.store.(roster := THREE, config := config), Adding() + [CallUpdateConfig(0, config)];
    AfterOpen(d, env, cs, b, 1, now);
    var t := b.(windows := b.windows[1 := FreshWindow(now)], open := b.open + [1]);
    AfterCommit(d, env, cs + [CallOpen(0, 1, now)], t, 7, 1, 1, digest);
    var s := CommitReading(t, 7, 1, 1, digest).value;
    assert (1, s.roster.list[0]) in s.marks.commitments;
    WrapsBelow(now.timestamp, TWO_64 - 1, TWO_64);
  }
}
