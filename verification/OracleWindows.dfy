/** The oracle's windows, roster and list of open projects over every run. */
module OracleWindows {
  import opened Transactions
  import opened Lists
  import opened Banks
  import opened OracleData
  import opened Median
  import opened CreditFormula
  import opened HonestMajority
  import opened OracleSpec
  import opened OracleSteps

  // ---- The invariant ----

  ghost predicate PlausibleAll(subs: seq<Submission>) {
    forall i :: 0 <= i < |subs| ==> subs[i].reading.Plausible()
  }

  /** An unfinished window always has room for one more reading in the median's
  buffer; a finished one has used at least one and at most all places. */
  ghost predicate SoundWindow(w: Window) {
    && PlausibleAll(w.subs)
    && (if w.finalized then 1 <= |w.subs| <= BUFFER_LEN else |w.subs| < BUFFER_LEN)
  }

  ghost predicate SoundRoster(r: Roster) {
    && NoRepeats(r.list)
    && (forall o :: o in r.list <==> o in r.active)
    && r.count == |r.list| <= ORACLE_HARD_LIMIT
  }

  /** Everything, except for what concerns the window of `skip`. */
  ghost predicate SoundBut(s: Storage, skip: Option<ProjectId>) {
    && s.config.Valid()
    && SoundRoster(s.roster)
    && NoRepeats(s.open)
    && (forall p :: p in s.open && Some(p) != skip ==> WindowActive(s, p))
    && (forall p :: p in s.windows && Some(p) != skip ==> SoundWindow(s.windows[p]))
  }

  ghost predicate Sound(s: Storage) {
    SoundBut(s, None)
  }

  // ---- Every call keeps it ----

  lemma {:induction false} WithoutOne<T>(list: seq<T>, x: T)
    requires NoRepeats(list)
    ensures |Without(list, x)| == |list| - (if x in list then 1 else 0)
  {
    if list != [] {
      var n := |list| - 1;
      WithoutOne(list[..n], x);
      assert x in list <==> x in list[..n] || x == list[n];
      if x == list[n] {
        assert x !in list[..n];
      }
    }
  }

  lemma QuietStaysSound(s: Storage, t: Storage, c: Call)
    requires Sound(s) && Quiet(c) && QuietEffect(s, t, c)
    ensures Sound(t)
  {
    if c.CallRemoveOracle? {
      WithoutRemoves(s.roster.list, c.oracle);
      WithoutOne(s.roster.list, c.oracle);
    }
  }

  /** Both ways of adding a reading find room for it. */
  lemma ReadingFits(s: Storage, t: Storage, c: Call)
    requires Sound(s) && (c.CallSubmit? || c.CallReveal?) && ReadEffect(s, t, c)
    ensures SoundBut(t, Some(c.project)) && WindowActive(t, c.project)
    ensures PlausibleAll(t.windows[c.project].subs)
    ensures 1 <= |t.windows[c.project].subs| <= BUFFER_LEN
  {
  }

  lemma FinishStaysSound(t: Storage, u: Storage, c: Call, r: Result)
    requires !Quiet(c) && SoundBut(t, Some(c.project)) && FinishEffect(t, u, c, r)
    requires PlausibleAll(t.windows[c.project].subs)
    ensures Sound(u)
  {
    WithoutRemoves(t.open, c.project);
  }

  lemma HeavyStaysSound(s: Storage, t: Storage, u: Storage, c: Call, r: Option<Result>)
    requires Sound(s) && !Quiet(c) && Via(s, t, u, c, r)
    ensures Sound(u)
  {
    if !c.CallFinalize? {
      ReadingFits(s, t, c);
    }
    if r.Some? {
      FinishStaysSound(t, u, c, r.value);
    }
  }

  lemma TransitionStaysSound(s: Storage, u: Storage, c: Call)
    requires Sound(s) && Transition(s, u, c)
    ensures Sound(u)
  {
    if u != s {
      if Quiet(c) {
        QuietStaysSound(s, u, c);
      } else {
        var t, r :| Via(s, t, u, c, r);
        HeavyStaysSound(s, t, u, c, r);
      }
    }
  }

  lemma {:induction false} RunStaysSound(s: System, env: Env, calls: seq<Call>)
    requires Sound(s.store)
    ensures Sound(Run(s, env, calls).store)
  {
    if calls != [] {
      var before := Run(s, env, calls[..|calls| - 1]);
      RunStaysSound(s, env, calls[..|calls| - 1]);
      StepIsTransition(before, env, calls[|calls| - 1]);
      TransitionStaysSound(before.store, Run(s, env, calls).store, calls[|calls| - 1]);
    }
  }

  /** In every reachable state, through any changes of configuration and roster,
  an open window holds fewer than ten readings and a finished one between one
  and ten, all of them plausible; the whitelist, its listing and its count
  agree; and the list of open projects has no duplicates and names only
  unfinished windows. */
  lemma WindowBound(env: Env, admin: Address, stakingToken: Address, treasury: Address, bank: Bank, calls: seq<Call>)
    ensures Sound(Run(Deployed(admin, stakingToken, treasury, bank), env, calls).store)
  {
    RunStaysSound(Deployed(admin, stakingToken, treasury, bank), env, calls);
  }

  // ---- The median never panics ----

  /** The readings a call hands to the medians, if it gets that far. */
  function Aggregated(s: Storage, env: Env, c: Call): Option<seq<Submission>> {
    match c
    case CallSubmit(oracle, project, nonce, reading, now, token) =>
      var t := AcceptDirect(s, oracle, project, nonce, reading, now);
      if t.Committed? && |t.value.windows[project].subs| >= s.config.minOracles then Some(t.value.windows[project].subs) else None
    case CallReveal(oracle, project, opening, now, token) =>
      var t := AcceptReveal(s, env, oracle, project, opening, now);
      if t.Committed? && |t.value.windows[project].subs| >= s.config.minOracles then Some(t.value.windows[project].subs) else None
    case CallFinalize(project, now, token, permit) =>
      if WindowActive(s, project) && |s.windows[project].subs| >= s.config.minOracles then Some(s.windows[project].subs) else None
    case _ => None
  }

  /** Whatever a reachable contract aggregates fits the median's buffer and is
  not empty: only the checked arithmetic of the formula can still fail. */
  lemma MediansNeverPanic(env: Env, admin: Address, stakingToken: Address, treasury: Address, bank: Bank, calls: seq<Call>,
                          c: Call, base: Baselines)
    ensures
      var s := Run(Deployed(admin, stakingToken, treasury, bank), env, calls).store;
      var subs := Aggregated(s, env, c);
      subs.Some? ==>
        && 1 <= |subs.value| <= BUFFER_LEN
        && Finalize(s.config, base, subs.value) == ComputeFinalization(s.config, Medians(subs.value), base, s.config.windowSecs)
  {
    WindowBound(env, admin, stakingToken, treasury, bank, calls);
    AggregatedFits(Run(Deployed(admin, stakingToken, treasury, bank), env, calls).store, env, c);
  }

  lemma AggregatedFits(s: Storage, env: Env, c: Call)
    requires Sound(s)
    ensures Aggregated(s, env, c).Some? ==> 1 <= |Aggregated(s, env, c).value| <= BUFFER_LEN
  {
    if c.CallSubmit? || c.CallReveal? {
      ReadingEffect(s, env, c);
      var t := if c.CallSubmit? then AcceptDirect(s, c.oracle, c.project, c.nonce, c.reading, c.now)
               else AcceptReveal(s, env, c.oracle, c.project, c.opening, c.now);
      if t.Committed? {
        ReadingFits(s, t.value, c);
      }
    }
  }

  // ---- With a fixed quorum, every result has exactly that many readings ----

  /** Every unfinished window is short of `m` readings; that of `project` may
  just have reached them. */
  ghost predicate QuorateBut(s: Storage, m: nat, project: ProjectId) {
    && s.config.minOracles == m
    && (forall p :: p in s.windows ==> s.windows[p].finalized || |s.windows[p].subs| < m + (if p == project then 1 else 0))
    && (forall k :: k in s.history.results ==> s.history.results[k].oracleCount == m)
  }

  ghost predicate Quorate(s: Storage, m: nat) {
    && s.config.minOracles == m
    && (forall p :: p in s.windows ==> s.windows[p].finalized || |s.windows[p].subs| < m)
    && (forall k :: k in s.history.results ==> s.history.results[k].oracleCount == m)
  }

  predicate KeepsQuorum(c: Call, m: nat) {
    c.CallUpdateConfig? ==> c.config.minOracles == m
  }

  lemma QuietStaysQuorate(s: Storage, t: Storage, c: Call, m: nat)
    requires Quorate(s, m) && 1 <= m && KeepsQuorum(c, m) && Quiet(c) && QuietEffect(s, t, c)
    ensures Quorate(t, m)
  {
  }

  lemma ReadingStaysQuorate(s: Storage, t: Storage, c: Call, m: nat)
    requires Quorate(s, m) && 1 <= m && (c.CallSubmit? || c.CallReveal?) && ReadEffect(s, t, c)
    ensures QuorateBut(t, m, c.project)
  {
  }

  lemma FinishStaysQuorate(t: Storage, u: Storage, c: Call, r: Result, m: nat)
    requires !Quiet(c) && QuorateBut(t, m, c.project) && FinishEffect(t, u, c, r)
    ensures Quorate(u, m)
  {
  }

  lemma HeavyStaysQuorate(s: Storage, t: Storage, u: Storage, c: Call, r: Option<Result>, m: nat)
    requires Quorate(s, m) && 1 <= m && !Quiet(c) && Via(s, t, u, c, r)
    ensures Quorate(u, m)
  {
    if !c.CallFinalize? {
      ReadingStaysQuorate(s, t, c, m);
    }
    if r.Some? {
      FinishStaysQuorate(t, u, c, r.value, m);
    }
  }

  lemma TransitionStaysQuorate(s: Storage, u: Storage, c: Call, m: nat)
    requires Quorate(s, m) && 1 <= m && KeepsQuorum(c, m) && Transition(s, u, c)
    ensures Quorate(u, m)
  {
    if u != s {
      if Quiet(c) {
        QuietStaysQuorate(s, u, c, m);
      } else {
        var t, r :| Via(s, t, u, c, r);
        HeavyStaysQuorate(s, t, u, c, r, m);
      }
    }
  }

  lemma {:induction false} FixedQuorum(s: System, env: Env, calls: seq<Call>, m: nat)
    requires Quorate(s.store, m) && 1 <= m
    requires forall i :: 0 <= i < |calls| ==> KeepsQuorum(calls[i], m)
    ensures Quorate(Run(s, env, calls).store, m)
  {
    if calls != [] {
      var before := Run(s, env, calls[..|calls| - 1]);
      FixedQuorum(s, env, calls[..|calls| - 1], m);
      StepIsTransition(before, env, calls[|calls| - 1]);
      TransitionStaysQuorate(before.store, Run(s, env, calls).store, calls[|calls| - 1], m);
    }
  }

  /** A new deployment asks for three oracles and has no results. */
  lemma DefaultQuorum(env: Env, admin: Address, stakingToken: Address, treasury: Address, bank: Bank, calls: seq<Call>)
    requires forall i :: 0 <= i < |calls| ==> KeepsQuorum(calls[i], 3)
    ensures
      var h := Run(Deployed(admin, stakingToken, treasury, bank), env, calls).store.history;
      forall k :: k in h.results ==> h.results[k].oracleCount == 3
  {
    FixedQuorum(Deployed(admin, stakingToken, treasury, bank), env, calls, 3);
  }

  // ---- Which windows are listed ----

  /** Every unfinished window is listed. */
  ghost predicate ListingComplete(s: Storage) {
    forall p :: WindowActive(s, p) ==> p in s.open
  }

  /** Restarting a window that had finished: the one call that unlists. */
  predicate RevivesFinished(s: Storage, c: Call) {
    c.CallReset? && c.admin == s.admin && c.project in s.windows && s.windows[c.project].finalized
  }

  lemma QuietKeepsListing(s: Storage, t: Storage, c: Call)
    requires Sound(s) && ListingComplete(s) && Quiet(c) && QuietEffect(s, t, c)
    ensures ListingComplete(t) <==> !RevivesFinished(s, c)
  {
    if RevivesFinished(s, c) {
      assert c.project !in s.open;
      assert WindowActive(t, c.project);
    }
  }

  lemma FinishKeepsListing(t: Storage, u: Storage, c: Call, r: Result)
    requires ListingComplete(t) && !Quiet(c) && FinishEffect(t, u, c, r)
    ensures ListingComplete(u)
  {
    WithoutRemoves(t.open, c.project);
  }

  lemma HeavyKeepsListing(s: Storage, t: Storage, u: Storage, c: Call, r: Option<Result>)
    requires ListingComplete(s) && !Quiet(c) && Via(s, t, u, c, r)
    ensures ListingComplete(u)
  {
    assert ListingComplete(t);
    if r.Some? {
      FinishKeepsListing(t, u, c, r.value);
    }
  }

  lemma TransitionKeepsListing(s: Storage, u: Storage, c: Call)
    requires Sound(s) && ListingComplete(s) && Transition(s, u, c) && !RevivesFinished(s, c)
    ensures ListingComplete(u)
  {
    if u != s {
      if Quiet(c) {
        QuietKeepsListing(s, u, c);
      } else {
        var t, r :| Via(s, t, u, c, r);
        HeavyKeepsListing(s, t, u, c, r);
      }
    }
  }

  /** A listing that misses no unfinished window stays that way under every call
  but one: `reset_window` on a finished window makes a window that is open and
  not listed. */
  lemma ListingStaysCompleteExactly(s: System, env: Env, c: Call)
    requires Sound(s.store) && ListingComplete(s.store)
    ensures ListingComplete(Next(s, env, c).store) <==> !RevivesFinished(s.store, c)
  {
    StepIsTransition(s, env, c);
    if RevivesFinished(s.store, c) {
      QuietKeepsListing(s.store, Next(s, env, c).store, c);
    } else {
      TransitionKeepsListing(s.store, Next(s, env, c).store, c);
    }
  }

  /** The oracle has committed to, or revealed in, this unfinished window. */
  predicate EngagedIn(s: Storage, project: ProjectId, oracle: Address) {
    WindowActive(s, project) && ((project, oracle) in s.marks.commitments || (project, oracle) in s.marks.revealed)
  }

  /** An oracle that may otherwise go is kept exactly if a window it has committed to
  or revealed in is unfinished and listed. So one that is engaged in unfinished
  windows is let go exactly if none of them is listed, and with a complete listing
  it never is. A direct reading does not keep an oracle. */
  lemma RemovalIsRefusedExactly(s: Storage, oracle: Address)
    requires Sound(s)
    requires oracle in s.roster.active && s.config.minOracles < s.roster.count
    requires
      var stake := StakeOf(s.book, oracle).amount;
      stake <= 0 || (s.config.minStake > 0 && stake < s.config.minStake)
    ensures RemoveOracle(s, s.admin, oracle).Reverted? <==> exists p: ProjectId :: EngagedIn(s, p, oracle) && p in s.open
    ensures ListingComplete(s) ==>
              (RemoveOracle(s, s.admin, oracle).Reverted? <==> exists p: ProjectId :: EngagedIn(s, p, oracle))
  {
    if exists p: ProjectId :: EngagedIn(s, p, oracle) && p in s.open {
      var p: ProjectId :| EngagedIn(s, p, oracle) && p in s.open;
      var i :| 0 <= i < |s.open| && s.open[i] == p;
      assert HasOpenSubmissions(s, oracle);
    }
    if HasOpenSubmissions(s, oracle) {
      var i :| 0 <= i < |s.open|
        && ((s.open[i], oracle) in s.marks.commitments || (s.open[i], oracle) in s.marks.revealed);
      assert EngagedIn(s, s.open[i], oracle);
    }
  }
}
