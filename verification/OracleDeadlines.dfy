/** Penalties for missed reveals: who is charged, how much, and when; and what a
reveal must match. */
module OracleDeadlines {
  import opened Numeric
  import opened Transactions
  import opened Sums
  import opened Banks
  import opened Bytes
  import opened OracleData
  import opened Slashing
  import opened Preimages
  import opened OracleSpec
  import opened OracleSteps

  // ---- One penalty pass ----

  /** The listed oracles that committed to the project and did not reveal. */
  predicate Charged(p: Purse, revealed: set<Key>, project: ProjectId, oracles: seq<Address>, oracle: Address) {
    oracle in oracles && Delinquent(p, revealed, project, oracle)
  }

  /** A pass marks every delinquent listed oracle once, however often it is
  listed, takes away its commitment, and touches nobody else's. */
  lemma {:induction false} PassChargesDelinquents(p: Purse, cfg: OracleConfig, self: Address, revealed: set<Key>, project: ProjectId,
                                                  oracles: seq<Address>, now: Now, permit: bool, key: Key)
    requires PenalizeEach(p, cfg, self, revealed, project, oracles, now, permit).Committed?
    ensures
      var q := PenalizeEach(p, cfg, self, revealed, project, oracles, now, permit).value;
      && Counter(q.book.missed, key.1)
         == Counter(p.book.missed, key.1) + (if Charged(p, revealed, project, oracles, key.1) then 1 else 0)
      && (key in q.commitments <==>
          key in p.commitments && !(key.0 == project && Charged(p, revealed, project, oracles, key.1)))
    decreases |oracles|
  {
    if oracles != [] {
      var q := PenalizeOne(p, cfg, self, revealed, project, oracles[0], now, permit).value;
      assert key.1 in oracles <==> key.1 == oracles[0] || key.1 in oracles[1..];
      PassChargesDelinquents(q, cfg, self, revealed, project, oracles[1..], now, permit, key);
    }
  }

  function CutOf(b: StakeBook, cfg: OracleConfig, oracle: Address): int {
    var cut := ComputeSlashAmount(StakeOf(b, oracle).amount, cfg);
    if cut.Committed? then cut.value else 0
  }

  lemma CutIsPartOfStake(b: StakeBook, cfg: OracleConfig, oracle: Address)
    requires cfg.Valid()
    ensures 0 <= CutOf(b, cfg, oracle) <= Max(StakeOf(b, oracle).amount, 0)
  {
    if 0 <= StakeOf(b, oracle).amount {
      SlashWithinStake(StakeOf(b, oracle).amount, cfg);
    }
  }

  lemma PenalizeOneCuts(p: Purse, cfg: OracleConfig, self: Address, revealed: set<Key>, project: ProjectId,
                        one: Address, now: Now, permit: bool, oracle: Address)
    requires cfg.Valid() && PenalizeOne(p, cfg, self, revealed, project, one, now, permit).Committed?
    ensures
      var q := PenalizeOne(p, cfg, self, revealed, project, one, now, permit).value;
      StakeOf(q.book, oracle).amount == StakeOf(p.book, oracle).amount
        - (if one == oracle && Delinquent(p, revealed, project, one) then CutOf(p.book, cfg, oracle) else 0)
  {
    CutIsPartOfStake(p.book, cfg, one);
  }

  /** Each of them loses exactly one proportional cut of the stake it came with. */
  lemma {:induction false} PassCutsOnce(p: Purse, cfg: OracleConfig, self: Address, revealed: set<Key>, project: ProjectId,
                                        oracles: seq<Address>, now: Now, permit: bool, oracle: Address)
    requires cfg.Valid() && PenalizeEach(p, cfg, self, revealed, project, oracles, now, permit).Committed?
    ensures
      var q := PenalizeEach(p, cfg, self, revealed, project, oracles, now, permit).value;
      StakeOf(q.book, oracle).amount == StakeOf(p.book, oracle).amount
        - (if Charged(p, revealed, project, oracles, oracle) then CutOf(p.book, cfg, oracle) else 0)
    decreases |oracles|
  {
    if oracles != [] {
      var q := PenalizeOne(p, cfg, self, revealed, project, oracles[0], now, permit).value;
      PenalizeOneCuts(p, cfg, self, revealed, project, oracles[0], now, permit, oracle);
      assert oracle in oracles <==> oracle == oracles[0] || oracle in oracles[1..];
      PassCutsOnce(q, cfg, self, revealed, project, oracles[1..], now, permit, oracle);
    }
  }

  /** Each cut leaves a record of its reason, a missed reveal, and its time. */
  lemma {:induction false} PassRecordsReason(p: Purse, cfg: OracleConfig, self: Address, revealed: set<Key>, project: ProjectId,
                                             oracles: seq<Address>, now: Now, permit: bool, oracle: Address)
    requires cfg.Valid() && PenalizeEach(p, cfg, self, revealed, project, oracles, now, permit).Committed?
    ensures
      var after := PenalizeEach(p, cfg, self, revealed, project, oracles, now, permit).value.book.slashes;
      if Charged(p, revealed, project, oracles, oracle) && CutOf(p.book, cfg, oracle) > 0
      then oracle in after && after[oracle] == SlashRecord(3, now.timestamp)
      else (oracle in after <==> oracle in p.book.slashes) && (oracle in after ==> after[oracle] == p.book.slashes[oracle])
    decreases |oracles|
  {
    if oracles != [] {
      var q := PenalizeOne(p, cfg, self, revealed, project, oracles[0], now, permit).value;
      PenalizeOneCuts(p, cfg, self, revealed, project, oracles[0], now, permit, oracle);
      assert oracle in oracles <==> oracle == oracles[0] || oracle in oracles[1..];
      PassRecordsReason(q, cfg, self, revealed, project, oracles[1..], now, permit, oracle);
    }
  }

  /** Did `oracle` commit to the window and fail to reveal? */
  predicate MissedReveal(s: Storage, project: ProjectId, oracle: Address) {
    oracle in s.roster.list && (project, oracle) in s.marks.commitments && (project, oracle) !in s.marks.revealed
  }

  /** A committed `finalize_window` penalizes exactly the oracles that missed their
  reveal, each by one mark and one cut. */
  lemma FinalizeWindowPenalizesExactly(s: System, env: Env, c: Call, oracle: Address)
    requires s.store.config.Valid() && c.CallFinalize? && Step(s, env, c).Committed?
    ensures
      var after, missed := Next(s, env, c).store.book, MissedReveal(s.store, c.project, oracle);
      && Counter(after.missed, oracle) == Counter(s.store.book.missed, oracle) + (if missed then 1 else 0)
      && StakeOf(after, oracle).amount == StakeOf(s.store.book, oracle).amount
           - (if missed then CutOf(s.store.book, s.store.config, oracle) else 0)
  {
    var t, r := Anatomy(s, env, c);
    var p := Purse(s.store.marks.commitments, s.store.book, s.bank);
    PassChargesDelinquents(p, s.store.config, env.self, s.store.marks.revealed, c.project, s.store.roster.list,
                           c.now, c.permit, (c.project, oracle));
    PassCutsOnce(p, s.store.config, env.self, s.store.marks.revealed, c.project, s.store.roster.list, c.now, c.permit, oracle);
  }

  // ---- When ----

  lemma TransitionKeepsMissed(s: Storage, u: Storage, c: Call)
    requires Transition(s, u, c) && u.book.missed != s.book.missed
    ensures c.CallFinalize? && WindowActive(s, c.project) && s.windows[c.project].phase.Reveal?
    ensures RevealCloses(s, s.windows[c.project]) < c.now.ledger
  {
    if !Quiet(c) {
      var t, r :| Via(s, t, u, c, r);
    }
  }

  lemma OnlyMissedRevealsCount(s: System, env: Env, c: Call, oracle: Address)
    requires s.store.config.Valid() && c.CallFinalize?
    requires Counter(Next(s, env, c).store.book.missed, oracle) != Counter(s.store.book.missed, oracle)
    ensures MissedReveal(s.store, c.project, oracle)
  {
    FinalizeWindowPenalizesExactly(s, env, c, oracle);
  }

  lemma NoWrap(a: nat, b: nat)
    requires a + b < TWO_32
    ensures Add32(a, b) == a + b
  {
  }

  /** Nobody is ever penalized except by `finalize_window`, in the reveal phase,
  for a commitment of its own, and past the deadline the contract computes; that
  is the real deadline whenever the sum fits a `u32`. */
  lemma PenaltyOnlyAfterDeadline(s: System, env: Env, c: Call, oracle: Address)
    requires s.store.config.Valid()
    requires Counter(Next(s, env, c).store.book.missed, oracle) != Counter(s.store.book.missed, oracle)
    ensures c.CallFinalize? && MissedReveal(s.store, c.project, oracle)
    ensures WindowActive(s.store, c.project)
    ensures
      var w, cfg := s.store.windows[c.project], s.store.config;
      && w.phase.Reveal?
      && RevealCloses(s.store, w) < c.now.ledger
      && (w.revealLedger + cfg.maxRevealLedgers < TWO_32 ==> w.revealLedger + cfg.maxRevealLedgers < c.now.ledger)
  {
    StepIsTransition(s, env, c);
    TransitionKeepsMissed(s.store, Next(s, env, c).store, c);
    OnlyMissedRevealsCount(s, env, c, oracle);
    var span := (s.store.windows[c.project].revealLedger, s.store.config.maxRevealLedgers);
    if span.0 + span.1 < TWO_32 {
      NoWrap(span.0, span.1);
    }
  }

  predicate PastDeadline(s: Storage, w: Window, ledger: nat) {
    RevealCloses(s, w) < ledger
  }

  /** The computed deadline is the intended one in every later ledger exactly if
  the sum does not wrap; if it wraps, penalties may start at once. */
  lemma DeadlineIsRealExactlyWithoutWrap(s: Storage, w: Window)
    requires w.revealLedger < TWO_32 && s.config.maxRevealLedgers < TWO_32
    ensures
      (forall ledger: nat :: w.revealLedger <= ledger < TWO_32 ==>
         (PastDeadline(s, w, ledger) <==> w.revealLedger + s.config.maxRevealLedgers < ledger))
      <==> w.revealLedger + s.config.maxRevealLedgers < TWO_32
  {
    if w.revealLedger + s.config.maxRevealLedgers >= TWO_32 {
      assert PastDeadline(s, w, w.revealLedger);
    }
  }

  /** Nothing but its ledger keeps the oracle from opening its commitment. */
  predicate CanOpen(s: Storage, env: Env, oracle: Address, project: ProjectId, opening: Opening) {
    && !s.paused && oracle in s.roster.active && HasStake(s, oracle)
    && WindowActive(s, project) && s.windows[project].phase.Reveal?
    && (project, oracle) in s.marks.commitments
    && s.marks.commitments[(project, oracle)] == Commitment(DigestOf(env, opening), opening.nonce)
    && opening.reading.Plausible()
  }

  lemma WrapsBelow(a: nat, b: nat, width: nat)
    requires a < width && b < width && a + b >= width
    ensures (a + b) % width == a + b - width < a
  {
    assert (a + b) % width == (a + b - width) % width;
  }

  /** From the ledger on in which the reveal phase began, every accepted reveal has
  waited for the configured delay exactly if that sum does not wrap; or if the
  sum for the deadline wraps, and no reveal is accepted any more. */
  lemma DelayIsRealExactly(s: Storage, env: Env, oracle: Address, project: ProjectId, opening: Opening)
    requires CanOpen(s, env, oracle, project, opening) && (project, oracle) !in s.marks.revealed
    requires s.windows[project].revealLedger < TWO_32
    requires s.config.minRevealLedgers < TWO_32 && s.config.maxRevealLedgers < TWO_32
    ensures
      var start, cfg := s.windows[project].revealLedger, s.config;
      (forall now: Now :: start <= now.ledger < TWO_32 && AcceptReveal(s, env, oracle, project, opening, now).Committed?
         ==> start + cfg.minRevealLedgers <= now.ledger)
      <==> start + cfg.minRevealLedgers < TWO_32 || TWO_32 <= start + cfg.maxRevealLedgers
  {
    var start, cfg := s.windows[project].revealLedger, s.config;
    if TWO_32 <= start + cfg.maxRevealLedgers {
      WrapsBelow(start, cfg.maxRevealLedgers, TWO_32);
    } else if TWO_32 <= start + cfg.minRevealLedgers {
      WrapsBelow(start, cfg.minRevealLedgers, TWO_32);
      assert AcceptReveal(s, env, oracle, project, opening, Now(0, start)).Committed?;
    }
  }

  /** From the time on at which the window was opened, the reveal phase begins only
  after the configured commit phase exactly if that sum does not wrap. */
  lemma CommitPhaseIsRealExactly(s: Storage, project: ProjectId)
    requires WindowActive(s, project) && s.windows[project].phase.Commit? && HasCommit(s, project)
    requires s.windows[project].openedAt < TWO_64 && s.config.commitPhaseSecs < TWO_64
    ensures
      var start, span := s.windows[project].openedAt, s.config.commitPhaseSecs;
      (forall now: Now :: start <= now.timestamp < TWO_64 && BeginReveal(s, project, now).Committed? ==> start + span <= now.timestamp)
      <==> start + span < TWO_64
  {
    var start, span := s.windows[project].openedAt, s.config.commitPhaseSecs;
    if TWO_64 <= start + span {
      WrapsBelow(start, span, TWO_64);
      assert BeginReveal(s, project, Now(start, 0)).Committed?;
    }
  }

  // ---- No reveal after a pass ----

  /** No reveal can be accepted on the window from ledger `ledger` on. */
  predicate Shut(s: Storage, project: ProjectId, ledger: nat, span: nat) {
    && s.config.maxRevealLedgers == span
    && project in s.windows
    && (s.windows[project].finalized
        || (s.windows[project].phase.Reveal? && Add32(s.windows[project].revealLedger, span) < ledger))
  }

  /** Calls that neither start the window over nor change the reveal period. */
  predicate LeavesShut(c: Call, project: ProjectId, span: nat) {
    && (c.CallReset? || c.CallOpen? ==> c.project != project)
    && (c.CallUpdateConfig? ==> c.config.maxRevealLedgers == span)
  }

  lemma QuietLeavesShut(s: Storage, u: Storage, c: Call, project: ProjectId, ledger: nat, span: nat)
    requires Shut(s, project, ledger, span) && LeavesShut(c, project, span) && Quiet(c) && QuietEffect(s, u, c)
    ensures Shut(u, project, ledger, span)
  {
  }

  lemma ReadingLeavesShut(s: Storage, t: Storage, c: Call, project: ProjectId, ledger: nat, span: nat)
    requires Shut(s, project, ledger, span) && (c.CallSubmit? || c.CallReveal?) && ReadEffect(s, t, c)
    ensures Shut(t, project, ledger, span)
  {
  }

  lemma FinishLeavesShut(t: Storage, u: Storage, c: Call, r: Result, project: ProjectId, ledger: nat, span: nat)
    requires Shut(t, project, ledger, span) && !Quiet(c) && FinishEffect(t, u, c, r)
    ensures Shut(u, project, ledger, span)
  {
  }

  lemma HeavyLeavesShut(s: Storage, t: Storage, u: Storage, c: Call, r: Option<Result>, project: ProjectId, ledger: nat, span: nat)
    requires Shut(s, project, ledger, span) && !Quiet(c) && Via(s, t, u, c, r)
    ensures Shut(u, project, ledger, span)
  {
    if c.CallFinalize? {
      assert t.windows == s.windows && t.config == s.config;
    } else {
      ReadingLeavesShut(s, t, c, project, ledger, span);
    }
    if r.Some? {
      FinishLeavesShut(t, u, c, r.value, project, ledger, span);
    }
  }

  lemma TransitionLeavesShut(s: Storage, u: Storage, c: Call, project: ProjectId, ledger: nat, span: nat)
    requires Shut(s, project, ledger, span) && LeavesShut(c, project, span) && Transition(s, u, c)
    ensures Shut(u, project, ledger, span)
  {
    if u != s {
      if Quiet(c) {
        QuietLeavesShut(s, u, c, project, ledger, span);
      } else {
        var t, r :| Via(s, t, u, c, r);
        HeavyLeavesShut(s, t, u, c, r, project, ledger, span);
      }
    }
  }

  lemma {:induction false} RunLeavesShut(s: System, env: Env, calls: seq<Call>, project: ProjectId, ledger: nat, span: nat)
    requires Shut(s.store, project, ledger, span)
    requires forall i :: 0 <= i < |calls| ==> LeavesShut(calls[i], project, span)
    ensures Shut(Run(s, env, calls).store, project, ledger, span)
  {
    if calls != [] {
      var before, c := Run(s, env, calls[..|calls| - 1]), calls[|calls| - 1];
      RunLeavesShut(s, env, calls[..|calls| - 1], project, ledger, span);
      StepIsTransition(before, env, c);
      TransitionLeavesShut(before.store, Run(s, env, calls).store, c, project, ledger, span);
    }
  }

  /** Once a penalty pass has gone over a window, no reveal on it is accepted in
  the same or any later ledger, whatever else is called in between. */
  lemma NoRevealAfterPenaltyPass(s: System, env: Env, pass: Call, calls: seq<Call>, oracle: Address, opening: Opening, now: Now)
    requires pass.CallFinalize? && Step(s, env, pass).Committed?
    requires forall i :: 0 <= i < |calls| ==> LeavesShut(calls[i], pass.project, s.store.config.maxRevealLedgers)
    requires pass.now.ledger <= now.ledger
    ensures AcceptReveal(Run(Next(s, env, pass), env, calls).store, env, oracle, pass.project, opening, now).Reverted?
  {
    var span := s.store.config.maxRevealLedgers;
    var t, r := Anatomy(s, env, pass);
    assert Shut(t, pass.project, pass.now.ledger, span);
    assert Shut(Next(s, env, pass).store, pass.project, pass.now.ledger, span);
    RunLeavesShut(Next(s, env, pass), env, calls, pass.project, pass.now.ledger, span);
  }

  // ---- A reveal opens the commitment that was made ----

  ghost predicate FromCalls(commitments: map<Key, Commitment>, calls: seq<Call>) {
    forall k :: k in commitments ==> CallCommit(k.1, k.0, commitments[k].nonce, commitments[k].digest) in calls
  }

  lemma TransitionFromCalls(s: Storage, u: Storage, c: Call, calls: seq<Call>)
    requires Transition(s, u, c) && FromCalls(s.marks.commitments, calls)
    ensures FromCalls(u.marks.commitments, calls + [c])
  {
    if u != s && !Quiet(c) {
      var t, r :| Via(s, t, u, c, r);
      assert FromCalls(t.marks.commitments, calls + [c]);
    }
  }

  lemma {:induction false} CommitmentsComeFromCalls(env: Env, admin: Address, stakingToken: Address, treasury: Address,
                                                    bank: Bank, calls: seq<Call>)
    ensures FromCalls(Run(Deployed(admin, stakingToken, treasury, bank), env, calls).store.marks.commitments, calls)
  {
    if calls != [] {
      var front, c := calls[..|calls| - 1], calls[|calls| - 1];
      var before := Run(Deployed(admin, stakingToken, treasury, bank), env, front);
      CommitmentsComeFromCalls(env, admin, stakingToken, treasury, bank, front);
      StepIsTransition(before, env, c);
      TransitionFromCalls(before.store, Next(before, env, c).store, c, front);
      assert front + [c] == calls;
    }
  }

  function Hash(env: Env, data: Bytes): Digest {
    env.sha(data)
  }

  ghost predicate CollisionFree(env: Env) {
    forall a, b :: Hash(env, a) == Hash(env, b) ==> a == b
  }

  /** With such a hash, a digest stands for one opening only. */
  lemma DigestBinds(env: Env, a: Opening, b: Opening)
    requires CollisionFree(env) && a.nonce < TWO_64 && b.nonce < TWO_64
    ensures DigestOf(env, a) == DigestOf(env, b) <==> a == b
  {
    var x, y := CommitmentPreimage(a.nonce, a.reading, a.salt), CommitmentPreimage(b.nonce, b.reading, b.salt);
    CommitmentPreimageInjective(a.nonce, a.reading, a.salt, b.nonce, b.reading, b.salt);
    assert Hash(env, x) == DigestOf(env, a) && Hash(env, y) == DigestOf(env, b);
  }

  lemma RevealMatchesACall(env: Env, s: Storage, calls: seq<Call>, oracle: Address, project: ProjectId, opening: Opening, now: Now)
    requires FromCalls(s.marks.commitments, calls) && AcceptReveal(s, env, oracle, project, opening, now).Committed?
    ensures CallCommit(oracle, project, opening.nonce, DigestOf(env, opening)) in calls
  {
  }

  /** An accepted reveal opens a commitment that the same oracle made for the same
  project and nonce; and if the hash has no collisions, the readings and the salt
  are the very ones it committed to. */
  lemma RevealOpensTheCommitment(env: Env, admin: Address, stakingToken: Address, treasury: Address, bank: Bank, calls: seq<Call>,
                                 oracle: Address, project: ProjectId, opening: Opening, now: Now, committed: Opening)
    requires AcceptReveal(Run(Deployed(admin, stakingToken, treasury, bank), env, calls).store, env, oracle, project, opening, now).Committed?
    requires CollisionFree(env) && committed.nonce < TWO_64 && opening.nonce < TWO_64
    ensures CallCommit(oracle, project, opening.nonce, DigestOf(env, opening)) in calls
    ensures DigestOf(env, committed) == DigestOf(env, opening) <==> committed == opening
  {
    CommitmentsComeFromCalls(env, admin, stakingToken, treasury, bank, calls);
    RevealMatchesACall(env, Run(Deployed(admin, stakingToken, treasury, bank), env, calls).store, calls, oracle, project, opening, now);
    DigestBinds(env, committed, opening);
  }
}
