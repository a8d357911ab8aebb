/** What a reveal or a penalty leaves behind for the windows that follow: how long
the commit-reveal path stays closed to an oracle, whose window a penalized
commitment belongs to, and what it costs. */
module OracleReveals {
  import opened Transactions
  import opened Sums
  import opened Banks
  import opened OracleData
  import opened Slashing
  import opened OracleSpec
  import opened OracleSteps
  import opened OracleWindows
  import opened OracleAccountability
  import opened OracleDeadlines
  import opened OracleStakes
  import opened OracleLifetimes

  // ---- How long the commit-reveal path stays closed ----

  /** The call finishes the project's window on the commit-reveal path. */
  predicate Concludes(s: System, env: Env, c: Call, project: ProjectId) {
    && (c.CallReveal? || c.CallFinalize?) && c.project == project && Step(s, env, c).Committed?
    && project in Next(s, env, c).store.windows && Next(s, env, c).store.windows[project].finalized
  }

  /** The call reaches the oracle's reveal marker: a reset that frees it, or a
  finalization on the commit-reveal path while it is whitelisted. */
  predicate FreesReveal(s: System, env: Env, c: Call, project: ProjectId, oracle: Address) {
    || Frees(s.store, c, project, oracle)
    || (Concludes(s, env, c, project) && oracle in s.store.roster.list)
  }

  predicate RevealsFor(s: System, env: Env, c: Call, project: ProjectId, oracle: Address) {
    RevealsAs(s, env, c, oracle) && c.project == project
  }

  lemma QuietRevealMarker(s: Storage, u: Storage, c: Call, project: ProjectId, oracle: Address)
    requires Quiet(c) && QuietEffect(s, u, c)
    ensures (project, oracle) in u.marks.revealed <==> (project, oracle) in s.marks.revealed && !Frees(s, c, project, oracle)
  {
  }

  lemma FinishRevealMarker(t: Storage, u: Storage, c: Call, r: Result, project: ProjectId, oracle: Address)
    requires !Quiet(c) && FinishEffect(t, u, c, r)
    ensures u.windows[c.project].finalized
    ensures (project, oracle) in u.marks.revealed
            <==> (project, oracle) in t.marks.revealed && !(!c.CallSubmit? && c.project == project && oracle in t.roster.list)
  {
  }

  lemma ReadingRevealMarker(s: Storage, t: Storage, c: Call, project: ProjectId, oracle: Address)
    requires (c.CallSubmit? || c.CallReveal?) && ReadEffect(s, t, c)
    ensures t.roster == s.roster && !t.windows[c.project].finalized
    ensures (project, oracle) in t.marks.revealed
            <==> (project, oracle) in s.marks.revealed || (c.CallReveal? && c.project == project && c.oracle == oracle)
  {
  }

  lemma HeavyRevealMarker(s: Storage, t: Storage, u: Storage, c: Call, r: Option<Result>, project: ProjectId, oracle: Address)
    requires !Quiet(c) && Via(s, t, u, c, r)
    ensures
      var key := (project, oracle);
      var done := !c.CallSubmit? && c.project == project && u.windows[project].finalized;
      key in u.marks.revealed
      <==> (key in s.marks.revealed || (c.CallReveal? && c.project == project && c.oracle == oracle))
           && !(done && oracle in s.roster.list)
  {
    if !c.CallFinalize? {
      ReadingRevealMarker(s, t, c, project, oracle);
    }
    if r.Some? {
      FinishRevealMarker(t, u, c, r.value, project, oracle);
    }
  }

  lemma QuietStepRevealMarker(s: System, env: Env, c: Call, project: ProjectId, oracle: Address)
    requires Quiet(c) && Step(s, env, c).Committed?
    ensures (project, oracle) in Next(s, env, c).store.marks.revealed
            <==> (project, oracle) in s.store.marks.revealed && !Frees(s.store, c, project, oracle)
  {
    QuietStepEffect(s, env, c);
    QuietRevealMarker(s.store, Next(s, env, c).store, c, project, oracle);
  }

  lemma HeavyStepRevealMarker(s: System, env: Env, c: Call, project: ProjectId, oracle: Address)
    requires !Quiet(c) && Step(s, env, c).Committed?
    ensures (project, oracle) in Next(s, env, c).store.marks.revealed
            <==> ((project, oracle) in s.store.marks.revealed || RevealsFor(s, env, c, project, oracle))
                 && !(Concludes(s, env, c, project) && oracle in s.store.roster.list)
  {
    var t, r := Anatomy(s, env, c);
    HeavyRevealMarker(s.store, t, Next(s, env, c).store, c, r, project, oracle);
  }

  lemma StepRevealMarker(s: System, env: Env, c: Call, project: ProjectId, oracle: Address)
    ensures (project, oracle) in Next(s, env, c).store.marks.revealed
            <==> ((project, oracle) in s.store.marks.revealed || RevealsFor(s, env, c, project, oracle))
                 && !FreesReveal(s, env, c, project, oracle)
  {
    if Step(s, env, c).Committed? {
      if Quiet(c) {
        QuietStepRevealMarker(s, env, c, project, oracle);
      } else {
        HeavyStepRevealMarker(s, env, c, project, oracle);
      }
    }
  }

  /** A reveal marker never stands without its commitment. */
  predicate Backed(m: Markers, key: Key) {
    key in m.revealed ==> key in m.commitments
  }

  lemma PassKeepsRevealed(s: System, env: Env, project: ProjectId, now: Now, permit: bool, key: Key)
    requires Penalize(s, env, project, now, permit).Committed?
    ensures
      var marks := Penalize(s, env, project, now, permit).value.store.marks;
      key in marks.commitments <==> key in s.store.marks.commitments && !(key.0 == project && MissedReveal(s.store, project, key.1))
  {
    PassChargesDelinquents(Purse(s.store.marks.commitments, s.store.book, s.bank), s.store.config, env.self,
                           s.store.marks.revealed, project, s.store.roster.list, now, permit, key);
  }

  lemma HeavyStaysBacked(s: System, env: Env, c: Call, key: Key)
    requires Backed(s.store.marks, key) && !Quiet(c) && Step(s, env, c).Committed?
    ensures Backed(Next(s, env, c).store.marks, key)
  {
    var t, r := Anatomy(s, env, c);
    if c.CallFinalize? {
      PassKeepsRevealed(s, env, c.project, c.now, c.permit, key);
    }
    assert Backed(t.marks, key);
  }

  lemma StepStaysBacked(s: System, env: Env, c: Call, key: Key)
    requires Backed(s.store.marks, key)
    ensures Backed(Next(s, env, c).store.marks, key)
  {
    if Step(s, env, c).Committed? {
      if Quiet(c) {
        QuietStepEffect(s, env, c);
      } else {
        HeavyStaysBacked(s, env, c, key);
      }
    }
  }

  /** The oracle revealed for the project, and nothing has reached its marker since. */
  predicate RevealSpent(s: System, env: Env, calls: seq<Call>, project: ProjectId, oracle: Address) {
    calls != [] &&
    var before, c := Run(s, env, calls[..|calls| - 1]), calls[|calls| - 1];
    && (RevealSpent(s, env, calls[..|calls| - 1], project, oracle) || RevealsFor(before, env, c, project, oracle))
    && !FreesReveal(before, env, c, project, oracle)
  }

  /** In every run, an oracle is marked as having revealed exactly if it has done so
  and neither a reset nor a finalization on the commit-reveal path has reached it
  since; a finalization by direct submission and a new window do not. While it is
  marked it can neither commit nor reveal for the project. */
  lemma {:induction false} RevealPathIsSpentExactly(env: Env, admin: Address, stakingToken: Address, treasury: Address, bank: Bank,
                                                    calls: seq<Call>, project: ProjectId, oracle: Address)
    ensures
      var d := Deployed(admin, stakingToken, treasury, bank);
      var s := Run(d, env, calls).store;
      && ((project, oracle) in s.marks.revealed <==> RevealSpent(d, env, calls, project, oracle))
      && Backed(s.marks, (project, oracle))
      && (RevealSpent(d, env, calls, project, oracle) ==>
            && (forall nonce, digest :: CommitReading(s, oracle, project, nonce, digest).Reverted?)
            && (forall opening, now :: AcceptReveal(s, env, oracle, project, opening, now).Reverted?))
  {
    if calls != [] {
      var d, front := Deployed(admin, stakingToken, treasury, bank), calls[..|calls| - 1];
      RevealPathIsSpentExactly(env, admin, stakingToken, treasury, bank, front, project, oracle);
      StepRevealMarker(Run(d, env, front), env, calls[|calls| - 1], project, oracle);
      StepStaysBacked(Run(d, env, front), env, calls[|calls| - 1], (project, oracle));
    }
  }

  // ---- Whose commitment is penalized ----

  lemma MissedRevealIsConsumed(s: System, env: Env, c: Call, oracle: Address)
    requires c.CallFinalize? && Step(s, env, c).Committed? && MissedReveal(s.store, c.project, oracle)
    ensures (c.project, oracle) !in Next(s, env, c).store.marks.commitments
  {
    var t, r := Anatomy(s, env, c);
    PassKeepsRevealed(s, env, c.project, c.now, c.permit, (c.project, oracle));
  }

  /** In every run, a committed `finalize_window` takes away the commitment of each
  oracle that missed its reveal, for one mark and one cut of its stake; and that
  commitment was made in the window exactly if the window did not find it. */
  lemma PenaltyIsOfThisWindowExactly(env: Env, admin: Address, stakingToken: Address, treasury: Address, bank: Bank,
                                     calls: seq<Call>, c: Call, oracle: Address)
    requires
      var s := Run(Deployed(admin, stakingToken, treasury, bank), env, calls);
      c.CallFinalize? && Step(s, env, c).Committed? && MissedReveal(s.store, c.project, oracle)
    ensures
      var d := Deployed(admin, stakingToken, treasury, bank);
      var s := Run(d, env, calls);
      var after := Next(s, env, c).store;
      && (c.project, oracle) !in after.marks.commitments
      && Counter(after.book.missed, oracle) == Counter(s.store.book.missed, oracle) + 1
      && StakeOf(after.book, oracle).amount
         == StakeOf(s.store.book, oracle).amount - CutOf(s.store.book, s.store.config, oracle)
      && (MadeInWindow(d, env, calls, c.project, oracle)
          <==> (c.project, oracle) !in AtStart(d, env, calls, c.project).commitments)
  {
    var d := Deployed(admin, stakingToken, treasury, bank);
    var s := Run(d, env, calls);
    WindowBound(env, admin, stakingToken, treasury, bank, calls);
    FinalizeWindowPenalizesExactly(s, env, c, oracle);
    MissedRevealIsConsumed(s, env, c, oracle);
    RunStaysTraced(d, env, calls, c.project, oracle);
    var t, r := Anatomy(s, env, c);
    assert WindowActive(s.store, c.project);
  }

  // ---- What a missed reveal pays ----

  lemma CutIsProportional(b: StakeBook, cfg: OracleConfig, oracle: Address)
    requires cfg.Valid() && 0 <= StakeOf(b, oracle).amount && ComputeSlashAmount(StakeOf(b, oracle).amount, cfg).Committed?
    ensures Proportional(StakeOf(b, oracle).amount, cfg, CutOf(b, cfg, oracle))
  {
    SlashIsProportional(StakeOf(b, oracle).amount, cfg);
  }

  lemma {:induction false} ChargedCutsAreComputed(p: Purse, cfg: OracleConfig, self: Address, revealed: set<Key>, project: ProjectId,
                                                  oracles: seq<Address>, now: Now, permit: bool, oracle: Address)
    requires PenalizeEach(p, cfg, self, revealed, project, oracles, now, permit).Committed?
    requires Charged(p, revealed, project, oracles, oracle)
    ensures ComputeSlashAmount(StakeOf(p.book, oracle).amount, cfg).Committed?
    decreases |oracles|
  {
    if oracle != oracles[0] {
      var q := PenalizeOne(p, cfg, self, revealed, project, oracles[0], now, permit).value;
      ChargedCutsAreComputed(q, cfg, self, revealed, project, oracles[1..], now, permit, oracle);
    }
  }

  /** With stakes covered, a committed `finalize_window` takes the configured share
  of its stake from each oracle that missed its reveal and nothing from any other,
  and the treasury receives what the stakes lost. */
  lemma MissedRevealsPayTheTreasury(s: System, env: Env, c: Call, token: Address, oracle: Address)
    requires Covered(s, env, token) && c.CallFinalize? && Step(s, env, c).Committed?
    ensures
      var before, after := s.store.book, Next(s, env, c).store.book;
      var lost := StakeOf(before, oracle).amount - StakeOf(after, oracle).amount;
      && (if MissedReveal(s.store, c.project, oracle) then Proportional(StakeOf(before, oracle).amount, s.store.config, lost)
          else lost == 0)
      && Staked(before) - Staked(after)
         == Holding(Next(s, env, c).bank, token, s.store.config.treasury) - Holding(s.bank, token, s.store.config.treasury)
  {
    FinalizeKeepsCover(s, env, c, token);
    FinalizeWindowPenalizesExactly(s, env, c, oracle);
    if MissedReveal(s.store, c.project, oracle) {
      StakeWithinTotal(s.store.book, oracle);
      FinalizeComputesCut(s, env, c, oracle);
      CutIsProportional(s.store.book, s.store.config, oracle);
    }
  }

  lemma FinalizeComputesCut(s: System, env: Env, c: Call, oracle: Address)
    requires c.CallFinalize? && Step(s, env, c).Committed? && MissedReveal(s.store, c.project, oracle)
    ensures ComputeSlashAmount(StakeOf(s.store.book, oracle).amount, s.store.config).Committed?
  {
    var t, r := Anatomy(s, env, c);
    ChargedCutsAreComputed(Purse(s.store.marks.commitments, s.store.book, s.bank), s.store.config, env.self,
                           s.store.marks.revealed, c.project, s.store.roster.list, c.now, c.permit, oracle);
  }
}
