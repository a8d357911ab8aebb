/** What a committed call of the oracle does to windows, markers and results,
taken apart into a reading or a penalty pass and what may follow it. */
module OracleSteps {
  import opened Transactions
  import opened Lists
  import opened OracleData
  import opened Median
  import opened OracleSpec

  /** Calls that take no reading and finish no window. */
  predicate Quiet(c: Call) {
    !c.CallSubmit? && !c.CallReveal? && !c.CallFinalize?
  }

  ghost predicate QuietEffect(s: Storage, t: Storage, c: Call) {
    && t.history == s.history && t.submissions == s.submissions && t.book.missed == s.book.missed
    && t.nonces == (if c.CallCommit? then s.nonces[(c.project, c.oracle) := c.nonce] else s.nonces)
    && (c.CallStake? || c.CallUnstake? || c.CallClaim? || c.CallSlash? || t.book == s.book)
    && (if c.CallUpdateConfig? then t.config == c.config && c.config.Valid() && c.config.minOracles <= s.roster.count
        else t.config == s.config)
    && (match c
        case CallAddOracle(_, o) =>
          && o !in s.roster.active && s.roster.count < s.config.maxOracles
          && t.roster == Roster(s.roster.list + [o], s.roster.active + {o}, s.roster.count + 1)
        case CallRemoveOracle(_, o) =>
          && o in s.roster.active && s.config.minOracles < s.roster.count
          && t.roster == Roster(Without(s.roster.list, o), s.roster.active - {o}, s.roster.count - 1)
        case _ => t.roster == s.roster)
    && match c
       case CallOpen(_, p, now) =>
         && !WindowActive(s, p) && t.marks == s.marks && t.windows == s.windows[p := FreshWindow(now)]
         && t.open == (if p in s.open then s.open else s.open + [p])
       case CallReset(admin, p, now) =>
         && admin == s.admin && p in s.windows && t.windows == s.windows[p := FreshWindow(now)] && t.open == s.open
         && t.marks == ClearAll(s.marks, KeysOf(p, Reporters(s.windows[p].subs)) + KeysOf(p, s.roster.list))
       case CallCommit(o, p, nonce, digest) =>
         && WindowActive(s, p) && s.windows[p].phase.Commit? && t.windows == s.windows && t.open == s.open
         && (p, o) !in s.marks.commitments
         && nonce == NonceOf(s, p, o) + 1
         && t.marks == s.marks.(commitments := s.marks.commitments[(p, o) := Commitment(digest, nonce)])
       case CallBeginReveal(p, now) =>
         && WindowActive(s, p) && s.windows[p].phase.Commit? && t.marks == s.marks && t.open == s.open
         && t.windows == s.windows[p := s.windows[p].(phase := Reveal, revealLedger := now.ledger)]
       case _ => t.windows == s.windows && t.marks == s.marks && t.open == s.open
  }

  predicate WindowCall(c: Call) {
    c.CallOpen? || c.CallReset? || c.CallCommit? || c.CallBeginReveal?
  }

  lemma WindowCallEffect(s: System, env: Env, c: Call)
    requires WindowCall(c) && Step(s, env, c).Committed?
    ensures QuietEffect(s.store, Next(s, env, c).store, c)
  {
  }

  predicate SettingsCall(c: Call) {
    c.CallAddOracle? || c.CallRemoveOracle? || c.CallUpdateConfig? || c.CallSetProject? || c.CallSetPaused?
  }

  lemma SettingsCallEffect(s: System, env: Env, c: Call)
    requires SettingsCall(c) && Step(s, env, c).Committed?
    ensures QuietEffect(s.store, Next(s, env, c).store, c)
  {
  }

  lemma StakeCallEffect(s: System, env: Env, c: Call)
    requires Quiet(c) && !WindowCall(c) && !SettingsCall(c) && Step(s, env, c).Committed?
    ensures QuietEffect(s.store, Next(s, env, c).store, c)
  {
  }

  lemma QuietStepEffect(s: System, env: Env, c: Call)
    requires Quiet(c) && Step(s, env, c).Committed?
    ensures QuietEffect(s.store, Next(s, env, c).store, c)
  {
    if WindowCall(c) {
      WindowCallEffect(s, env, c);
    } else if SettingsCall(c) {
      SettingsCallEffect(s, env, c);
    } else {
      StakeCallEffect(s, env, c);
    }
  }

  /** A reading enters an unfinished window, on one of the two paths. */
  ghost predicate ReadEffect(s: Storage, t: Storage, c: Call)
    requires c.CallSubmit? || c.CallReveal?
  {
    var p, key := c.project, (c.project, c.oracle);
    var w := WindowFor(s, p, c.now);
    var sub := if c.CallSubmit? then Submission(c.oracle, c.nonce, c.now.timestamp, c.reading)
               else Submission(c.oracle, c.opening.nonce, c.now.timestamp, c.opening.reading);
    && !w.finalized
    && sub.reading.Plausible()
    && t.windows == s.windows[p := w.(subs := w.subs + [sub])]
    && t.submissions == s.submissions + 1
    && t.history == s.history && t.config == s.config && t.roster == s.roster && t.book == s.book && t.projects == s.projects
    && (if c.CallSubmit? then
          && key !in s.marks.submitted && c.nonce == NonceOf(s, p, c.oracle) + 1 && t.nonces == s.nonces[key := c.nonce]
          && t.marks == s.marks.(submitted := s.marks.submitted + {key})
          && t.open == (if p in s.open then s.open else s.open + [p])
        else
          && p in s.windows && w.phase.Reveal? && t.nonces == s.nonces && key in s.marks.commitments && key !in s.marks.revealed
          && t.marks == s.marks.(revealed := s.marks.revealed + {key})
          && t.open == s.open)
  }

  lemma ReadingEffect(s: Storage, env: Env, c: Call)
    requires c.CallSubmit? || c.CallReveal?
    ensures c.CallSubmit? ==>
              var t := AcceptDirect(s, c.oracle, c.project, c.nonce, c.reading, c.now);
              t.Committed? ==> ReadEffect(s, t.value, c)
    ensures c.CallReveal? ==>
              var t := AcceptReveal(s, env, c.oracle, c.project, c.opening, c.now);
              t.Committed? ==> ReadEffect(s, t.value, c)
  {
  }

  /** A window is aggregated, its result stored, and the project taken off the list. */
  ghost predicate FinishEffect(t: Storage, u: Storage, c: Call, r: Result)
    requires !Quiet(c)
  {
    var p := c.project;
    && WindowActive(t, p)
    && var w := t.windows[p];
    && t.config.minOracles <= |w.subs| && 1 <= |w.subs| <= BUFFER_LEN
    && ResultOf(t, p, w.subs, c.now, c.token) == Committed(r)
    && r.oracleCount == |w.subs| && r.project == p
    && u == t.(windows := t.windows[p := w.(phase := if c.CallSubmit? then w.phase else Finalized, finalized := true)],
               open := Without(t.open, p),
               history := Append(t.history, p, r, w.subs),
               marks := if c.CallSubmit? then t.marks else ClearReveals(t.marks, KeysOf(p, t.roster.list)))
  }

  lemma ConcludeEffect(t: Storage, project: ProjectId, w: Window, now: Now, token: TokenView) returns (r: Result)
    requires Conclude(t, project, w, now, token).Committed?
    ensures 1 <= |w.subs| <= BUFFER_LEN && r.oracleCount == |w.subs| && r.project == project
    ensures ResultOf(t, project, w.subs, now, token) == Committed(r)
    ensures Conclude(t, project, w, now, token).value
         == (t.(windows := t.windows[project := w.(finalized := true)], open := Without(t.open, project),
                history := Append(t.history, project, r, w.subs)), r)
  {
    r := Conclude(t, project, w, now, token).value.1;
  }

  ghost predicate Fewer(after: map<Key, Commitment>, before: map<Key, Commitment>) {
    forall k :: k in after ==> k in before && after[k] == before[k]
  }

  /** What is gone belonged to the project. */
  ghost predicate OnlyOf(project: ProjectId, after: map<Key, Commitment>, before: map<Key, Commitment>) {
    forall k :: k in before && k.0 != project ==> k in after
  }

  /** A penalty pass consumes commitments of the project and charges stakes,
  nothing else. */
  ghost predicate PassEffect(s: Storage, t: Storage, project: ProjectId) {
    && t == s.(marks := s.marks.(commitments := t.marks.commitments), book := t.book)
    && Fewer(t.marks.commitments, s.marks.commitments)
    && OnlyOf(project, t.marks.commitments, s.marks.commitments)
  }

  lemma {:induction false} PenalizeEachConsumes(p: Purse, cfg: OracleConfig, self: Address, revealed: set<Key>,
                                                project: ProjectId, oracles: seq<Address>, now: Now, permit: bool)
    requires PenalizeEach(p, cfg, self, revealed, project, oracles, now, permit).Committed?
    ensures
      var after := PenalizeEach(p, cfg, self, revealed, project, oracles, now, permit).value.commitments;
      Fewer(after, p.commitments) && OnlyOf(project, after, p.commitments)
    decreases |oracles|
  {
    if oracles != [] {
      var q := PenalizeOne(p, cfg, self, revealed, project, oracles[0], now, permit).value;
      PenalizeEachConsumes(q, cfg, self, revealed, project, oracles[1..], now, permit);
    }
  }

  lemma PenalizeEffect(s: System, env: Env, project: ProjectId, now: Now, permit: bool)
    requires Penalize(s, env, project, now, permit).Committed?
    ensures PassEffect(s.store, Penalize(s, env, project, now, permit).value.store, project)
  {
    PenalizeEachConsumes(Purse(s.store.marks.commitments, s.store.book, s.bank), s.store.config, env.self,
                         s.store.marks.revealed, project, s.store.roster.list, now, permit);
  }

  /** Any other call is a reading or a penalty pass that leads to `t`, followed,
  if that makes the quorum, by one finalization. */
  ghost predicate Via(s: Storage, t: Storage, u: Storage, c: Call, r: Option<Result>)
    requires !Quiet(c)
  {
    && (if c.CallFinalize? then
          && PassEffect(s, t, c.project)
          && WindowActive(s, c.project) && s.windows[c.project].phase.Reveal?
          && RevealCloses(s, s.windows[c.project]) < c.now.ledger
        else ReadEffect(s, t, c))
    && (if r.Some? then FinishEffect(t, u, c, r.value)
        else u == t && |t.windows[c.project].subs| < t.config.minOracles)
  }

  /** What a call may do to the storage. */
  ghost predicate Transition(s: Storage, u: Storage, c: Call) {
    || u == s
    || (if Quiet(c) then QuietEffect(s, u, c) else exists t, r :: Via(s, t, u, c, r))
  }

  lemma StepIsTransition(s: System, env: Env, c: Call)
    ensures Transition(s.store, Next(s, env, c).store, c)
  {
    if Step(s, env, c).Committed? {
      if Quiet(c) {
        QuietStepEffect(s, env, c);
      } else {
        var t, r := Anatomy(s, env, c);
      }
    }
  }

  lemma Anatomy(s: System, env: Env, c: Call) returns (t: Storage, r: Option<Result>)
    requires !Quiet(c) && Step(s, env, c).Committed?
    ensures Via(s.store, t, Next(s, env, c).store, c, r)
    ensures c.CallFinalize? ==>
              && Penalize(s, env, c.project, c.now, c.permit).Committed?
              && t == Penalize(s, env, c.project, c.now, c.permit).value.store
  {
    match c
    case CallSubmit(_, _, _, _, _, _) => t, r := SubmitAnatomy(s.store, env, c);
    case CallReveal(_, _, _, _, _) =>
      ReadingEffect(s.store, env, c);
      t := AcceptReveal(s.store, env, c.oracle, c.project, c.opening, c.now).value;
      r := FinalizeRevealsAnatomy(t, c);
    case CallFinalize(_, _, _, _) =>
      PenalizeEffect(s, env, c.project, c.now, c.permit);
      t := Penalize(s, env, c.project, c.now, c.permit).value.store;
      r := FinalizeRevealsAnatomy(t, c);
  }

  lemma SubmitAnatomy(s: Storage, env: Env, c: Call) returns (t: Storage, r: Option<Result>)
    requires c.CallSubmit? && SubmitReading(s, c.oracle, c.project, c.nonce, c.reading, c.now, c.token).Committed?
    ensures ReadEffect(s, t, c)
    ensures var u := SubmitReading(s, c.oracle, c.project, c.nonce, c.reading, c.now, c.token).value.0;
            if r.Some? then FinishEffect(t, u, c, r.value) else u == t && |t.windows[c.project].subs| < t.config.minOracles
  {
    ReadingEffect(s, env, c);
    t := AcceptDirect(s, c.oracle, c.project, c.nonce, c.reading, c.now).value;
    r := None;
    if |t.windows[c.project].subs| >= s.config.minOracles {
      var result := ConcludeEffect(t, c.project, t.windows[c.project], c.now, c.token);
      r := Some(result);
    }
  }

  lemma FinalizeRevealsAnatomy(t: Storage, c: Call) returns (r: Option<Result>)
    requires c.CallReveal? || c.CallFinalize?
    requires WindowActive(t, c.project) && FinalizeReveals(t, c.project, c.now, c.token).Committed?
    ensures var u := FinalizeReveals(t, c.project, c.now, c.token).value.0;
            if r.Some? then FinishEffect(t, u, c, r.value) else u == t && |t.windows[c.project].subs| < t.config.minOracles
  {
    r := None;
    if |t.windows[c.project].subs| >= t.config.minOracles {
      var w := t.windows[c.project].(phase := Finalized);
      var result := ConcludeEffect(t, c.project, w, c.now, c.token);
      r := Some(result);
    }
  }
}
