/** Who reported what: each oracle's readings in a window, and what becomes of
its commitments, over every run. */
module OracleAccountability {
  import opened Transactions
  import opened Sums
  import opened Lists
  import opened Banks
  import opened OracleData
  import opened OracleSpec
  import opened OracleSteps

  // ---- How often an oracle appears in a window ----

  function Appearances(subs: seq<Submission>, oracle: Address): nat {
    if subs == [] then 0
    else Appearances(subs[..|subs| - 1], oracle) + if subs[|subs| - 1].oracle == oracle then 1 else 0
  }

  lemma AppearancesPush(subs: seq<Submission>, sub: Submission, oracle: Address)
    ensures Appearances(subs + [sub], oracle) == Appearances(subs, oracle) + if sub.oracle == oracle then 1 else 0
  {
    assert (subs + [sub])[..|subs|] == subs;
  }

  /** The two paths leave different markers. */
  function MarkersOf(m: Markers, key: Key): nat {
    (if key in m.submitted then 1 else 0) + (if key in m.revealed then 1 else 0)
  }

  ghost predicate MarkedAt(s: Storage, p: ProjectId, o: Address)
    requires p in s.windows
  {
    Appearances(s.windows[p].subs, o) <= if s.windows[p].finalized then 2 else MarkersOf(s.marks, (p, o))
  }

  ghost predicate Marked(s: Storage) {
    forall p, o :: p in s.windows ==> MarkedAt(s, p, o)
  }

  lemma ReadingMarks(s: Storage, t: Storage, c: Call, o: Address)
    requires Marked(s) && (c.CallSubmit? || c.CallReveal?) && ReadEffect(s, t, c)
    ensures MarkedAt(t, c.project, o)
  {
    var w, key := WindowFor(s, c.project, c.now), (c.project, o);
    assert Appearances(w.subs, o) <= MarkersOf(s.marks, key) by {
      assert c.project in s.windows ==> MarkedAt(s, c.project, o);
    }
    AppearancesPush(w.subs, t.windows[c.project].subs[|w.subs|], o);
    assert MarkersOf(t.marks, key) == MarkersOf(s.marks, key) + if o == c.oracle then 1 else 0;
  }

  lemma ReadingStaysMarked(s: Storage, t: Storage, c: Call)
    requires Marked(s) && (c.CallSubmit? || c.CallReveal?) && ReadEffect(s, t, c)
    ensures Marked(t)
  {
    forall p, o | p in t.windows ensures MarkedAt(t, p, o) {
      if p == c.project {
        ReadingMarks(s, t, c, o);
      } else {
        assert MarkedAt(s, p, o);
      }
    }
  }

  lemma FinishStaysMarked(t: Storage, u: Storage, c: Call, r: Result)
    requires Marked(t) && !Quiet(c) && FinishEffect(t, u, c, r)
    ensures Marked(u)
  {
    forall p, o | p in u.windows ensures MarkedAt(u, p, o) {
      assert MarkedAt(t, p, o);
    }
  }

  lemma QuietStaysMarked(s: Storage, u: Storage, c: Call)
    requires Marked(s) && Quiet(c) && QuietEffect(s, u, c)
    ensures Marked(u)
  {
    forall p, o | p in u.windows ensures MarkedAt(u, p, o) {
      assert p in s.windows ==> MarkedAt(s, p, o);
    }
  }

  lemma PassStaysMarked(s: Storage, t: Storage, project: ProjectId)
    requires Marked(s) && PassEffect(s, t, project)
    ensures Marked(t)
  {
    forall p, o | p in t.windows ensures MarkedAt(t, p, o) {
      assert MarkedAt(s, p, o);
    }
  }

  lemma HeavyStaysMarked(s: Storage, t: Storage, u: Storage, c: Call, r: Option<Result>)
    requires Marked(s) && !Quiet(c) && Via(s, t, u, c, r)
    ensures Marked(u)
  {
    if c.CallFinalize? {
      PassStaysMarked(s, t, c.project);
    } else {
      ReadingStaysMarked(s, t, c);
    }
    if r.Some? {
      FinishStaysMarked(t, u, c, r.value);
    }
  }

  lemma TransitionStaysMarked(s: Storage, u: Storage, c: Call)
    requires Marked(s) && Transition(s, u, c)
    ensures Marked(u)
  {
    if u != s {
      if Quiet(c) {
        QuietStaysMarked(s, u, c);
      } else {
        var t, r :| Via(s, t, u, c, r);
        HeavyStaysMarked(s, t, u, c, r);
      }
    }
  }

  lemma {:induction false} RunStaysMarked(s: System, env: Env, calls: seq<Call>)
    requires Marked(s.store)
    ensures Marked(Run(s, env, calls).store)
  {
    if calls != [] {
      var before := Run(s, env, calls[..|calls| - 1]);
      RunStaysMarked(s, env, calls[..|calls| - 1]);
      StepIsTransition(before, env, calls[|calls| - 1]);
      TransitionStaysMarked(before.store, Run(s, env, calls).store, calls[|calls| - 1]);
    }
  }

  /** In every reachable state no oracle has more than two readings in a window. */
  lemma AtMostTwicePerWindow(env: Env, admin: Address, stakingToken: Address, treasury: Address, bank: Bank, calls: seq<Call>,
                             project: ProjectId, oracle: Address)
    ensures
      var s := Run(Deployed(admin, stakingToken, treasury, bank), env, calls).store;
      project in s.windows ==> Appearances(s.windows[project].subs, oracle) <= 2
  {
    RunStaysMarked(Deployed(admin, stakingToken, treasury, bank), env, calls);
    var s := Run(Deployed(admin, stakingToken, treasury, bank), env, calls).store;
    assert project in s.windows ==> MarkedAt(s, project, oracle);
  }

  // ---- What becomes of a commitment ----

  /** Commitments of `oracle` that are neither revealed nor penalized yet. */
  function Pending(commitments: map<Key, Commitment>, revealed: set<Key>, oracle: Address): set<Key> {
    set k | k in commitments && k.1 == oracle && k !in revealed
  }

  function PendingOf(s: Storage, oracle: Address): set<Key> {
    Pending(s.marks.commitments, s.marks.revealed, oracle)
  }

  /** Penalties received plus commitments that may still lead to one. */
  function Exposure(s: Storage, oracle: Address): nat {
    Counter(s.book.missed, oracle) + |PendingOf(s, oracle)|
  }

  /** A penalty turns one pending commitment into one missed reveal. */
  lemma PenalizeOneTrades(p: Purse, cfg: OracleConfig, self: Address, revealed: set<Key>, project: ProjectId,
                          one: Address, now: Now, permit: bool, oracle: Address)
    requires PenalizeOne(p, cfg, self, revealed, project, one, now, permit).Committed?
    ensures
      var q := PenalizeOne(p, cfg, self, revealed, project, one, now, permit).value;
      Counter(q.book.missed, oracle) + |Pending(q.commitments, revealed, oracle)|
      == Counter(p.book.missed, oracle) + |Pending(p.commitments, revealed, oracle)|
  {
    var q := PenalizeOne(p, cfg, self, revealed, project, one, now, permit).value;
    var before, after := Pending(p.commitments, revealed, oracle), Pending(q.commitments, revealed, oracle);
    if Delinquent(p, revealed, project, one) && one == oracle {
      assert after == before - {(project, one)} && (project, one) in before;
    } else {
      assert after == before;
    }
  }

  lemma {:induction false} PenalizeEachTrades(p: Purse, cfg: OracleConfig, self: Address, revealed: set<Key>, project: ProjectId,
                                              oracles: seq<Address>, now: Now, permit: bool, oracle: Address)
    requires PenalizeEach(p, cfg, self, revealed, project, oracles, now, permit).Committed?
    ensures
      var q := PenalizeEach(p, cfg, self, revealed, project, oracles, now, permit).value;
      Counter(q.book.missed, oracle) + |Pending(q.commitments, revealed, oracle)|
      == Counter(p.book.missed, oracle) + |Pending(p.commitments, revealed, oracle)|
    decreases |oracles|
  {
    if oracles != [] {
      var q := PenalizeOne(p, cfg, self, revealed, project, oracles[0], now, permit).value;
      PenalizeOneTrades(p, cfg, self, revealed, project, oracles[0], now, permit, oracle);
      PenalizeEachTrades(q, cfg, self, revealed, project, oracles[1..], now, permit, oracle);
    }
  }

  /** Finalizing drops whatever is still pending on the project, without penalty. */
  lemma FinishNeverExposes(t: Storage, u: Storage, c: Call, r: Result, oracle: Address)
    requires !Quiet(c) && FinishEffect(t, u, c, r)
    ensures Exposure(u, oracle) <= Exposure(t, oracle)
  {
    SubsetSize(PendingOf(u, oracle), PendingOf(t, oracle));
  }

  lemma QuietExposure(s: Storage, u: Storage, c: Call, oracle: Address)
    requires Quiet(c) && QuietEffect(s, u, c)
    ensures Exposure(u, oracle) <= Exposure(s, oracle) + if c.CallCommit? && c.oracle == oracle then 1 else 0
  {
    if c.CallCommit? && c.oracle == oracle {
      SubsetSize(PendingOf(u, oracle), PendingOf(s, oracle) + {(c.project, oracle)});
    } else {
      SubsetSize(PendingOf(u, oracle), PendingOf(s, oracle));
    }
  }

  lemma ReadingExposure(s: Storage, t: Storage, c: Call, oracle: Address)
    requires (c.CallSubmit? || c.CallReveal?) && ReadEffect(s, t, c)
    ensures Exposure(t, oracle) == Exposure(s, oracle) - if c.CallReveal? && c.oracle == oracle then 1 else 0
  {
    if c.CallReveal? && c.oracle == oracle {
      assert PendingOf(t, oracle) == PendingOf(s, oracle) - {(c.project, oracle)};
      assert (c.project, oracle) in PendingOf(s, oracle);
    } else {
      assert PendingOf(t, oracle) == PendingOf(s, oracle);
    }
  }

  predicate CommitsAs(s: System, env: Env, c: Call, oracle: Address) {
    c.CallCommit? && c.oracle == oracle && Step(s, env, c).Committed?
  }

  predicate RevealsAs(s: System, env: Env, c: Call, oracle: Address) {
    c.CallReveal? && c.oracle == oracle && Step(s, env, c).Committed?
  }

  /** Accepted commits, and accepted reveals, of `oracle` in a run. */
  function Commits(s: System, env: Env, calls: seq<Call>, oracle: Address): nat {
    if calls == [] then 0
    else
      Commits(s, env, calls[..|calls| - 1], oracle)
      + (if CommitsAs(Run(s, env, calls[..|calls| - 1]), env, calls[|calls| - 1], oracle) then 1 else 0)
  }

  function Reveals(s: System, env: Env, calls: seq<Call>, oracle: Address): nat {
    if calls == [] then 0
    else
      Reveals(s, env, calls[..|calls| - 1], oracle)
      + (if RevealsAs(Run(s, env, calls[..|calls| - 1]), env, calls[|calls| - 1], oracle) then 1 else 0)
  }

  lemma HeavyExposure(s: System, env: Env, c: Call, oracle: Address)
    requires !Quiet(c) && Step(s, env, c).Committed?
    ensures Exposure(Next(s, env, c).store, oracle) + (if c.CallReveal? && c.oracle == oracle then 1 else 0)
         <= Exposure(s.store, oracle)
  {
    var t, r := Anatomy(s, env, c);
    if c.CallFinalize? {
      PenalizeEachTrades(Purse(s.store.marks.commitments, s.store.book, s.bank), s.store.config, env.self,
                         s.store.marks.revealed, c.project, s.store.roster.list, c.now, c.permit, oracle);
    } else {
      ReadingExposure(s.store, t, c, oracle);
    }
    if r.Some? {
      FinishNeverExposes(t, Next(s, env, c).store, c, r.value, oracle);
    }
  }

  lemma StepExposure(s: System, env: Env, c: Call, oracle: Address)
    ensures Exposure(Next(s, env, c).store, oracle) + (if RevealsAs(s, env, c, oracle) then 1 else 0)
         <= Exposure(s.store, oracle) + if CommitsAs(s, env, c, oracle) then 1 else 0
  {
    if Step(s, env, c).Committed? {
      if Quiet(c) {
        QuietStepEffect(s, env, c);
        QuietExposure(s.store, Next(s, env, c).store, c, oracle);
      } else {
        HeavyExposure(s, env, c, oracle);
      }
    }
  }

  /** Every commitment is used up at most once: in every run, an oracle's accepted
  reveals, its penalties for missed reveals and the commitments it still has
  pending are together no more than the commits it made. */
  lemma {:induction false} CommitmentsAccountedFor(env: Env, admin: Address, stakingToken: Address, treasury: Address,
                                                   bank: Bank, calls: seq<Call>, oracle: Address)
    ensures
      var d := Deployed(admin, stakingToken, treasury, bank);
      var s := Run(d, env, calls).store;
      Reveals(d, env, calls, oracle) + Counter(s.book.missed, oracle) + |PendingOf(s, oracle)| <= Commits(d, env, calls, oracle)
  {
    if calls != [] {
      var d := Deployed(admin, stakingToken, treasury, bank);
      CommitmentsAccountedFor(env, admin, stakingToken, treasury, bank, calls[..|calls| - 1], oracle);
      StepExposure(Run(d, env, calls[..|calls| - 1]), env, calls[|calls| - 1], oracle);
    }
  }

  // ---- Nonces ----

  /** The call is an accepted direct submission or commit for that project. */
  predicate UsesNonce(s: System, env: Env, c: Call, project: ProjectId, oracle: Address) {
    (c.CallSubmit? || c.CallCommit?) && c.project == project && c.oracle == oracle && Step(s, env, c).Committed?
  }

  function NoncesUsed(s: System, env: Env, calls: seq<Call>, project: ProjectId, oracle: Address): nat {
    if calls == [] then 0
    else
      NoncesUsed(s, env, calls[..|calls| - 1], project, oracle)
      + (if UsesNonce(Run(s, env, calls[..|calls| - 1]), env, calls[|calls| - 1], project, oracle) then 1 else 0)
  }

  lemma HeavyNonce(s: System, env: Env, c: Call, project: ProjectId, oracle: Address)
    requires !Quiet(c) && Step(s, env, c).Committed?
    ensures
      var uses := c.CallSubmit? && c.project == project && c.oracle == oracle;
      && NonceOf(Next(s, env, c).store, project, oracle) == NonceOf(s.store, project, oracle) + (if uses then 1 else 0)
      && (uses ==> c.nonce == NonceOf(s.store, project, oracle) + 1)
  {
    var t, r := Anatomy(s, env, c);
    assert Next(s, env, c).store.nonces == t.nonces;
  }

  lemma StepNonce(s: System, env: Env, c: Call, project: ProjectId, oracle: Address)
    ensures NonceOf(Next(s, env, c).store, project, oracle)
         == NonceOf(s.store, project, oracle) + if UsesNonce(s, env, c, project, oracle) then 1 else 0
    ensures UsesNonce(s, env, c, project, oracle) ==> c.nonce == NonceOf(s.store, project, oracle) + 1
  {
    if Step(s, env, c).Committed? {
      if Quiet(c) {
        QuietStepEffect(s, env, c);
      } else {
        HeavyNonce(s, env, c, project, oracle);
      }
    }
  }

  /** The two paths share one sequence of nonces: the stored nonce of an oracle and
  project is the number of direct submissions and commits accepted so far, and
  the next one accepted must carry its successor. So no nonce is used twice, on
  either path, through resets, finalizations and changes of configuration. */
  lemma {:induction false} NoncesCountAcceptances(env: Env, admin: Address, stakingToken: Address, treasury: Address, bank: Bank,
                                                  calls: seq<Call>, c: Call, project: ProjectId, oracle: Address)
    ensures
      var d := Deployed(admin, stakingToken, treasury, bank);
      var s := Run(d, env, calls);
      && NonceOf(s.store, project, oracle) == NoncesUsed(d, env, calls, project, oracle)
      && (UsesNonce(s, env, c, project, oracle) ==> c.nonce == NoncesUsed(d, env, calls, project, oracle) + 1)
  {
    var d := Deployed(admin, stakingToken, treasury, bank);
    if calls != [] {
      var front, last := calls[..|calls| - 1], calls[|calls| - 1];
      NoncesCountAcceptances(env, admin, stakingToken, treasury, bank, front, last, project, oracle);
      StepNonce(Run(d, env, front), env, last, project, oracle);
    }
    StepNonce(Run(d, env, calls), env, c, project, oracle);
  }
}
