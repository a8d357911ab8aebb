/** The verification oracle contract, entry point by entry point. */
module VerificationOracle {
  import opened Numeric
  import opened Transactions
  import opened Sums
  import opened Lists
  import opened Banks
  import opened OracleData
  import opened CreditFormula
  import opened HonestMajority
  import opened Slashing
  import Spec = OracleSpec

  /** `bank` holds the balances of the token contracts the oracle pays through. */
  class Oracle {
    const env: Spec.Env
    var store: Spec.Storage
    var bank: Bank

    constructor (env: Spec.Env, admin: Address, stakingToken: Address, treasury: Address, bank: Bank)
      ensures this.env == env && store == Spec.Init(admin, stakingToken, treasury) && this.bank == bank
    {
      this.env, this.bank := env, bank;
      store := Spec.Init(admin, stakingToken, treasury);
    }

    ghost function System(): Spec.System
      reads this
    {
      Spec.System(store, bank)
    }

    method Rollback(savedStore: Spec.Storage, savedBank: Bank)
      modifies this
      ensures store == savedStore && bank == savedBank
    {
      store, bank := savedStore, savedBank;
    }

    method Transfer(token: Address, from: Address, to: Address, amount: int, permit: bool) returns (r: Txn<()>)
      modifies this`bank
      ensures Settled(r, Pay(old(bank), token, from, to, amount, permit), old(bank), bank)
    {
      if !permit {
        return Reverted;
      }
      :- Require(amount <= Holding(bank, token, from));
      bank := bank[(token, from) := Holding(bank, token, from) - amount];
      bank := bank[(token, to) := Holding(bank, token, to) + amount];
      r := Committed(());
    }

    // ---- Oracles and configuration ----

    method AddOracle(admin: Address, oracle: Address) returns (r: Txn<()>)
      modifies this`store
      ensures Settled(r, Spec.AddOracle(old(store), admin, oracle), old(store), store)
    {
      if admin != store.admin {
        return Reverted;
      }
      :- Require(oracle !in store.roster.active);
      var count := store.roster.count;
      if count >= store.config.maxOracles {
        return Reverted;
      }
      if store.config.minStake > 0 {
        :- Require(Spec.StakeOf(store.book, oracle).amount >= store.config.minStake);
      }
      store := store.(roster := store.roster.(active := store.roster.active + {oracle}, count := count + 1));
      store := store.(roster := store.roster.(list := store.roster.list + [oracle]));
      r := Committed(());
    }

    method OracleHasOpenSubmissions(oracle: Address) returns (found: bool)
      ensures found <==> Spec.HasOpenSubmissions(store, oracle)
    {
      for i := 0 to |store.open|
        invariant forall k :: 0 <= k < i ==>
                    (store.open[k], oracle) !in store.marks.commitments && (store.open[k], oracle) !in store.marks.revealed
      {
        var key := (store.open[i], oracle);
        if key in store.marks.commitments || key in store.marks.revealed {
          return true;
        }
      }
      found := false;
    }

    method RemoveOracle(admin: Address, oracle: Address) returns (r: Txn<()>)
      modifies this`store
      ensures Settled(r, Spec.RemoveOracle(old(store), admin, oracle), old(store), store)
    {
      if admin != store.admin {
        return Reverted;
      }
      :- Require(oracle in store.roster.active);
      var stake := Spec.StakeOf(store.book, oracle).amount;
      var belowMinimum := store.config.minStake > 0 && stake < store.config.minStake;
      if stake > 0 && !belowMinimum {
        return Reverted;
      }
      if store.roster.count <= store.config.minOracles {
        return Reverted;
      }
      var busy := OracleHasOpenSubmissions(oracle);
      :- Require(!busy);
      store := store.(roster := store.roster.(active := store.roster.active - {oracle}, count := store.roster.count - 1));
      var filtered := Remove(store.roster.list, oracle);
      store := store.(roster := store.roster.(list := filtered));
      r := Committed(());
    }

    method UpdateConfig(admin: Address, config: OracleConfig) returns (r: Txn<()>)
      modifies this`store
      ensures Settled(r, Spec.UpdateConfig(old(store), admin, config), old(store), store)
    {
      if admin != store.admin {
        return Reverted;
      }
      :- Require(config.slashPctBps <= 5000);
      if config.minSlash < 0 || config.maxSlash < config.minSlash {
        return Reverted;
      }
      :- Require(60 <= config.windowSecs <= 86_400);
      :- Require(config.minOracles != 0);
      :- Require(config.minOracles <= config.maxOracles);
      :- Require(config.maxOracles <= ORACLE_HARD_LIMIT);
      :- Require(config.minOracles <= store.roster.count);
      :- Require(config.maxOpenWindows != 0);
      :- Require(config.feeBps <= 10_000);
      store := store.(config := config);
      r := Committed(());
    }

    // ---- Windows ----

    method AddOpenProject(project: ProjectId, limit: nat) returns (r: Txn<()>)
      modifies this`store
      ensures var open := Spec.AddOpen(old(store).open, project, limit);
              if open.Committed? then r.Committed? && store == old(store).(open := open.value)
              else r.Reverted? && store == old(store)
    {
      for i := 0 to |store.open|
        invariant project !in store.open[..i]
      {
        if store.open[i] == project {
          return Committed(());
        }
      }
      if |store.open| >= limit {
        return Reverted;
      }
      store := store.(open := store.open + [project]);
      r := Committed(());
    }

    method RemoveOpenProject(project: ProjectId)
      modifies this`store
      ensures store == old(store).(open := Without(old(store).open, project))
    {
      var filtered := Remove(store.open, project);
      store := store.(open := filtered);
    }

    /** The window is stored before the list of open projects is found full. */
    method OpenWindow(admin: Address, project: ProjectId, now: Spec.Now) returns (r: Txn<()>)
      modifies this`store
      ensures Settled(r, Spec.OpenWindow(old(store), admin, project, now), old(store), store)
    {
      if admin != store.admin {
        return Reverted;
      }
      if project in store.windows && !store.windows[project].finalized {
        return Reverted;
      }
      var saved := store;
      store := store.(windows := store.windows[project := Spec.FreshWindow(now)]);
      r := AddOpenProject(project, store.config.maxOpenWindows);
      if r.Reverted? {
        store := saved;
      }
    }

    /** Removes markers one oracle at a time; `all` also removes the direct ones. */
    method ClearMarkers(project: ProjectId, oracles: seq<Address>, all: bool)
      modifies this`store
      ensures store == old(store).(marks :=
                if all then Spec.ClearAll(old(store).marks, Spec.KeysOf(project, oracles))
                else Spec.ClearReveals(old(store).marks, Spec.KeysOf(project, oracles)))
    {
      for i := 0 to |oracles|
        invariant store == old(store).(marks :=
                    if all then Spec.ClearAll(old(store).marks, Spec.KeysOf(project, oracles[..i]))
                    else Spec.ClearReveals(old(store).marks, Spec.KeysOf(project, oracles[..i])))
      {
        var key := (project, oracles[i]);
        KeysPush(project, oracles, i);
        ghost var m, keys := old(store).marks, Spec.KeysOf(project, oracles[..i]);
        store := store.(marks := store.marks.(commitments := store.marks.commitments - {key},
                                              revealed := store.marks.revealed - {key}));
        if all {
          store := store.(marks := store.marks.(submitted := store.marks.submitted - {key}));
        }
        assert m.commitments - keys - {key} == m.commitments - (keys + {key});
        assert m.revealed - keys - {key} == m.revealed - (keys + {key});
        assert m.submitted - keys - {key} == m.submitted - (keys + {key});
      }
      assert oracles[..|oracles|] == oracles;
    }

    method ResetWindow(admin: Address, project: ProjectId, now: Spec.Now) returns (r: Txn<()>)
      modifies this`store
      ensures Settled(r, Spec.ResetWindow(old(store), admin, project, now), old(store), store)
    {
      if admin != store.admin {
        return Reverted;
      }
      :- Require(project in store.windows);
      ghost var m := store.marks;
      var reporters := Spec.Reporters(store.windows[project].subs);
      ClearMarkers(project, reporters, true);
      ClearMarkers(project, store.roster.list, true);
      ghost var a, b := Spec.KeysOf(project, reporters), Spec.KeysOf(project, store.roster.list);
      assert m.commitments - a - b == m.commitments - (a + b);
      assert m.submitted - a - b == m.submitted - (a + b) && m.revealed - a - b == m.revealed - (a + b);
      store := store.(windows := store.windows[project := Spec.FreshWindow(now)]);
      r := Committed(());
    }

    // ---- Results ----

    method AppendResultHistory(project: ProjectId, result: Result)
      modifies this`store
      ensures store == old(store).(history := Spec.Append(old(store).history, project, result, []).(last := old(store).history.last))
    {
      var at := Counter(store.history.counts, project);
      store := store.(history := store.history.(results := store.history.results[(project, at) := result]));
      var summary := Summary(result.fin.total, result.minted, result.oracleCount, result.finalizedAt);
      store := store.(history := store.history.(summaries := store.history.summaries[(project, at) := summary]));
      store := store.(history := store.history.(counts := store.history.counts[project := at + 1]));
    }

    method RecordContributions(subs: seq<Submission>)
      modifies this`store
      ensures store == old(store).(history := old(store).history.(
                submitCount := Spec.Bump(old(store).history.submitCount, subs),
                finalizedCount := Spec.Bump(old(store).history.finalizedCount, subs)))
    {
      for i := 0 to |subs|
        invariant store == old(store).(history := old(store).history.(
                    submitCount := Spec.Bump(old(store).history.submitCount, subs[..i]),
                    finalizedCount := Spec.Bump(old(store).history.finalizedCount, subs[..i])))
      {
        var o, h := subs[i].oracle, store.history;
        assert subs[..i + 1][..i] == subs[..i];
        store := store.(history := h.(submitCount := h.submitCount[o := Counter(h.submitCount, o) + 1],
                                      finalizedCount := h.finalizedCount[o := Counter(h.finalizedCount, o) + 1]));
      }
      assert subs[..|subs|] == subs;
    }

    method MintCredits(t: Spec.TokenView, total: int) returns (r: Txn<(int, int)>)
      ensures r == Spec.MintShares(store.config.feeBps, t, total)
    {
      if total <= 0 {
        return Committed((0, 0));
      }
      var mintable := total;
      if t.maxSupply > 0 {
        var remaining := Wrap128(t.maxSupply - t.supply);
        mintable := if remaining <= 0 then 0 else Min(remaining, total);
      }
      if mintable <= 0 {
        return Committed((0, 0));
      }
      var fee := 0;
      if store.config.feeBps > 0 {
        var scaled :- Checked(mintable * store.config.feeBps);
        fee := TruncDiv(scaled, 10_000);
      }
      :- Require(t.accepts);
      r := Committed((mintable - fee, fee));
    }

    /** The medians, the formula and the mint: everything that can still fail. */
    method ComputeResult(project: ProjectId, subs: seq<Submission>, now: Spec.Now, token: Spec.TokenView) returns (r: Txn<Result>)
      ensures r == Spec.ResultOf(store, project, subs, now, token)
    {
      var pc := if project in store.projects then Some(store.projects[project]) else None;
      var fin :- Aggregate(store.config, ResolveBaselines(pc), subs);
      var shares: (int, int) := (0, 0);
      if project in store.projects {
        shares :- MintCredits(token, fin.total);
      }
      r := Committed(Result(project, fin, shares.0, shares.1, |subs|, now.timestamp));
    }

    method StoreResult(project: ProjectId, result: Result, subs: seq<Submission>)
      modifies this`store
      ensures store == old(store).(history := Spec.Append(old(store).history, project, result, subs))
    {
      store := store.(history := store.history.(last := store.history.last[project := result]));
      AppendResultHistory(project, result);
      RecordContributions(subs);
    }

    /** The part both submission paths share, from the medians to the list of open
    projects; it writes only after the mint has gone through. */
    method Conclude(project: ProjectId, w: Spec.Window, now: Spec.Now, token: Spec.TokenView) returns (r: Txn<Result>)
      modifies this`store
      ensures Answered(r, Spec.Conclude(old(store), project, w, now, token), old(store), store)
    {
      var result :- ComputeResult(project, w.subs, now, token);
      StoreResult(project, result, w.subs);
      store := store.(windows := store.windows[project := w.(finalized := true)]);
      RemoveOpenProject(project);
      r := Committed(result);
    }

    method GetResultHistory(project: ProjectId, offset: nat, limit: nat) returns (page: seq<Result>)
      ensures page == Spec.ResultPage(store.history, project, offset, limit)
    {
      var total := Counter(store.history.counts, project);
      var end := Min(Add64(offset, limit), total);
      page := [];
      var pos := offset;
      while pos < end
        invariant offset <= pos && (pos <= end || pos == offset)
        invariant page == Spec.Entries(store.history.results, project, offset, pos)
      {
        if (project, pos) in store.history.results {
          page := page + [store.history.results[(project, pos)]];
        }
        pos := pos + 1;
      }
    }

    method GetResultSummaries(project: ProjectId, offset: nat, limit: nat) returns (page: seq<Summary>)
      ensures page == Spec.SummaryPage(store.history, project, offset, limit)
    {
      var total := Counter(store.history.counts, project);
      var end := Min(Min(offset + limit, TWO_64 - 1), total);
      page := [];
      var pos := offset;
      while pos < end
        invariant offset <= pos && (pos <= end || pos == offset)
        invariant page == Spec.Entries(store.history.summaries, project, offset, pos)
      {
        if (project, pos) in store.history.summaries {
          page := page + [store.history.summaries[(project, pos)]];
        }
        pos := pos + 1;
      }
    }

    // ---- Direct submission ----

    /** Nonce and counter are written before the duplicate check. */
    method AcceptDirect(oracle: Address, project: ProjectId, nonce: nat, reading: Sample, now: Spec.Now) returns (r: Txn<()>)
      modifies this`store
      ensures Settled(r, Spec.AcceptDirect(old(store), oracle, project, nonce, reading, now), old(store), store)
    {
      if oracle !in store.roster.active {
        return Reverted;
      }
      if store.config.minStake > 0 {
        :- Require(Spec.StakeOf(store.book, oracle).amount >= store.config.minStake);
      }
      :- Require(reading.Plausible());
      var saved, key := store, (project, oracle);
      :- Require(nonce == Counter(store.nonces, key) + 1);
      store := store.(nonces := store.nonces[key := nonce]);
      store := store.(submissions := store.submissions + 1);
      if key in store.marks.submitted {
        store := saved;
        return Reverted;
      }
      var w := Spec.WindowFor(store, project, now);
      if w.finalized {
        store := saved;
        return Reverted;
      }
      r := AddOpenProject(project, store.config.maxOpenWindows);
      if r.Reverted? {
        store := saved;
        return Reverted;
      }
      FileSubmission(project, w, Submission(oracle, nonce, now.timestamp, reading));
    }

    method FileSubmission(project: ProjectId, w: Spec.Window, sub: Submission)
      modifies this`store
      ensures store == old(store).(windows := old(store).windows[project := w.(subs := w.subs + [sub])],
                                   marks := old(store).marks.(submitted := old(store).marks.submitted + {(project, sub.oracle)}))
    {
      store := store.(windows := store.windows[project := w.(subs := w.subs + [sub])]);
      store := store.(marks := store.marks.(submitted := store.marks.submitted + {(project, sub.oracle)}));
    }

    method SubmitReading(oracle: Address, project: ProjectId, nonce: nat, reading: Sample, now: Spec.Now, token: Spec.TokenView)
      returns (r: Txn<Option<Result>>)
      modifies this`store
      ensures Answered(r, Spec.SubmitReading(old(store), oracle, project, nonce, reading, now, token), old(store), store)
    {
      var saved := store;
      var _ :- AcceptDirect(oracle, project, nonce, reading, now);
      var w := store.windows[project];
      if |w.subs| >= store.config.minOracles {
        var done := Conclude(project, w, now, token);
        if done.Reverted? {
          store := saved;
          return Reverted;
        }
        return Committed(Some(done.value));
      }
      r := Committed(None);
    }

    // ---- Commit and reveal ----

    method CommitReading(oracle: Address, project: ProjectId, nonce: nat, digest: Digest) returns (r: Txn<()>)
      modifies this`store
      ensures Settled(r, Spec.CommitReading(old(store), oracle, project, nonce, digest), old(store), store)
    {
      if store.paused {
        return Reverted;
      }
      :- Require(oracle in store.roster.active);
      if store.config.minStake > 0 {
        :- Require(Spec.StakeOf(store.book, oracle).amount >= store.config.minStake);
      }
      var key := (project, oracle);
      :- Require(nonce == Counter(store.nonces, key) + 1);
      :- Require(project in store.windows);
      var w := store.windows[project];
      :- Require(!w.finalized);
      :- Require(w.phase.Commit?);
      :- Require(key !in store.marks.commitments);
      store := store.(nonces := store.nonces[key := nonce]);
      store := store.(marks := store.marks.(commitments := store.marks.commitments[key := Spec.Commitment(digest, nonce)]));
      r := Committed(());
    }

    method BeginRevealPhase(project: ProjectId, now: Spec.Now) returns (r: Txn<()>)
      modifies this`store
      ensures Settled(r, Spec.BeginReveal(old(store), project, now), old(store), store)
    {
      if project !in store.windows {
        return Reverted;
      }
      var w := store.windows[project];
      :- Require(!w.finalized);
      :- Require(w.phase.Commit?);
      if now.timestamp < Add64(w.openedAt, store.config.commitPhaseSecs) {
        return Reverted;
      }
      var hasCommit := false;
      for i := 0 to |store.roster.list|
        invariant !hasCommit
        invariant forall k :: 0 <= k < i ==> (project, store.roster.list[k]) !in store.marks.commitments
      {
        if (project, store.roster.list[i]) in store.marks.commitments {
          hasCommit := true;
          break;
        }
      }
      :- Require(hasCommit);
      store := store.(windows := store.windows[project := w.(phase := Spec.Reveal, revealLedger := now.ledger)]);
      r := Committed(());
    }

    method AcceptReveal(oracle: Address, project: ProjectId, p: Spec.Opening, now: Spec.Now) returns (r: Txn<()>)
      modifies this`store
      ensures Settled(r, Spec.AcceptReveal(old(store), env, oracle, project, p, now), old(store), store)
    {
      if store.paused {
        return Reverted;
      }
      :- Require(oracle in store.roster.active);
      if store.config.minStake > 0 {
        :- Require(Spec.StakeOf(store.book, oracle).amount >= store.config.minStake);
      }
      :- Require(project in store.windows);
      var w := store.windows[project];
      :- Require(!w.finalized);
      :- Require(w.phase.Reveal?);
      if now.ledger < Add32(w.revealLedger, store.config.minRevealLedgers) {
        return Reverted;
      }
      if now.ledger > Add32(w.revealLedger, store.config.maxRevealLedgers) {
        return Reverted;
      }
      var key := (project, oracle);
      :- Require(key in store.marks.commitments);
      var c := store.marks.commitments[key];
      :- Require(c.nonce == p.nonce);
      :- Require(key !in store.marks.revealed);
      :- Require(Spec.DigestOf(env, p) == c.digest);
      :- Require(p.reading.Plausible());
      store := store.(submissions := store.submissions + 1);
      w := w.(subs := w.subs + [Submission(oracle, p.nonce, now.timestamp, p.reading)]);
      store := store.(windows := store.windows[project := w]);
      store := store.(marks := store.marks.(revealed := store.marks.revealed + {key}));
      r := Committed(());
    }

    method FinalizeReveals(project: ProjectId, now: Spec.Now, token: Spec.TokenView) returns (r: Txn<Option<Result>>)
      requires project in store.windows
      modifies this`store
      ensures Answered(r, Spec.FinalizeReveals(old(store), project, now, token), old(store), store)
    {
      var w := store.windows[project];
      if w.finalized {
        return Committed(None);
      }
      if |w.subs| < store.config.minOracles {
        return Committed(None);
      }
      var result :- Conclude(project, w.(phase := Spec.Finalized), now, token);
      ClearMarkers(project, store.roster.list, false);
      r := Committed(Some(result));
    }

    method RevealReading(oracle: Address, project: ProjectId, p: Spec.Opening, now: Spec.Now, token: Spec.TokenView)
      returns (r: Txn<Option<Result>>)
      modifies this`store
      ensures Answered(r, Spec.RevealReading(old(store), env, oracle, project, p, now, token), old(store), store)
    {
      var saved := store;
      var _ :- AcceptReveal(oracle, project, p, now);
      if |store.windows[project].subs| >= store.config.minOracles {
        r := FinalizeReveals(project, now, token);
        if r.Reverted? {
          store := saved;
        }
      } else {
        r := Committed(None);
      }
    }

    // ---- Penalties ----

    ghost function PurseOf(): Spec.Purse
      reads this
    {
      Spec.Purse(store.marks.commitments, store.book, bank)
    }

    /** Charges every listed oracle that committed and did not reveal. */
    method PenalizeNonRevealers(project: ProjectId, now: Spec.Now, permit: bool) returns (r: Txn<()>)
      modifies this
      ensures Settled(r, Spec.Penalize(old(System()), env, project, now, permit), old(System()), System())
    {
      var savedStore, savedBank := store, bank;
      var oracles, config := store.roster.list, store.config;
      ghost var revealed := store.marks.revealed;
      for i := 0 to |oracles|
        invariant store == savedStore.(marks := savedStore.marks.(commitments := store.marks.commitments), book := store.book)
        invariant Spec.PenalizeEach(PurseOf(), config, env.self, revealed, project, oracles[i..], now, permit)
               == Spec.PenalizeEach(old(PurseOf()), config, env.self, revealed, project, oracles, now, permit)
      {
        assert oracles[i..][1..] == oracles[i + 1..];
        var one := PenalizeOracle(project, oracles[i], now, permit);
        if one.Reverted? {
          store, bank := savedStore, savedBank;
          return Reverted;
        }
      }
      r := Committed(());
    }

    method PenalizeOracle(project: ProjectId, oracle: Address, now: Spec.Now, permit: bool) returns (r: Txn<()>)
      modifies this
      ensures
        var spec := Spec.PenalizeOne(old(PurseOf()), store.config, env.self, store.marks.revealed, project, oracle, now, permit);
        r.Committed? <==> spec.Committed?
      ensures
        var spec := Spec.PenalizeOne(old(PurseOf()), store.config, env.self, store.marks.revealed, project, oracle, now, permit);
        r.Committed? ==> PurseOf() == spec.value
      ensures store == old(store).(marks := old(store).marks.(commitments := store.marks.commitments), book := store.book)
    {
      var key := (project, oracle);
      if key !in store.marks.commitments || key in store.marks.revealed {
        return Committed(());
      }
      store := store.(book := store.book.(missed := store.book.missed[oracle := Counter(store.book.missed, oracle) + 1]));
      var _ :- CutStake(oracle, now, permit);
      store := store.(marks := store.marks.(commitments := store.marks.commitments - {key}));
      r := Committed(());
    }

    /** Takes the proportional cut, if it is positive, and sends it to the treasury. */
    method CutStake(oracle: Address, now: Spec.Now, permit: bool) returns (r: Txn<()>)
      modifies this
      ensures
        var stake, cfg := Spec.StakeOf(old(store).book, oracle), store.config;
        var cut := ComputeSlashAmount(stake.amount, cfg);
        var paid := if cut.Committed? then PayIfPositive(old(bank), cfg.stakingToken, env.self, cfg.treasury, cut.value, permit) else Reverted;
        && store == old(store).(book := store.book)
        && (r.Committed? <==> paid.Committed?)
        && (r.Committed? ==>
              && bank == paid.value
              && store.book == if cut.value > 0
                               then old(store).book.(stakes := old(store).book.stakes[oracle := stake.(amount := stake.amount - cut.value)],
                                                     slashes := old(store).book.slashes[oracle := Spec.SlashRecord(3, now.timestamp)])
                               else old(store).book)
    {
      var stake := Spec.StakeOf(store.book, oracle);
      if stake.amount > 0 {
        var cut :- ComputeSlashAmount(stake.amount, store.config);
        if cut > 0 {
          store := store.(book := store.book.(stakes := store.book.stakes[oracle := stake.(amount := stake.amount - cut)]));
          var _ :- Transfer(store.config.stakingToken, env.self, store.config.treasury, cut, permit);
          store := store.(book := store.book.(slashes := store.book.slashes[oracle := Spec.SlashRecord(3, now.timestamp)]));
        }
      }
      r := Committed(());
    }

    method FinalizeWindow(project: ProjectId, now: Spec.Now, token: Spec.TokenView, permit: bool) returns (r: Txn<Option<Result>>)
      modifies this
      ensures Answered(r, Spec.FinalizeWindow(old(System()), env, project, now, token, permit), old(System()), System())
    {
      if store.paused {
        return Reverted;
      }
      :- Require(project in store.windows);
      var w := store.windows[project];
      :- Require(!w.finalized);
      :- Require(w.phase.Reveal?);
      if now.ledger <= Add32(w.revealLedger, store.config.maxRevealLedgers) {
        return Reverted;
      }
      var savedStore, savedBank := store, bank;
      var _ :- PenalizeNonRevealers(project, now, permit);
      r := FinalizeReveals(project, now, token);
      if r.Reverted? {
        store, bank := savedStore, savedBank;
      }
    }

    // ---- Stakes ----

    method AddStake(oracle: Address, amount: int, permit: bool) returns (r: Txn<()>)
      modifies this
      ensures Settled(r, Spec.AddStake(old(System()), env, oracle, amount, permit), old(System()), System())
    {
      if amount <= 0 {
        return Reverted;
      }
      var _ :- Transfer(store.config.stakingToken, oracle, env.self, amount, permit);
      var stake := Spec.StakeOf(store.book, oracle);
      stake := stake.(amount := Wrap128(stake.amount + amount));
      stake := stake.(unstakeAt := None);
      store := Spec.WithStake(store, oracle, stake);
      r := Committed(());
    }

    method Unstake(oracle: Address, amount: int, now: Spec.Now) returns (r: Txn<()>)
      modifies this`store
      ensures Settled(r, Spec.Unstake(old(store), oracle, amount, now), old(store), store)
    {
      if amount <= 0 {
        return Reverted;
      }
      var stake := Spec.StakeOf(store.book, oracle);
      :- Require(amount <= stake.amount);
      if oracle in store.roster.active {
        :- Require(stake.amount - amount >= store.config.minStake);
      }
      stake := stake.(amount := stake.amount - amount);
      stake := stake.(unstakeAt := Some(Add64(now.timestamp, store.config.unstakeCooldown)));
      store := Spec.WithStake(store, oracle, stake);
      r := Committed(());
    }

    method ClaimUnstake(oracle: Address, now: Spec.Now, permit: bool) returns (r: Txn<()>)
      modifies this
      ensures Settled(r, Spec.ClaimUnstake(old(System()), env, oracle, now, permit), old(System()), System())
    {
      var stake := Spec.StakeOf(store.book, oracle);
      var cooldownEnd := if stake.unstakeAt.Some? then stake.unstakeAt.value else 0;
      if cooldownEnd == 0 || now.timestamp < cooldownEnd {
        return Reverted;
      }
      var saved := store;
      store := Spec.WithStake(store, oracle, Spec.Stake(0, None));
      r := Transfer(store.config.stakingToken, env.self, oracle, stake.amount, permit);
      if r.Reverted? {
        store := saved;
      }
    }

    method SlashStake(caller: Address, oracle: Address, amount: int, reason: nat, now: Spec.Now, permit: bool) returns (r: Txn<()>)
      modifies this
      ensures Settled(r, Spec.Slash(old(System()), env, caller, oracle, amount, reason, now, permit), old(System()), System())
    {
      if caller != store.admin {
        return Reverted;
      }
      :- Require(amount > 0);
      var stake := Spec.StakeOf(store.book, oracle);
      :- Require(amount <= stake.amount);
      var saved := store;
      store := Spec.WithStake(store, oracle, stake.(amount := stake.amount - amount));
      r := Transfer(store.config.stakingToken, env.self, store.config.treasury, amount, permit);
      if r.Reverted? {
        store := saved;
        return Reverted;
      }
      store := store.(book := store.book.(slashes := store.book.slashes[oracle := Spec.SlashRecord(reason, now.timestamp)]));
    }
  }

  lemma KeysPush(project: ProjectId, oracles: seq<Address>, i: nat)
    requires i < |oracles|
    ensures Spec.KeysOf(project, oracles[..i + 1]) == Spec.KeysOf(project, oracles[..i]) + {(project, oracles[i])}
  {
    assert oracles[..i + 1] == oracles[..i] + [oracles[i]];
  }
}
