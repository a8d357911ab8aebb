/** Where the staked tokens are: what the oracle contract holds against what it
owes its oracles, over every run. */
module OracleStakes {
  import opened Numeric
  import opened Transactions
  import opened Sums
  import opened Banks
  import opened OracleData
  import opened Slashing
  import opened OracleSpec
  import opened OracleSteps

  function Amounts(stakes: map<Address, Stake>): map<Address, int> {
    map o | o in stakes :: stakes[o].amount
  }

  /** The sum of all recorded stakes. */
  ghost function Staked(b: StakeBook): int {
    Total(Amounts(b.stakes))
  }

  ghost predicate StakesNonNegative(b: StakeBook) {
    forall o :: o in b.stakes ==> 0 <= b.stakes[o].amount
  }

  lemma StakedUpdate(b: StakeBook, c: StakeBook, oracle: Address, stake: Stake)
    requires c.stakes == b.stakes[oracle := stake]
    ensures Staked(c) == Staked(b) - StakeOf(b, oracle).amount + stake.amount
  {
    assert Amounts(c.stakes) == Amounts(b.stakes)[oracle := stake.amount];
    TotalUpdate(Amounts(b.stakes), oracle, stake.amount);
  }

  lemma StakeWithinTotal(b: StakeBook, oracle: Address)
    requires StakesNonNegative(b)
    ensures 0 <= StakeOf(b, oracle).amount <= Staked(b)
  {
    TotalAtLeast(Amounts(b.stakes), oracle);
  }

  // ---- The invariant ----

  /** What the contract holds beyond the recorded stakes. */
  ghost function Surplus(s: System, env: Env, token: Address): int {
    Holding(s.bank, token, env.self) - Staked(s.store.book)
  }

  /** `token` is the staking token, of which no more than an `i128` exists; the
  treasury is not the contract itself; and all stakes are covered. */
  ghost predicate Covered(s: System, env: Env, token: Address) {
    && s.store.config.Valid()
    && s.store.config.stakingToken == token && s.store.config.treasury != env.self
    && NoDebts(s.bank) && Supply(s.bank, token) <= I128_MAX
    && StakesNonNegative(s.store.book)
    && 0 <= Surplus(s, env, token)
  }

  /** The contract never acts as a staker or sends of its own accord, and neither
  staking token nor treasury are turned against it. */
  predicate Ordinary(c: Call, env: Env, token: Address) {
    match c
    case CallUpdateConfig(_, config) => config.stakingToken == token && config.treasury != env.self
    case CallStake(oracle, _, _) => oracle != env.self
    case CallClaim(oracle, _, _) => oracle != env.self
    case CallTransfer(_, from, _, _) => from != env.self
    case _ => true
  }

  /** What the call leaves behind in the contract: the requested part of an
  `unstake`, and gifts. */
  function LeftBehind(s: System, env: Env, c: Call, token: Address): int {
    if Step(s, env, c).Reverted? then 0
    else match c
         case CallUnstake(_, amount, _) => amount
         case CallTransfer(payment, _, to, amount) => if payment == token && to == env.self then Max(amount, 0) else 0
         case _ => 0
  }

  // ---- Penalties ----

  /** The book and the bank, as far as the staking token is concerned. */
  ghost predicate PurseCovered(p: Purse, self: Address, token: Address, surplus: int) {
    && NoDebts(p.bank) && Supply(p.bank, token) <= I128_MAX
    && StakesNonNegative(p.book)
    && Holding(p.bank, token, self) - Staked(p.book) == surplus
  }

  /** Whatever a penalty takes from a stake arrives at the treasury. */
  lemma PenalizeOneMoves(p: Purse, cfg: OracleConfig, self: Address, revealed: set<Key>, project: ProjectId,
                         oracle: Address, now: Now, permit: bool, surplus: int)
    requires cfg.Valid() && cfg.treasury != self && PurseCovered(p, self, cfg.stakingToken, surplus)
    requires PenalizeOne(p, cfg, self, revealed, project, oracle, now, permit).Committed?
    ensures
      var q := PenalizeOne(p, cfg, self, revealed, project, oracle, now, permit).value;
      && PurseCovered(q, self, cfg.stakingToken, surplus) && Staked(q.book) <= Staked(p.book)
      && Staked(q.book) + Holding(q.bank, cfg.stakingToken, cfg.treasury)
         == Staked(p.book) + Holding(p.bank, cfg.stakingToken, cfg.treasury)
  {
    if Delinquent(p, revealed, project, oracle) {
      var q := PenalizeOne(p, cfg, self, revealed, project, oracle, now, permit).value;
      var stake, t := StakeOf(p.book, oracle), cfg.stakingToken;
      StakeWithinTotal(p.book, oracle);
      SlashWithinStake(stake.amount, cfg);
      var cut := ComputeSlashAmount(stake.amount, cfg).value;
      PayEffect(p.bank, t, self, cfg.treasury, cut, permit, t, self);
      PayEffect(p.bank, t, self, cfg.treasury, cut, permit, t, cfg.treasury);
      PayConserves(p.bank, t, self, cfg.treasury, cut, permit, t);
      if cut > 0 {
        StakedUpdate(p.book, q.book, oracle, stake.(amount := stake.amount - cut));
      }
    }
  }

  lemma {:induction false} PenalizeEachMoves(p: Purse, cfg: OracleConfig, self: Address, revealed: set<Key>, project: ProjectId,
                                             oracles: seq<Address>, now: Now, permit: bool, surplus: int)
    requires cfg.Valid() && cfg.treasury != self && PurseCovered(p, self, cfg.stakingToken, surplus)
    requires PenalizeEach(p, cfg, self, revealed, project, oracles, now, permit).Committed?
    ensures
      var q := PenalizeEach(p, cfg, self, revealed, project, oracles, now, permit).value;
      && PurseCovered(q, self, cfg.stakingToken, surplus)
      && Staked(q.book) + Holding(q.bank, cfg.stakingToken, cfg.treasury)
         == Staked(p.book) + Holding(p.bank, cfg.stakingToken, cfg.treasury)
    decreases |oracles|
  {
    if oracles != [] {
      var q := PenalizeOne(p, cfg, self, revealed, project, oracles[0], now, permit).value;
      PenalizeOneMoves(p, cfg, self, revealed, project, oracles[0], now, permit, surplus);
      PenalizeEachMoves(q, cfg, self, revealed, project, oracles[1..], now, permit, surplus);
    }
  }

  /** With stakes covered and no overflow, no penalty fails for lack of tokens. */
  lemma {:induction false} PassGoesThrough(p: Purse, cfg: OracleConfig, self: Address, revealed: set<Key>, project: ProjectId,
                                           oracles: seq<Address>, now: Now, surplus: nat)
    requires cfg.Valid() && cfg.treasury != self && PurseCovered(p, self, cfg.stakingToken, surplus)
    requires IsI128(Staked(p.book) * cfg.slashPctBps)
    ensures PenalizeEach(p, cfg, self, revealed, project, oracles, now, true).Committed?
    decreases |oracles|
  {
    if oracles != [] {
      var stake := StakeOf(p.book, oracles[0]).amount;
      StakeWithinTotal(p.book, oracles[0]);
      MulMono2(0, stake, 0, cfg.slashPctBps);
      MulMono(stake, Staked(p.book), cfg.slashPctBps);
      SlashWithinStake(stake, cfg);
      var q := PenalizeOne(p, cfg, self, revealed, project, oracles[0], now, true).value;
      PenalizeOneMoves(p, cfg, self, revealed, project, oracles[0], now, true, surplus);
      StakeWithinTotal(q.book, oracles[0]);
      MulMono2(0, Staked(q.book), 0, cfg.slashPctBps);
      MulMono(Staked(q.book), Staked(p.book), cfg.slashPctBps);
      PassGoesThrough(q, cfg, self, revealed, project, oracles[1..], now, surplus);
    }
  }

  lemma FinalizeKeepsCover(s: System, env: Env, c: Call, token: Address)
    requires Covered(s, env, token) && c.CallFinalize? && Step(s, env, c).Committed?
    ensures Covered(Next(s, env, c), env, token)
    ensures Surplus(Next(s, env, c), env, token) == Surplus(s, env, token)
    ensures Staked(Next(s, env, c).store.book) + Holding(Next(s, env, c).bank, token, s.store.config.treasury)
         == Staked(s.store.book) + Holding(s.bank, token, s.store.config.treasury)
  {
    var t, r := Anatomy(s, env, c);
    PenalizeEachMoves(Purse(s.store.marks.commitments, s.store.book, s.bank), s.store.config, env.self,
                      s.store.marks.revealed, c.project, s.store.roster.list, c.now, c.permit, Surplus(s, env, token));
  }

  // ---- The other calls that move stakes ----

  lemma StakeKeepsCover(s: System, env: Env, c: Call, token: Address)
    requires Covered(s, env, token) && c.CallStake? && Ordinary(c, env, token) && Step(s, env, c).Committed?
    ensures Covered(Next(s, env, c), env, token)
    ensures Surplus(Next(s, env, c), env, token) == Surplus(s, env, token)
  {
    var u, stake := Next(s, env, c), StakeOf(s.store.book, c.oracle).amount;
    PayEffect(s.bank, token, c.oracle, env.self, c.amount, c.permit, token, env.self);
    PayConserves(s.bank, token, c.oracle, env.self, c.amount, c.permit, token);
    StakeWithinTotal(s.store.book, c.oracle);
    HoldingWithinSupply(u.bank, token, env.self);
    WrapInRange(stake + c.amount);
    StakedUpdate(s.store.book, u.store.book, c.oracle, Stake(stake + c.amount, None));
  }

  lemma UnstakeKeepsCover(s: System, env: Env, c: Call, token: Address)
    requires Covered(s, env, token) && c.CallUnstake? && Step(s, env, c).Committed?
    ensures Covered(Next(s, env, c), env, token)
    ensures Surplus(Next(s, env, c), env, token) == Surplus(s, env, token) + c.amount
  {
    var u := Next(s, env, c);
    StakedUpdate(s.store.book, u.store.book, c.oracle, u.store.book.stakes[c.oracle]);
  }

  lemma ClaimKeepsCover(s: System, env: Env, c: Call, token: Address)
    requires Covered(s, env, token) && c.CallClaim? && Ordinary(c, env, token) && Step(s, env, c).Committed?
    ensures Covered(Next(s, env, c), env, token)
    ensures Surplus(Next(s, env, c), env, token) == Surplus(s, env, token)
  {
    var u, stake := Next(s, env, c), StakeOf(s.store.book, c.oracle).amount;
    StakeWithinTotal(s.store.book, c.oracle);
    HoldingWithinSupply(s.bank, token, c.oracle);
    PayNothing(s.bank, token, env.self, c.oracle, c.permit, token, env.self);
    PayEffect(s.bank, token, env.self, c.oracle, stake, c.permit, token, env.self);
    PayConserves(s.bank, token, env.self, c.oracle, stake, c.permit, token);
    StakedUpdate(s.store.book, u.store.book, c.oracle, Stake(0, None));
  }

  /** A transfer of nothing may still be carried out. */
  lemma PayNothing(bank: Bank, token: Address, from: Address, to: Address, permit: bool, k: Address, who: Address)
    requires Pay(bank, token, from, to, 0, permit).Committed? && NoDebts(bank)
    ensures
      var after := Pay(bank, token, from, to, 0, permit).value;
      NoDebts(after) && Supply(after, k) == Supply(bank, k) && Holding(after, k, who) == Holding(bank, k, who)
  {
    var debited := bank[(token, from) := Holding(bank, token, from)];
    SupplyUpdate(bank, (token, from), Holding(bank, token, from), k);
    SupplyUpdate(debited, (token, to), Holding(debited, token, to), k);
  }

  lemma SlashKeepsCover(s: System, env: Env, c: Call, token: Address)
    requires Covered(s, env, token) && c.CallSlash? && Step(s, env, c).Committed?
    ensures Covered(Next(s, env, c), env, token)
    ensures Surplus(Next(s, env, c), env, token) == Surplus(s, env, token)
    ensures Holding(Next(s, env, c).bank, token, s.store.config.treasury)
         == Holding(s.bank, token, s.store.config.treasury) + c.amount
  {
    var u, treasury := Next(s, env, c), s.store.config.treasury;
    PayEffect(s.bank, token, env.self, treasury, c.amount, c.permit, token, env.self);
    PayEffect(s.bank, token, env.self, treasury, c.amount, c.permit, token, treasury);
    PayConserves(s.bank, token, env.self, treasury, c.amount, c.permit, token);
    StakedUpdate(s.store.book, u.store.book, c.oracle, u.store.book.stakes[c.oracle]);
  }

  lemma TransferKeepsCover(s: System, env: Env, c: Call, token: Address)
    requires Covered(s, env, token) && c.CallTransfer? && Ordinary(c, env, token) && Step(s, env, c).Committed?
    ensures Covered(Next(s, env, c), env, token)
    ensures Surplus(Next(s, env, c), env, token) == Surplus(s, env, token) + LeftBehind(s, env, c, token)
  {
    if c.amount > 0 {
      PayEffect(s.bank, c.payment, c.from, c.to, c.amount, true, token, env.self);
      PayConserves(s.bank, c.payment, c.from, c.to, c.amount, true, token);
    }
  }

  predicate MovesStake(c: Call) {
    c.CallStake? || c.CallUnstake? || c.CallClaim? || c.CallSlash? || c.CallFinalize? || c.CallTransfer?
  }

  lemma OtherTransition(s: Storage, u: Storage, c: Call, env: Env, token: Address)
    requires Transition(s, u, c) && !MovesStake(c) && Ordinary(c, env, token)
    requires s.config.Valid() && s.config.stakingToken == token && s.config.treasury != env.self
    ensures u.book == s.book && u.config.Valid() && u.config.stakingToken == token && u.config.treasury != env.self
  {
    if u != s && !Quiet(c) {
      var t, r :| Via(s, t, u, c, r);
    }
  }

  lemma OtherKeepsCover(s: System, env: Env, c: Call, token: Address)
    requires Covered(s, env, token) && !MovesStake(c) && Ordinary(c, env, token)
    ensures Covered(Next(s, env, c), env, token)
    ensures Surplus(Next(s, env, c), env, token) == Surplus(s, env, token)
  {
    StepIsTransition(s, env, c);
    OtherTransition(s.store, Next(s, env, c).store, c, env, token);
    assert Next(s, env, c).bank == s.bank;
  }

  // ---- Every run ----

  lemma StepKeepsCover(s: System, env: Env, c: Call, token: Address)
    requires Covered(s, env, token) && Ordinary(c, env, token)
    ensures Covered(Next(s, env, c), env, token)
    ensures Surplus(Next(s, env, c), env, token) == Surplus(s, env, token) + LeftBehind(s, env, c, token)
  {
    if !MovesStake(c) {
      OtherKeepsCover(s, env, c, token);
    } else if Step(s, env, c).Committed? {
      match c
      case CallStake(_, _, _) => StakeKeepsCover(s, env, c, token);
      case CallUnstake(_, _, _) => UnstakeKeepsCover(s, env, c, token);
      case CallClaim(_, _, _) => ClaimKeepsCover(s, env, c, token);
      case CallSlash(_, _, _, _, _, _) => SlashKeepsCover(s, env, c, token);
      case CallFinalize(_, _, _, _) => FinalizeKeepsCover(s, env, c, token);
      case CallTransfer(_, _, _, _) => TransferKeepsCover(s, env, c, token);
    }
  }

  function LeftInRun(s: System, env: Env, calls: seq<Call>, token: Address): int {
    if calls == [] then 0
    else
      LeftInRun(s, env, calls[..|calls| - 1], token)
      + LeftBehind(Run(s, env, calls[..|calls| - 1]), env, calls[|calls| - 1], token)
  }

  /** In every run the contract holds exactly its recorded stakes, what it held
  beyond them at the start, every amount ever requested through `unstake`, and
  gifts: stakes are always covered, and requested amounts never leave. */
  lemma {:induction false} StakesAreCovered(s: System, env: Env, calls: seq<Call>, token: Address)
    requires Covered(s, env, token)
    requires forall i :: 0 <= i < |calls| ==> Ordinary(calls[i], env, token)
    ensures Covered(Run(s, env, calls), env, token)
    ensures Holding(Run(s, env, calls).bank, token, env.self)
         == Staked(Run(s, env, calls).store.book) + Surplus(s, env, token) + LeftInRun(s, env, calls, token)
  {
    if calls != [] {
      StakesAreCovered(s, env, calls[..|calls| - 1], token);
      StepKeepsCover(Run(s, env, calls[..|calls| - 1]), env, calls[|calls| - 1], token);
    }
  }

  /** A new deployment is covered. */
  lemma DeploymentIsCovered(env: Env, admin: Address, token: Address, treasury: Address, bank: Bank)
    requires treasury != env.self && NoDebts(bank) && Supply(bank, token) <= I128_MAX
    ensures Covered(Deployed(admin, token, treasury, bank), env, token)
    ensures Surplus(Deployed(admin, token, treasury, bank), env, token) == Holding(bank, token, env.self)
  {
    assert Amounts(map[]) == map[];
    HoldingWithinSupply(bank, token, env.self);
  }

  /** Nor does a claim: one whose time has come is always paid. */
  lemma ClaimIsAlwaysPaid(s: System, env: Env, oracle: Address, now: Now, token: Address)
    requires Covered(s, env, token)
    ensures
      var stake := StakeOf(s.store.book, oracle);
      ClaimUnstake(s, env, oracle, now, true).Committed?
      <==> stake.unstakeAt.Some? && 0 < stake.unstakeAt.value <= now.timestamp
  {
    StakeWithinTotal(s.store.book, oracle);
  }

  lemma ClaimPaysStake(s: System, env: Env, oracle: Address, now: Now, token: Address)
    requires Covered(s, env, token) && oracle != env.self && ClaimUnstake(s, env, oracle, now, true).Committed?
    ensures Holding(ClaimUnstake(s, env, oracle, now, true).value.bank, token, oracle)
         == Holding(s.bank, token, oracle) + StakeOf(s.store.book, oracle).amount
  {
    var stake := StakeOf(s.store.book, oracle).amount;
    StakeWithinTotal(s.store.book, oracle);
    if stake == 0 {
      PayNothing(s.bank, token, env.self, oracle, true, token, oracle);
    } else {
      PayEffect(s.bank, token, env.self, oracle, stake, true, token, oracle);
    }
  }

  /** A claim after an `unstake` goes through exactly when the stored end of the
  cooldown has come. It pays the stake that was left, and what had been requested
  stays with the contract for good: the oracle gets the amount it asked for
  exactly if that was half of its stake. */
  lemma UnstakeThenClaimPaysTheRest(s: System, env: Env, oracle: Address, amount: int, asked: Now, claimed: Now, token: Address)
    requires Covered(s, env, token) && oracle != env.self
    requires Unstake(s.store, oracle, amount, asked).Committed?
    ensures
      var t := System(Unstake(s.store, oracle, amount, asked).value, s.bank);
      var r, stake := ClaimUnstake(t, env, oracle, claimed, true), StakeOf(s.store.book, oracle).amount;
      && (r.Committed? <==> 0 < Add64(asked.timestamp, s.store.config.unstakeCooldown) <= claimed.timestamp)
      && (r.Committed? ==>
            var paid := Holding(r.value.bank, token, oracle) - Holding(s.bank, token, oracle);
            && paid == stake - amount
            && (paid == amount <==> stake == 2 * amount)
            && Surplus(r.value, env, token) == Surplus(s, env, token) + amount
            && StakeOf(r.value.store.book, oracle) == Stake(0, None))
  {
    var t := Next(s, env, CallUnstake(oracle, amount, asked));
    UnstakeKeepsCover(s, env, CallUnstake(oracle, amount, asked), token);
    ClaimIsAlwaysPaid(t, env, oracle, claimed, token);
    var c := CallClaim(oracle, claimed, true);
    if Step(t, env, c).Committed? {
      ClaimKeepsCover(t, env, c, token);
      ClaimPaysStake(t, env, oracle, claimed, token);
    }
  }
}
