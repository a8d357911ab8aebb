/** How long an oracle waits for its stake: claims traced back to the `unstake`
they follow. */
module OracleCooldown {
  import opened Numeric
  import opened Transactions
  import opened Banks
  import opened OracleData
  import opened OracleSpec
  import opened OracleSteps
  import opened OracleStakes

  /** An `unstake`: its time, and the cooldown configured then. */
  datatype Ask = Ask(at: nat, cooldown: nat)

  /** The request that a call leaves open for the oracle. */
  function NextAsk(s: System, env: Env, c: Call, oracle: Address, was: Option<Ask>): Option<Ask> {
    if Step(s, env, c).Reverted? then was
    else if c.CallUnstake? && c.oracle == oracle then Some(Ask(c.now.timestamp, s.store.config.unstakeCooldown))
    else if (c.CallStake? || c.CallClaim?) && c.oracle == oracle then None
    else was
  }

  /** The oracle's last `unstake`, unless it has staked or claimed since. */
  function LastAsk(s: System, env: Env, calls: seq<Call>, oracle: Address): Option<Ask> {
    if calls == [] then None
    else NextAsk(Run(s, env, calls[..|calls| - 1]), env, calls[|calls| - 1], oracle, LastAsk(s, env, calls[..|calls| - 1], oracle))
  }

  /** The stored end of the cooldown is the wrapping sum of the two. */
  predicate Remembers(b: StakeBook, oracle: Address, ask: Option<Ask>) {
    StakeOf(b, oracle).unstakeAt == if ask.Some? then Some(Add64(ask.value.at, ask.value.cooldown)) else None
  }

  lemma {:induction false} PassKeepsRequests(p: Purse, cfg: OracleConfig, self: Address, revealed: set<Key>, project: ProjectId,
                                             oracles: seq<Address>, now: Now, permit: bool, oracle: Address)
    requires PenalizeEach(p, cfg, self, revealed, project, oracles, now, permit).Committed?
    ensures
      var q := PenalizeEach(p, cfg, self, revealed, project, oracles, now, permit).value;
      StakeOf(q.book, oracle).unstakeAt == StakeOf(p.book, oracle).unstakeAt
    decreases |oracles|
  {
    if oracles != [] {
      var q := PenalizeOne(p, cfg, self, revealed, project, oracles[0], now, permit).value;
      PassKeepsRequests(q, cfg, self, revealed, project, oracles[1..], now, permit, oracle);
    }
  }

  predicate TouchesStake(c: Call) {
    c.CallStake? || c.CallUnstake? || c.CallClaim? || c.CallSlash?
  }

  lemma StakeCallRemembers(s: System, env: Env, c: Call, oracle: Address, ask: Option<Ask>)
    requires Remembers(s.store.book, oracle, ask) && TouchesStake(c) && Step(s, env, c).Committed?
    ensures Remembers(Next(s, env, c).store.book, oracle, NextAsk(s, env, c, oracle, ask))
  {
  }

  lemma FinalizeRemembers(s: System, env: Env, c: Call, oracle: Address, ask: Option<Ask>)
    requires Remembers(s.store.book, oracle, ask) && c.CallFinalize? && Step(s, env, c).Committed?
    ensures Remembers(Next(s, env, c).store.book, oracle, ask)
  {
    var t, r := Anatomy(s, env, c);
    PassKeepsRequests(Purse(s.store.marks.commitments, s.store.book, s.bank), s.store.config, env.self,
                      s.store.marks.revealed, c.project, s.store.roster.list, c.now, c.permit, oracle);
  }

  lemma OtherKeepsBook(s: Storage, u: Storage, c: Call)
    requires Transition(s, u, c) && !TouchesStake(c) && !c.CallFinalize?
    ensures u.book == s.book
  {
    if u != s && !Quiet(c) {
      var t, r :| Via(s, t, u, c, r);
    }
  }

  lemma StepRemembers(s: System, env: Env, c: Call, oracle: Address, ask: Option<Ask>)
    requires Remembers(s.store.book, oracle, ask)
    ensures Remembers(Next(s, env, c).store.book, oracle, NextAsk(s, env, c, oracle, ask))
  {
    if Step(s, env, c).Committed? {
      if TouchesStake(c) {
        StakeCallRemembers(s, env, c, oracle, ask);
      } else if c.CallFinalize? {
        FinalizeRemembers(s, env, c, oracle, ask);
      } else {
        StepIsTransition(s, env, c);
        OtherKeepsBook(s.store, Next(s, env, c).store, c);
      }
    }
  }

  lemma {:induction false} RunRemembers(d: System, env: Env, calls: seq<Call>, oracle: Address)
    requires d.store.book.stakes == map[]
    ensures Remembers(Run(d, env, calls).store.book, oracle, LastAsk(d, env, calls, oracle))
  {
    if calls != [] {
      var front := calls[..|calls| - 1];
      RunRemembers(d, env, front, oracle);
      StepRemembers(Run(d, env, front), env, calls[|calls| - 1], oracle, LastAsk(d, env, front, oracle));
    }
  }

  /** The contract would let the request through at that time. */
  predicate Claimable(ask: Ask, timestamp: nat) {
    0 < Add64(ask.at, ask.cooldown) <= timestamp
  }

  lemma ClaimableWaits(ask: Ask, timestamp: nat)
    requires Claimable(ask, timestamp) && ask.at + ask.cooldown < TWO_64
    ensures ask.at + ask.cooldown <= timestamp
  {
  }

  lemma ClaimNeedsRequest(s: System, env: Env, oracle: Address, now: Now, permit: bool, ask: Option<Ask>)
    requires Remembers(s.store.book, oracle, ask) && ClaimUnstake(s, env, oracle, now, permit).Committed?
    ensures ask.Some? && Claimable(ask.value, now.timestamp)
    ensures ask.value.at + ask.value.cooldown < TWO_64 ==> ask.value.at + ask.value.cooldown <= now.timestamp
  {
    if ask.value.at + ask.value.cooldown < TWO_64 {
      ClaimableWaits(ask.value, now.timestamp);
    }
  }

  /** In every run a claim goes through only after an `unstake` of that oracle that
  it has not staked or claimed since, and no earlier than the sum of that call's
  time and the cooldown configured then, unless the sum wraps. */
  lemma ClaimWaitsForCooldown(env: Env, admin: Address, stakingToken: Address, treasury: Address, bank: Bank, calls: seq<Call>,
                              oracle: Address, now: Now, permit: bool)
    ensures
      var d := Deployed(admin, stakingToken, treasury, bank);
      var ask := LastAsk(d, env, calls, oracle);
      ClaimUnstake(Run(d, env, calls), env, oracle, now, permit).Committed? ==>
        && ask.Some? && Claimable(ask.value, now.timestamp)
        && (ask.value.at + ask.value.cooldown < TWO_64 ==> ask.value.at + ask.value.cooldown <= now.timestamp)
  {
    var d := Deployed(admin, stakingToken, treasury, bank);
    var s, ask := Run(d, env, calls), LastAsk(d, env, calls, oracle);
    RunRemembers(d, env, calls, oracle);
    if ClaimUnstake(s, env, oracle, now, permit).Committed? {
      ClaimNeedsRequest(s, env, oracle, now, permit, ask);
    }
  }

  predicate Waited(ask: Ask, timestamp: nat) {
    ask.at + ask.cooldown <= timestamp
  }

  lemma NothingWaitsExactlyIfItWraps(ask: Ask)
    requires ask.at < TWO_64 && ask.cooldown < TWO_64
    ensures Claimable(ask, ask.at) && !Waited(ask, ask.at) <==> ask.at + ask.cooldown > TWO_64
    ensures ask.at + ask.cooldown <= TWO_64 ==>
              forall timestamp: nat :: ask.at <= timestamp < TWO_64 && Claimable(ask, timestamp) ==> Waited(ask, timestamp)
  {
    if ask.at + ask.cooldown == TWO_64 {
      assert Add64(ask.at, ask.cooldown) == 0;
    }
  }

  /** In every run that ends with the oracle's stake requested back, the claims it
  can make from then on all wait for the whole cooldown exactly if the sum does
  not wrap, or wraps to zero, which can never be claimed. */
  lemma CooldownIsRealExactly(env: Env, admin: Address, stakingToken: Address, treasury: Address, bank: Bank, calls: seq<Call>,
                              oracle: Address)
    requires treasury != env.self && NoDebts(bank) && Supply(bank, stakingToken) <= I128_MAX
    requires forall i :: 0 <= i < |calls| ==> Ordinary(calls[i], env, stakingToken)
    requires
      var ask := LastAsk(Deployed(admin, stakingToken, treasury, bank), env, calls, oracle);
      ask.Some? && ask.value.at < TWO_64 && ask.value.cooldown < TWO_64
    ensures
      var d := Deployed(admin, stakingToken, treasury, bank);
      var s, ask := Run(d, env, calls), LastAsk(d, env, calls, oracle).value;
      (forall now: Now, permit: bool :: ask.at <= now.timestamp < TWO_64 && ClaimUnstake(s, env, oracle, now, permit).Committed?
         ==> Waited(ask, now.timestamp))
      <==> ask.at + ask.cooldown <= TWO_64
  {
    var d := Deployed(admin, stakingToken, treasury, bank);
    var s, ask := Run(d, env, calls), LastAsk(d, env, calls, oracle).value;
    NothingWaitsExactlyIfItWraps(ask);
    RunRemembers(d, env, calls, oracle);
    if ask.at + ask.cooldown > TWO_64 {
      var now := Now(ask.at, 0);
      DeploymentIsCovered(env, admin, stakingToken, treasury, bank);
      StakesAreCovered(d, env, calls, stakingToken);
      ClaimIsAlwaysPaid(s, env, oracle, now, stakingToken);
      assert ClaimUnstake(s, env, oracle, now, true).Committed?;
    }
  }
}
