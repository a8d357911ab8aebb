/** Short runs of a new oracle deployment in which a stake is asked back or cut. */
module StakeScenarios {
  import opened Numeric
  import opened Transactions
  import opened Banks
  import opened OracleData
  import opened Slashing
  import opened OracleSpec
  import opened OracleScenarios

  /** Oracle 7 stakes under a given configuration and asks part of it back. */
  function Unstaking(config: OracleConfig, staked: int, asked: int, now: Now): seq<Call> {
    Adding() + [CallUpdateConfig(0, config)] + [CallStake(7, staked, true)] + [CallUnstake(7, asked, now)]
  }

  /** The storage of a new deployment after that. */
  function Asked(s: Storage, config: OracleConfig, left: int, end: nat): Storage {
    s.(config := config, roster := THREE, book := StakeBook(map[7 := Stake(left, Some(end))], map[], map[]))
  }

  lemma UnstakingRuns(env: Env, stakingToken: Address, treasury: Address, bank: Bank, config: OracleConfig,
                      staked: int, asked: int, now: Now)
    requires Plain(config) && config.stakingToken == stakingToken
    requires 0 < asked <= staked <= I128_MAX && staked <= Holding(bank, stakingToken, 7)
    ensures
      var d := Deployed(0, stakingToken, treasury, bank);
      Run(d, env, Unstaking(config, staked, asked, now))
      == System(Asked(d.store, config, staked - asked, Add64(now.timestamp, config.unstakeCooldown)),
                Pay(bank, stakingToken, 7, env.self, staked, true).value)
  {
    var d := Deployed(0, stakingToken, treasury, bank);
    AddingRuns(env, stakingToken, treasury, bank);
    AfterConfig(d, env, Adding(), d.store.(roster := THREE), config);
    var b, cs := d.store.(config := config, roster := THREE), Adding() + [CallUpdateConfig(0, config)];
    RunPush(d, env, cs, CallStake(7, staked, true));
    StakeThenUnstake(b, env, bank, staked, asked, now);
    RunPush(d, env, cs + [CallStake(7, staked, true)], CallUnstake(7, asked, now));
  }

  lemma StakeThenUnstake(b: Storage, env: Env, bank: Bank, staked: int, asked: int, now: Now)
    requires b.book == StakeBook(map[], map[], map[]) && b.config.minStake == 0
    requires 0 < asked <= staked <= I128_MAX && staked <= Holding(bank, b.config.stakingToken, 7)
    ensures
      var s := Next(Next(System(b, bank), env, CallStake(7, staked, true)), env, CallUnstake(7, asked, now));
      && s.store == b.(book := StakeBook(map[7 := Stake(staked - asked, Some(Add64(now.timestamp, b.config.unstakeCooldown)))], map[], map[]))
      && s.bank == Pay(bank, b.config.stakingToken, 7, env.self, staked, true).value
  {
    WrapInRange(staked);
    var s := Next(System(b, bank), env, CallStake(7, staked, true));
    assert s.store.book.stakes == map[7 := Stake(staked, None)];
    var stake := Stake(staked - asked, Some(Add64(now.timestamp, b.config.unstakeCooldown)));
    assert s.store.book.stakes[7 := stake] == map[7 := stake];
  }

  /** The longest cooldown that can be configured wraps at any time past one: what
  is left of the stake can be claimed in the very second it was asked for. */
  lemma LongestCooldownIsNone(env: Env, stakingToken: Address, treasury: Address, bank: Bank, staked: int, asked: int, now: Now)
    requires NoDebts(bank) && 0 < asked <= staked <= I128_MAX && staked <= Holding(bank, stakingToken, 7)
    requires 2 <= now.timestamp < TWO_64
    ensures
      var config := DefaultConfig(stakingToken, treasury).(unstakeCooldown := TWO_64 - 1);
      var s := Run(Deployed(0, stakingToken, treasury, bank), env, Unstaking(config, staked, asked, now));
      config.Valid() && ClaimUnstake(s, env, 7, now, true).Committed?
  {
    var config := DefaultConfig(stakingToken, treasury).(unstakeCooldown := TWO_64 - 1);
    UnstakingRuns(env, stakingToken, treasury, bank, config, staked, asked, now);
    assert Add64(now.timestamp, TWO_64 - 1) == now.timestamp - 1;
  }

  /** With the default cooldown, the oracle that asked for a part of its stake is
  paid the other part; what it asked for stays with the contract, and its stake
  is gone. */
  lemma OtherPartIsPaid(env: Env, stakingToken: Address, treasury: Address, bank: Bank, staked: int, asked: int, now: Now, later: Now)
    requires NoDebts(bank) && 0 < asked <= staked <= I128_MAX && staked <= Holding(bank, stakingToken, 7) && env.self != 7
    requires now.timestamp + 86_400 <= later.timestamp < TWO_64
    ensures
      var config := DefaultConfig(stakingToken, treasury);
      var calls := Unstaking(config, staked, asked, now) + [CallClaim(7, later, true)];
      var s := Run(Deployed(0, stakingToken, treasury, bank), env, calls);
      && Holding(s.bank, stakingToken, 7) == Holding(bank, stakingToken, 7) - asked
      && Holding(s.bank, stakingToken, env.self) == Holding(bank, stakingToken, env.self) + asked
      && StakeOf(s.store.book, 7) == Stake(0, None)
  {
    var d, config := Deployed(0, stakingToken, treasury, bank), DefaultConfig(stakingToken, treasury);
    UnstakingRuns(env, stakingToken, treasury, bank, config, staked, asked, now);
    RunPush(d, env, Unstaking(config, staked, asked, now), CallClaim(7, later, true));
  }

  // ---- A missed reveal with a stake behind it ----

  /** Oracle 7 commits under the default configuration, the reveal phase begins, it
  stakes, and the window is finalized after the last ledger for reveals. */
  function Missing(config: OracleConfig, digest: Digest, staked: int, token: TokenView): seq<Call> {
    Committing(config, digest, 0) + [CallStake(7, staked, true)] + [CallFinalize(1, Now(300, 61), token, true)]
  }

  lemma OnlySevenPays(p: Purse, cfg: OracleConfig, self: Address, now: Now, cut: int)
    requires p.commitments.Keys == {(1, 7)} && 0 < cut && ComputeSlashAmount(StakeOf(p.book, 7).amount, cfg) == Committed(cut)
    requires cut <= Holding(p.bank, cfg.stakingToken, self)
    ensures
      var r := PenalizeEach(p, cfg, self, {}, 1, THREE.list, now, true);
      && r.Committed?
      && r.value.bank == Pay(p.bank, cfg.stakingToken, self, cfg.treasury, cut, true).value
      && StakeOf(r.value.book, 7).amount == StakeOf(p.book, 7).amount - cut
  {
    var q := PenalizeOne(p, cfg, self, {}, 1, 7, now, true).value;
    assert THREE.list[1..] == [8, 9] && THREE.list[1..][1..] == [9] && THREE.list[1..][1..][1..] == [];
    assert PenalizeOne(q, cfg, self, {}, 1, 8, now, true) == Committed(q);
    assert PenalizeOne(q, cfg, self, {}, 1, 9, now, true) == Committed(q);
  }

  lemma MissedPass(s: System, env: Env, stakingToken: Address, treasury: Address, digest: Digest, staked: int, token: TokenView)
    requires 10 <= staked && IsI128(staked * 1000) && env.self != treasury
    requires
      var b := Init(0, stakingToken, treasury);
      s.store == Began(b, b.config, digest, 0).(book := StakeBook(map[7 := Stake(staked, None)], map[], map[]))
    requires staked <= Holding(s.bank, stakingToken, env.self)
    ensures
      var t, cut := Next(s, env, CallFinalize(1, Now(300, 61), token, true)), staked / 10;
      && StakeOf(t.store.book, 7).amount == staked - cut
      && Holding(t.bank, stakingToken, treasury) == Holding(s.bank, stakingToken, treasury) + cut
      && Holding(t.bank, stakingToken, env.self) == Holding(s.bank, stakingToken, env.self) - cut
  {
    var cfg := s.store.config;
    TenthIsCut(staked, cfg);
    var p := Purse(s.store.marks.commitments, s.store.book, s.bank);
    OnlySevenPays(p, cfg, env.self, Now(300, 61), staked / 10);
    assert Step(s, env, CallFinalize(1, Now(300, 61), token, true)).Committed?;
    PayEffect(s.bank, stakingToken, env.self, treasury, staked / 10, true, stakingToken, treasury);
    PayEffect(s.bank, stakingToken, env.self, treasury, staked / 10, true, stakingToken, env.self);
  }

  lemma TenthIsCut(staked: int, cfg: OracleConfig)
    requires 10 <= staked && IsI128(staked * 1000) && cfg.slashPctBps == 1000 && cfg.minSlash == 0 && cfg.maxSlash == I128_MAX
    ensures ComputeSlashAmount(staked, cfg) == Committed(staked / 10)
  {
    DivBounds(staked, 10);
    DivUnique(staked * 1000, 10_000, staked / 10);
  }

  lemma StakesAfter(b: Storage, env: Env, bank: Bank, staked: int)
    requires b.book == StakeBook(map[], map[], map[]) && 0 < staked <= I128_MAX && staked <= Holding(bank, b.config.stakingToken, 7)
    ensures
      var t := Next(System(b, bank), env, CallStake(7, staked, true));
      && t.store == b.(book := StakeBook(map[7 := Stake(staked, None)], map[], map[]))
      && t.bank == Pay(bank, b.config.stakingToken, 7, env.self, staked, true).value
  {
    WrapInRange(staked);
    assert map[][7 := Stake(staked, None)] == map[7 := Stake(staked, None)];
  }

  /** Under the default configuration a missed reveal costs a tenth of the stake,
  which goes to the treasury. */
  lemma MissedRevealCostsATenth(env: Env, stakingToken: Address, treasury: Address, bank: Bank, digest: Digest, staked: int,
                                token: TokenView)
    requires NoDebts(bank) && 10 <= staked <= Holding(bank, stakingToken, 7) && IsI128(staked * 1000)
    requires env.self != treasury && env.self != 7 && treasury != 7
    ensures
      var s := Run(Deployed(0, stakingToken, treasury, bank), env, Missing(DefaultConfig(stakingToken, treasury), digest, staked, token));
      && StakeOf(s.store.book, 7).amount == staked - staked / 10
      && Holding(s.bank, stakingToken, treasury) == Holding(bank, stakingToken, treasury) + staked / 10
      && Holding(s.bank, stakingToken, env.self) == Holding(bank, stakingToken, env.self) + staked - staked / 10
  {
    var d, config := Deployed(0, stakingToken, treasury, bank), DefaultConfig(stakingToken, treasury);
    CommittingRuns(env, stakingToken, treasury, bank, config, digest, 0);
    var cs := Committing(config, digest, 0);
    RunPush(d, env, cs, CallStake(7, staked, true));
    RunPush(d, env, cs + [CallStake(7, staked, true)], CallFinalize(1, Now(300, 61), token, true));
    StakesAfter(Began(d.store, config, digest, 0), env, bank, staked);
    var t := Next(System(Began(d.store, config, digest, 0), bank), env, CallStake(7, staked, true));
    PayEffect(bank, stakingToken, 7, env.self, staked, true, stakingToken, env.self);
    PayEffect(bank, stakingToken, 7, env.self, staked, true, stakingToken, treasury);
    MissedPass(t, env, stakingToken, treasury, digest, staked, token);
  }
}
