/** The proportional penalty for a missed reveal. */
module Slashing {
  import opened Numeric
  import opened Transactions
  import opened OracleData

  function Clamp(x: int, lo: int, hi: int): int {
    if x < lo then lo else if x > hi then hi else x
  }

  /** Reverts when the product overflows, and where `clamp` itself would panic:
  on bounds in the wrong order. */
  function ComputeSlashAmount(stake: int, cfg: OracleConfig): Txn<int> {
    if stake <= 0 then
      Committed(0)
    else
      var scaled :- Checked(stake * cfg.slashPctBps);
      :- Require(cfg.minSlash <= cfg.maxSlash);
      Committed(Min(Clamp(TruncDiv(scaled, 10_000), cfg.minSlash, cfg.maxSlash), stake))
  }

  /** Raising the stake raises the proportional part by no more than the raise. */
  lemma ProportionIsLipschitz(s: int, t: int, bps: int)
    requires 0 <= s <= t && 0 <= bps <= 10_000
    ensures s * bps / 10_000 <= t * bps / 10_000 <= s * bps / 10_000 + (t - s)
  {
    MulMono(s, t, bps);
    DivMono(s * bps, t * bps, 10_000);
    MulMono(bps, 10_000, t - s);
    assert t * bps == s * bps + (t - s) * bps;
    DivMono(t * bps, s * bps + (t - s) * 10_000, 10_000);
    DivShift(s * bps, 10_000, t - s);
  }

  /** A penalty takes between nothing and everything. It is computed for every
  accepted configuration whose product fits `i128`: the clamp never panics. */
  lemma SlashWithinStake(stake: int, cfg: OracleConfig)
    requires cfg.Valid() && 0 <= stake
    ensures ComputeSlashAmount(stake, cfg).Committed? <==> IsI128(stake * cfg.slashPctBps)
    ensures
      var r := ComputeSlashAmount(stake, cfg);
      r.Committed? ==>
        && 0 <= r.value <= stake
        && Min(cfg.minSlash, stake) <= r.value <= cfg.maxSlash
        && (2 * r.value <= stake || r.value == Min(cfg.minSlash, stake))
  {
    MulMono2(0, stake, 0, cfg.slashPctBps);
    MulMono(cfg.slashPctBps, 5000, stake);
    DivBounds(stake * cfg.slashPctBps, 10_000);
  }

  /** `cut` is the configured share of the stake, rounded down, where that lies
  between the configured bounds; below them it is the lower one, as far as the
  stake reaches, and above them the upper one. */
  predicate Proportional(stake: int, cfg: OracleConfig, cut: int) {
    var m := stake * cfg.slashPctBps;
    if m < cfg.minSlash * 10_000 then cut == Min(cfg.minSlash, stake)
    else if m < (cfg.maxSlash + 1) * 10_000 then 10_000 * cut <= m < 10_000 * cut + 10_000
    else cut == cfg.maxSlash
  }

  lemma SlashIsProportional(stake: int, cfg: OracleConfig)
    requires cfg.Valid() && 0 <= stake && ComputeSlashAmount(stake, cfg).Committed?
    ensures Proportional(stake, cfg, ComputeSlashAmount(stake, cfg).value)
  {
    var m := stake * cfg.slashPctBps;
    MulMono2(0, stake, 0, cfg.slashPctBps);
    MulMono(cfg.slashPctBps, 5000, stake);
    DivBounds(m, 10_000);
    FloorAtLeast(m, 10_000, cfg.minSlash);
    FloorAtLeast(m, 10_000, cfg.maxSlash + 1);
  }

  /** The larger stake pays at least as much and keeps at least as much, so a
  penalty never reverses the order of two stakes. */
  lemma SlashKeepsOrder(s: int, t: int, cfg: OracleConfig)
    requires cfg.Valid() && 0 <= s <= t
    requires ComputeSlashAmount(t, cfg).Committed?
    ensures ComputeSlashAmount(s, cfg).Committed?
    ensures
      var a, b := ComputeSlashAmount(s, cfg).value, ComputeSlashAmount(t, cfg).value;
      a <= b && s - a <= t - b
  {
    MulMono2(0, s, 0, cfg.slashPctBps);
    MulMono(s, t, cfg.slashPctBps);
    ProportionIsLipschitz(s, t, cfg.slashPctBps);
    SlashWithinStake(s, cfg);
    SlashWithinStake(t, cfg);
  }
}
