/** The fixed-point credit formula, and how it reacts to its inputs. */
module CreditFormula {
  import opened Numeric
  import opened Transactions
  import opened OracleData

  const MICRO: int := 1_000_000
  const BPS: int := 10_000

  /** A project field of zero means unset and selects the protocol default. */
  function ResolveBaselines(pc: Option<ProjectConfig>): Baselines {
    match pc
    case None => Baselines(10, 2, 300)
    case Some(c) => Baselines(if c.baselineN != 0 then c.baselineN else 10,
                              if c.baselineP != 0 then c.baselineP else 2,
                              if c.baselineTemp != 0 then c.baselineTemp else 300)
  }

  function CheckedRemoval(baseline: int, med: int, flow: int, secs: int): Txn<int> {
    if med < baseline then
      var perSecond :- Checked((baseline - med) * flow);
      var micros :- Checked(perSecond * secs);
      Committed(TruncDiv(micros, MICRO))
    else
      Committed(0)
  }

  function Penalty(cfg: OracleConfig, med: Reading, tempThreshold: int): int {
    var ph := if med.ph < cfg.phMin || med.ph > cfg.phMax then 2000 else 0;
    var turbidity := if med.turbidity > cfg.turbidityMax then 2000 else 0;
    var oxygen := if med.dissolvedOxygen < cfg.oxygenMin then 2000 else 0;
    var temperature := if med.temperature > tempThreshold then 1000 else 0;
    Min(ph + turbidity + oxygen + temperature, 8000)
  }

  /** Every product and sum is checked; an `i128` overflow reverts. */
  function ComputeFinalization(cfg: OracleConfig, med: Reading, base: Baselines, secs: int): Txn<Finalization> {
    var nRemoved :- CheckedRemoval(base.n, med.totalNitrogen, med.flowRate, secs);
    var pRemoved :- CheckedRemoval(base.p, med.totalPhosphorus, med.flowRate, secs);
    var penalty := Penalty(cfg, med, base.temp);
    var volumetric :- if med.flowRate > 0 then
                        (var v :- Checked(med.flowRate * 100); Committed(TruncDiv(v, 1000)))
                      else Committed(0);
    var nCredit :- Checked(nRemoved * cfg.creditPerKgN);
    var pCredit :- Checked(pRemoved * cfg.creditPerKgP);
    var nutrients :- Checked(nCredit + pCredit);
    var gross :- Checked(nutrients + volumetric);
    var scaled :- Checked(gross * (BPS - penalty));
    Committed(Finalization(nRemoved, pRemoved, penalty, volumetric, Max(TruncDiv(scaled, BPS), 0)))
  }

  // ---- The formula over the integers ----

  function Removal(baseline: int, med: int, flow: int, secs: int): int {
    if med < baseline then TruncDiv((baseline - med) * flow * secs, MICRO) else 0
  }

  function Volume(flow: int): int {
    if flow > 0 then flow * 100 / 1000 else 0
  }

  /** Credit before any quality penalty. */
  function Gross(cfg: OracleConfig, base: Baselines, secs: int, flow: int, n: int, p: int): int {
    Removal(base.n, n, flow, secs) * cfg.creditPerKgN
    + Removal(base.p, p, flow, secs) * cfg.creditPerKgP
    + Volume(flow)
  }

  predicate RatesNonNegative(cfg: OracleConfig) {
    0 <= cfg.creditPerKgN && 0 <= cfg.creditPerKgP
  }

  /** A finalization that does not overflow computes the formula exactly. */
  lemma FinalizationExact(cfg: OracleConfig, med: Reading, base: Baselines, secs: int)
    requires ComputeFinalization(cfg, med, base, secs).Committed?
    ensures
      var fin := ComputeFinalization(cfg, med, base, secs).value;
      var gross := Gross(cfg, base, secs, med.flowRate, med.totalNitrogen, med.totalPhosphorus);
      && fin.total == Max(0, TruncDiv(gross * (BPS - fin.penalty), BPS))
      && fin.penalty == Penalty(cfg, med, base.temp)
      && gross == fin.nRemoved * cfg.creditPerKgN + fin.pRemoved * cfg.creditPerKgP + fin.volumetric
  {
  }

  lemma RemovalMono(baseline: int, m0: int, m1: int, f0: int, f1: int, secs: int)
    requires m0 <= m1 && 0 <= f1 <= f0 && 0 <= secs
    ensures 0 <= Removal(baseline, m1, f1, secs) <= Removal(baseline, m0, f0, secs)
  {
    if m0 < baseline {
      var d0, d1 := baseline - m0, Max(0, baseline - m1);
      MulMono2(d1, d0, f1, f0);
      MulMono2(d1 * f1, d0 * f0, secs, secs);
      DivMono(d1 * f1 * secs, d0 * f0 * secs, MICRO);
      DivMono(0, d1 * f1 * secs, MICRO);
    }
  }

  /** More flow, cleaner water: never less credit. */
  lemma GrossMono(cfg: OracleConfig, base: Baselines, secs: int,
                  f0: int, f1: int, n0: int, n1: int, p0: int, p1: int)
    requires RatesNonNegative(cfg) && 0 <= secs
    requires 0 <= f1 <= f0 && n0 <= n1 && p0 <= p1
    ensures 0 <= Gross(cfg, base, secs, f1, n1, p1) <= Gross(cfg, base, secs, f0, n0, p0)
  {
    RemovalMono(base.n, n0, n1, f0, f1, secs);
    RemovalMono(base.p, p0, p1, f0, f1, secs);
    MulMono2(Removal(base.n, n1, f1, secs), Removal(base.n, n0, f0, secs), cfg.creditPerKgN, cfg.creditPerKgN);
    MulMono2(Removal(base.p, p1, f1, secs), Removal(base.p, p0, f0, secs), cfg.creditPerKgP, cfg.creditPerKgP);
    DivMono(f1 * 100, f0 * 100, 1000);
  }

  /** The penalties add up to at most 7000 basis points, so the cap at 8000
  never takes effect and at least 30% of a gross credit always survives. */
  lemma PenaltyLeavesThirtyPercent(cfg: OracleConfig, med: Reading, base: Baselines, secs: int)
    requires RatesNonNegative(cfg) && 0 <= secs && 0 <= med.flowRate
    requires ComputeFinalization(cfg, med, base, secs).Committed?
    ensures
      var fin := ComputeFinalization(cfg, med, base, secs).value;
      var gross := Gross(cfg, base, secs, med.flowRate, med.totalNitrogen, med.totalPhosphorus);
      && 0 <= fin.penalty <= 7000
      && gross * 3000 / BPS <= fin.total <= gross
      && (fin.penalty == 0 ==> fin.total == gross)
  {
    FinalizationExact(cfg, med, base, secs);
    var fin := ComputeFinalization(cfg, med, base, secs).value;
    var gross := Gross(cfg, base, secs, med.flowRate, med.totalNitrogen, med.totalPhosphorus);
    GrossMono(cfg, base, secs, med.flowRate, med.flowRate, med.totalNitrogen, med.totalNitrogen,
              med.totalPhosphorus, med.totalPhosphorus);
    var keep := BPS - fin.penalty;
    MulMono2(gross, gross, 3000, keep);
    MulMono2(gross, gross, keep, BPS);
    DivMono(gross * 3000, gross * keep, BPS);
    DivMono(0, gross * keep, BPS);
    DivMono(gross * keep, gross * BPS, BPS);
    DivShift(0, BPS, gross);
  }

  // ---- What bad water costs ----

  predicate GoodQuality(cfg: OracleConfig, base: Baselines, r: Reading) {
    && cfg.phMin <= r.ph <= cfg.phMax
    && r.turbidity <= cfg.turbidityMax
    && cfg.oxygenMin <= r.dissolvedOxygen
    && r.temperature <= base.temp
  }

  datatype Threshold = PhRange | TurbidityLimit | OxygenFloor | TemperatureLimit

  predicate Misses(cfg: OracleConfig, base: Baselines, r: Reading, t: Threshold) {
    match t
    case PhRange => r.ph < cfg.phMin || cfg.phMax < r.ph
    case TurbidityLimit => cfg.turbidityMax < r.turbidity
    case OxygenFloor => r.dissolvedOxygen < cfg.oxygenMin
    case TemperatureLimit => base.temp < r.temperature
  }

  function Cost(t: Threshold): int {
    if t.TemperatureLimit? then 1000 else 2000
  }

  /** Water is not penalized exactly if it meets every threshold. */
  lemma NoPenaltyExactly(cfg: OracleConfig, med: Reading, base: Baselines, secs: int)
    requires ComputeFinalization(cfg, med, base, secs).Committed?
    ensures ComputeFinalization(cfg, med, base, secs).value.penalty == 0 <==> GoodQuality(cfg, base, med)
  {
    FinalizationExact(cfg, med, base, secs);
  }

  /** Missing one more threshold costs exactly that threshold's basis points, on
  whichever side it is missed and whatever else is missed. */
  lemma EachMissCosts(cfg: OracleConfig, base: Baselines, secs: int, worse: Reading, better: Reading, t: Threshold)
    requires ComputeFinalization(cfg, worse, base, secs).Committed? && ComputeFinalization(cfg, better, base, secs).Committed?
    requires Misses(cfg, base, worse, t) && !Misses(cfg, base, better, t)
    requires forall u :: u != t ==> (Misses(cfg, base, worse, u) <==> Misses(cfg, base, better, u))
    ensures ComputeFinalization(cfg, worse, base, secs).value.penalty
         == ComputeFinalization(cfg, better, base, secs).value.penalty + Cost(t)
  {
    FinalizationExact(cfg, worse, base, secs);
    FinalizationExact(cfg, better, base, secs);
    assert Misses(cfg, base, worse, PhRange) <==> t.PhRange? || Misses(cfg, base, better, PhRange);
    assert Misses(cfg, base, worse, TurbidityLimit) <==> t.TurbidityLimit? || Misses(cfg, base, better, TurbidityLimit);
    assert Misses(cfg, base, worse, OxygenFloor) <==> t.OxygenFloor? || Misses(cfg, base, better, OxygenFloor);
    assert Misses(cfg, base, worse, TemperatureLimit) <==> t.TemperatureLimit? || Misses(cfg, base, better, TemperatureLimit);
  }

  // ---- Every rounding ----

  /** What passed through with the flow, in millionths, below a baseline. */
  function Micros(baseline: int, med: int, flow: int, secs: int): int {
    if med < baseline then (baseline - med) * flow * secs else 0
  }

  function CostIf(missed: bool, t: Threshold): int {
    if missed then Cost(t) else 0
  }

  /** The figures follow from the medians by rounding four quotients toward zero. */
  predicate Earns(cfg: OracleConfig, base: Baselines, secs: int, med: Reading, fin: Finalization) {
    var gross := fin.nRemoved * cfg.creditPerKgN + fin.pRemoved * cfg.creditPerKgP + fin.volumetric;
    && Truncated(fin.nRemoved, Micros(base.n, med.totalNitrogen, med.flowRate, secs), 1_000_000)
    && Truncated(fin.pRemoved, Micros(base.p, med.totalPhosphorus, med.flowRate, secs), 1_000_000)
    && Truncated(fin.volumetric, Max(0, med.flowRate), 10)
    && fin.penalty == CostIf(Misses(cfg, base, med, PhRange), PhRange) + CostIf(Misses(cfg, base, med, TurbidityLimit), TurbidityLimit)
                      + CostIf(Misses(cfg, base, med, OxygenFloor), OxygenFloor)
                      + CostIf(Misses(cfg, base, med, TemperatureLimit), TemperatureLimit)
    && (if gross < 0 then fin.total == 0 else Truncated(fin.total, gross * (10_000 - fin.penalty), 10_000))
  }

  lemma RemovalRounds(baseline: int, med: int, flow: int, secs: int)
    requires CheckedRemoval(baseline, med, flow, secs).Committed?
    ensures Truncated(CheckedRemoval(baseline, med, flow, secs).value, Micros(baseline, med, flow, secs), 1_000_000)
  {
    TruncDivTruncates(Micros(baseline, med, flow, secs), MICRO);
  }

  lemma VolumeRounds(flow: int)
    ensures Truncated(Volume(flow), Max(0, flow), 10)
  {
    DivBounds(flow * 100, 1000);
  }

  lemma TotalRounds(gross: int, penalty: int)
    requires 0 <= penalty <= BPS
    ensures
      var total := Max(0, TruncDiv(gross * (BPS - penalty), BPS));
      if gross < 0 then total == 0 else Truncated(total, gross * (BPS - penalty), BPS)
  {
    var scaled := gross * (BPS - penalty);
    if gross < 0 {
      MulMono(0, -gross, BPS - penalty);
      assert scaled == -(-gross * (BPS - penalty));
      DivMono(0, -scaled, BPS);
    } else {
      MulMono(0, gross, BPS - penalty);
      TruncDivTruncates(scaled, BPS);
    }
  }

  lemma PartsOfFinalization(cfg: OracleConfig, med: Reading, base: Baselines, secs: int)
    requires ComputeFinalization(cfg, med, base, secs).Committed?
    ensures
      var fin := ComputeFinalization(cfg, med, base, secs).value;
      && CheckedRemoval(base.n, med.totalNitrogen, med.flowRate, secs) == Committed(fin.nRemoved)
      && CheckedRemoval(base.p, med.totalPhosphorus, med.flowRate, secs) == Committed(fin.pRemoved)
      && fin.volumetric == Volume(med.flowRate)
  {
  }

  lemma PenaltyAddsUp(cfg: OracleConfig, med: Reading, base: Baselines)
    ensures Penalty(cfg, med, base.temp)
         == CostIf(Misses(cfg, base, med, PhRange), PhRange) + CostIf(Misses(cfg, base, med, TurbidityLimit), TurbidityLimit)
            + CostIf(Misses(cfg, base, med, OxygenFloor), OxygenFloor)
            + CostIf(Misses(cfg, base, med, TemperatureLimit), TemperatureLimit)
  {
  }

  /** A finalization that goes through earns exactly that. */
  lemma FinalizationEarns(cfg: OracleConfig, med: Reading, base: Baselines, secs: int)
    requires ComputeFinalization(cfg, med, base, secs).Committed?
    ensures Earns(cfg, base, secs, med, ComputeFinalization(cfg, med, base, secs).value)
  {
    var fin := ComputeFinalization(cfg, med, base, secs).value;
    PartsOfFinalization(cfg, med, base, secs);
    FinalizationExact(cfg, med, base, secs);
    RemovalRounds(base.n, med.totalNitrogen, med.flowRate, secs);
    RemovalRounds(base.p, med.totalPhosphorus, med.flowRate, secs);
    VolumeRounds(med.flowRate);
    PenaltyAddsUp(cfg, med, base);
    TotalRounds(fin.nRemoved * cfg.creditPerKgN + fin.pRemoved * cfg.creditPerKgP + fin.volumetric, fin.penalty);
  }

  /** The two products behind a removal fit. */
  predicate RemovalCanFit(baseline: int, med: int, flow: int, secs: int) {
    med < baseline ==> IsI128((baseline - med) * flow) && IsI128((baseline - med) * flow * secs)
  }

  /** It goes through exactly if each product and each sum on the way fits `i128`. */
  lemma FinalizationFitsExactly(cfg: OracleConfig, med: Reading, base: Baselines, secs: int)
    ensures
      var n, p := Removal(base.n, med.totalNitrogen, med.flowRate, secs), Removal(base.p, med.totalPhosphorus, med.flowRate, secs);
      var gross := Gross(cfg, base, secs, med.flowRate, med.totalNitrogen, med.totalPhosphorus);
      ComputeFinalization(cfg, med, base, secs).Committed? <==>
        && RemovalCanFit(base.n, med.totalNitrogen, med.flowRate, secs)
        && RemovalCanFit(base.p, med.totalPhosphorus, med.flowRate, secs)
        && (med.flowRate > 0 ==> IsI128(med.flowRate * 100))
        && IsI128(n * cfg.creditPerKgN) && IsI128(p * cfg.creditPerKgP)
        && IsI128(n * cfg.creditPerKgN + p * cfg.creditPerKgP)
        && IsI128(gross) && IsI128(gross * (BPS - Penalty(cfg, med, base.temp)))
  {
  }

  /** Any value but zero that a project sets for itself counts; for the rest, and
  without a project, the baselines are 10, 2 and 300. */
  lemma DefaultsApply(pc: ProjectConfig)
    ensures ResolveBaselines(None) == Baselines(10, 2, 300)
    ensures
      var b := ResolveBaselines(Some(pc));
      && b.n != 0 && b.p != 0 && b.temp != 0
      && (b.n == pc.baselineN || (pc.baselineN == 0 && b.n == 10))
      && (b.p == pc.baselineP || (pc.baselineP == 0 && b.p == 2))
      && (b.temp == pc.baselineTemp || (pc.baselineTemp == 0 && b.temp == 300))
  {
  }

  // ---- When nothing overflows ----

  function Load(baseline: int, n: int, flow: int, secs: int): int {
    Max(0, baseline - n) * flow * secs
  }

  /** The largest intermediate values at the given inputs fit `i128`. */
  predicate Fits(cfg: OracleConfig, base: Baselines, secs: int, flow: int, n: int, p: int) {
    && IsI128(Load(base.n, n, flow, secs)) && IsI128(Load(base.p, p, flow, secs))
    && IsI128(flow * 100)
    && IsI128(Gross(cfg, base, secs, flow, n, p) * BPS)
  }

  lemma RemovalFits(baseline: int, m0: int, m1: int, f0: int, f1: int, secs: int)
    requires m0 <= m1 && 0 <= f1 <= f0 && 1 <= secs && IsI128(Load(baseline, m0, f0, secs))
    ensures CheckedRemoval(baseline, m1, f1, secs) == Committed(Removal(baseline, m1, f1, secs))
  {
    if m1 < baseline {
      var d0, d1 := baseline - m0, baseline - m1;
      MulMono2(d1, d0, f1, f0);
      MulMono2(d1 * f1, d0 * f0, secs, secs);
      MulMono(1, secs, d1 * f1);
    }
  }

  lemma PartsFit(a: int, b: int, c: int, whole: int)
    requires 0 <= a && 0 <= b && 0 <= c && a + b + c <= whole && IsI128(whole * BPS)
    ensures IsI128(a) && IsI128(b) && IsI128(a + b) && IsI128(a + b + c)
  {
  }

  /** If the formula fits at some flow and purity, it fits for less flow and
  dirtier water, whatever the quality penalty. */
  lemma FitsBelow(cfg: OracleConfig, med: Reading, base: Baselines, secs: int, flow: int, n: int, p: int)
    requires RatesNonNegative(cfg) && 1 <= secs && Fits(cfg, base, secs, flow, n, p)
    requires 0 <= med.flowRate <= flow && n <= med.totalNitrogen && p <= med.totalPhosphorus
    ensures ComputeFinalization(cfg, med, base, secs).Committed?
  {
    RemovalFits(base.n, n, med.totalNitrogen, flow, med.flowRate, secs);
    RemovalFits(base.p, p, med.totalPhosphorus, flow, med.flowRate, secs);
    RemovalMono(base.n, n, med.totalNitrogen, flow, med.flowRate, secs);
    RemovalMono(base.p, p, med.totalPhosphorus, flow, med.flowRate, secs);
    GrossMono(cfg, base, secs, flow, med.flowRate, n, med.totalNitrogen, p, med.totalPhosphorus);
    var nRemoved, pRemoved := Removal(base.n, med.totalNitrogen, med.flowRate, secs), Removal(base.p, med.totalPhosphorus, med.flowRate, secs);
    MulMono2(0, nRemoved, 0, cfg.creditPerKgN);
    MulMono2(0, pRemoved, 0, cfg.creditPerKgP);
    DivMono(0, med.flowRate * 100, 1000);
    var gross, most := Gross(cfg, base, secs, med.flowRate, med.totalNitrogen, med.totalPhosphorus), Gross(cfg, base, secs, flow, n, p);
    PartsFit(nRemoved * cfg.creditPerKgN, pRemoved * cfg.creditPerKgP, Volume(med.flowRate), most);
    MulMono2(gross, most, BPS - Penalty(cfg, med, base.temp), BPS);
  }
}
