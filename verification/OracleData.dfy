/** The values the verification oracle stores and receives. */
module OracleData {
  import opened Numeric
  import opened Transactions

  /** One set of sensor values, in the contract's fixed-point units. */
  datatype Reading = Reading(ph: int, turbidity: int, dissolvedOxygen: int, flowRate: int,
                             temperature: int, totalNitrogen: int, totalPhosphorus: int)
  {
    /** Every field is an `i64` on the wire. */
    predicate Wire() {
      && IsI64(ph) && IsI64(turbidity) && IsI64(dissolvedOxygen) && IsI64(flowRate)
      && IsI64(temperature) && IsI64(totalNitrogen) && IsI64(totalPhosphorus)
    }

    /** What `validate_sensor_reading` lets through. */
    predicate Plausible() {
      && 0 <= ph <= 1400
      && 0 <= flowRate && 0 <= totalNitrogen && 0 <= totalPhosphorus && 0 <= dissolvedOxygen
      && 0 <= turbidity <= 10_000
      && 0 <= temperature <= 500
    }
  }

  /** A reading as it arrives: seven `i64` values. */
  type Sample = r: Reading | r.Wire() witness Reading(0, 0, 0, 0, 0, 0, 0)

  datatype Submission = Submission(oracle: Address, nonce: nat, timestamp: nat, reading: Sample)

  datatype OracleConfig = OracleConfig(
    minOracles: nat, maxOracles: nat,
    phMin: int, phMax: int, turbidityMax: int, oxygenMin: int, temperatureMax: int,
    creditPerKgN: int, creditPerKgP: int,
    stakingToken: Address, treasury: Address, minStake: int, unstakeCooldown: nat,
    commitPhaseSecs: nat, minRevealLedgers: nat, maxRevealLedgers: nat,
    slashPctBps: nat, minSlash: int, maxSlash: int,
    windowSecs: nat, maxOpenWindows: nat, feeBps: nat)
  {
    /** What `update_config` accepts, apart from the live oracle count. */
    predicate Valid() {
      && slashPctBps <= 5000
      && 0 <= minSlash <= maxSlash
      && 60 <= windowSecs <= 86_400
      && 1 <= minOracles <= maxOracles <= 10
      && 1 <= maxOpenWindows
      && feeBps <= 10_000
    }
  }

  const ORACLE_HARD_LIMIT: nat := 10

  datatype ProjectConfig = ProjectConfig(token: Address, beneficiary: Address,
                                         baselineN: int, baselineP: int, baselineTemp: int)

  datatype Baselines = Baselines(n: int, p: int, temp: int)

  datatype Finalization = Finalization(nRemoved: int, pRemoved: int, penalty: int, volumetric: int, total: int)

  datatype Result = Result(project: ProjectId, fin: Finalization, minted: int, fee: int,
                           oracleCount: nat, finalizedAt: nat)

  datatype Summary = Summary(total: int, minted: int, oracleCount: nat, finalizedAt: nat)

  function Project(r: Result): Summary {
    Summary(r.fin.total, r.minted, r.oracleCount, r.finalizedAt)
  }
}
