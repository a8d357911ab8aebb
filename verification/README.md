# Water credit contracts: a verified model

This project models seven pieces of the water-credit protocol as state machines
and proves what they keep over every run:

- the verification oracle: two submission paths into shared windows, commit and
  reveal with deadlines, staking, slashing, the median and the credit formula,
  stored results, and the capped mint into the credit token;
- the marketplace escrow with partial and batched fills;
- the credit token and the bridge to another chain, alone and together;
- governance proposals from voting through timelock to execution;
- the retirement registry and its indexes;
- the byte encodings that are hashed or sent to the other chain.

## How it is organized

Each contract has a specification module (`OracleSpec`, `MarketSpec`, `TokenSpec`,
`BridgeSpec`, `GovernanceSpec`, `RegistrySpec`): its storage as a datatype, every
entry point as a function to `Txn`, and `Run` over arbitrary sequences of calls. A
panic rolls back the whole call, so a call either commits a new storage or reverts.
The class of the same contract carries the calls out step by step, loops and
intermediate writes included, and is proved to settle exactly as specified. The
proof modules (`OracleWindows`, `OracleAccountability`, `OracleLifetimes`,
`OracleReveals`, `OracleDeadlines`, `OracleStakes`, `OracleCooldown`,
`OracleHistory`, `OracleCoalitions`, `CappedMint`, `MarketSafety`, `MarketLedger`,
`MarketTerms`, `TokenConservation`, `TokenAuthority`, `BridgeSafety`,
`GovernanceSafety`, `GovernanceBasis`, `GovernanceTerms`, `OracleAdmission`,
`RegistryRefinement`, `RetirementLink`, `HonestMajority`, `Median`,
`CreditFormula`, `Slashing`, `Preimages`, `AddressCodec`) state the results. `OracleSteps` takes the oracle's
calls apart into readings, penalty passes and finalizations, which all of its
invariants share; `OracleScenarios` and `StakeScenarios` hold short runs from
deployment that show what the contract can do.

Machine arithmetic follows the source: checked operations revert, and unchecked
ones wrap, as they do in a release build without overflow checks. Clocks, ledger
numbers, answers of other contracts, the hash and signature checks are parameters.

`dafny verify dfyconfig.toml` checks everything.

## Where the code falls short of its promises

Each of these is kept as the code has it. The condition under which the promise
holds is proved, and where it takes a history to break it, so is a run.

- A transfer to oneself creates credits (`TokenConservation.TransferConservesUnlessToSelf`, `SelfTransferBreaksSupply`).
- A batch mint ignores bridged-out credits in its cap (`TokenConservation.StepUnderJointCap`, `CappedMint.BatchOvershootsAfterBridging`).
- The oracle's mint clamps to the supply alone, so bridged-out credits can block a
  finalization, although its documentation says it can never breach the cap
  (`CappedMint.CappedMintExactly`, `BridgedCreditsBlockTheMint`).
- A withdrawal from the bridge is counted twice against the cap
  (`BridgeSafety.WithdrawalMustFitTheCapTwice`, `NothingComesBack`).
- A relayer list with repetitions can make the threshold unreachable
  (`BridgeSafety.RepeatedRelayersCanBlock`, `RepeatedRelayersExample`).
- An oracle can report twice in one window, by one path each, although a window is
  documented to collect one submission per oracle: exactly if both its markers are
  set and the window found neither (`OracleLifetimes.TwiceExactlyWithBothFreshMarkers`,
  `SecondReadingGetsIn`, `OracleScenarios.OneOracleTwiceInAWindow`). One of two
  reporters can then decide a result (`OracleScenarios.OneLiarDecides`). The median's
  buffer is safe all the same (`OracleWindows.MediansNeverPanic`).
- Having reported directly, an oracle is refused on that path until a committed reset
  reaches it, which one that was removed meanwhile escapes
  (`OracleLifetimes.DirectPathIsSpentExactly`, `OracleScenarios.ResetMissesTheRemoved`).
- A commitment can outlive its window and be revealed in the next
  (`OracleLifetimes.RevealIsOfThisWindowExactly`, `OracleScenarios.OldCommitmentIsRevealed`),
  or penalized there (`OracleReveals.PenaltyIsOfThisWindowExactly`,
  `OracleScenarios.OldCommitmentIsPenalized`).
- A reveal can outlive it too: its oracle can then neither commit nor reveal until a
  reset or a finalization on that path reaches it
  (`OracleReveals.RevealPathIsSpentExactly`, `OracleScenarios.RevealedIsLockedOut`).
- An oracle with submissions in an open window can be removed if they were direct, or
  if the window is not listed (`OracleWindows.RemovalIsRefusedExactly`,
  `OracleScenarios.DirectReporterIsRemoved`, `CommitterIsRemoved`).
- A wrapped reveal deadline penalizes at once
  (`OracleDeadlines.DeadlineIsRealExactlyWithoutWrap`, `OracleScenarios.LongestPeriodPenalizesAtOnce`),
  a delay that wraps is no delay (`OracleDeadlines.DelayIsRealExactly`,
  `OracleScenarios.LongestDelayRevealsAtOnce`), a commit phase that wraps is over at once
  (`OracleDeadlines.CommitPhaseIsRealExactly`, `OracleScenarios.LongestPhaseEndsAtOnce`),
  and a cooldown that wraps is no cooldown (`OracleCooldown.CooldownIsRealExactly`,
  `StakeScenarios.LongestCooldownIsNone`).
- Resetting a finished window opens one that is not listed
  (`OracleWindows.ListingStaysCompleteExactly`, `OracleScenarios.ResetUnlists`).
- A claim after `unstake` pays the stake that is left, which is the requested amount
  exactly if that was half of the stake; the requested amount is never paid out
  (`OracleStakes.UnstakeThenClaimPaysTheRest`, `StakesAreCovered`,
  `StakeScenarios.OtherPartIsPaid`).
- An `unstake` leaves a whitelisted oracle its minimum stake, but the claim after it takes
  the rest (`OracleAdmission.StakesFallByRight`, `ClaimDisarms`).
- A governance token is documented to weigh new proposals; pending ones are decided on
  its balances as well, held against a number of members
  (`GovernanceBasis.RuleIsKeptExactly`, `EarlyProposalIsDecidedOnBalances`, `OneHolderApproves`).
- A buy order's remainder of less than one unit can be neither filled nor cancelled
  (`MarketSafety.FillStrandsExactly`, `TinyRemainderIsStuck`, `OrderGetsStuck`).
- The documented cap of 80% on quality penalties can never take effect (`CreditFormula.PenaltyLeavesThirtyPercent`).

## Model

| member | source | states |
|---|---|---|
| `Median.MedianI64` | contracts/verification_oracle/src/lib.rs:464-493 | Sorts a stack buffer in place and answers, for one to ten values, the middle of their sorted order, or halfway between the two middle ones rounded toward zero; panics on none and on more than ten. The 128-bit mean always fits back into `i64`. |
| `Median.SortBuffer` | contracts/verification_oracle/src/lib.rs:475-485 | The outer loop of the insertion sort leaves the sorted values in the buffer. |
| `Median.ShiftIn` | contracts/verification_oracle/src/lib.rs:477-484 | One pass shifts the larger elements up and drops the key in; the rest of the buffer is untouched. |
| `Median.SortCorrect` | contracts/verification_oracle/src/lib.rs:475-485 | The sorted buffer is the one and only sorted rearrangement of the input. |
| `Median.OrderStatistic` | contracts/verification_oracle/src/lib.rs:475-493 | The element at position k of the sorted buffer is the k-th order statistic, by counting. |
| `Median.MedianOfPermutation` | contracts/verification_oracle/src/lib.rs:464-493 | The median does not depend on the order of the readings. |
| `Median.MedianMonotone` | contracts/verification_oracle/src/lib.rs:464-493 | Raising any readings never lowers the median. |
| `Median.MajorityBoundsMedian` | contracts/verification_oracle/src/lib.rs:464-493 | If more than half of the values lie in a range, so does the median, whatever the others are. |
| `Median.MedianInRange` | contracts/verification_oracle/src/lib.rs:464-493 | The median lies between the smallest and the largest reading. |
| `Median.MedianIsInTheMiddle` | contracts/verification_oracle/src/lib.rs:486-492 | For any sorted rearrangement, an odd number of readings has its middle element as median, and an even one the value for which twice it is the sum of the two middle ones, or one less toward zero. |
| `Median.MedianHalves` | contracts/verification_oracle/src/lib.rs:464-493 | At least half of the readings are not above the median and at most half are below it. |
| `Median.MedianOfMirror` | contracts/verification_oracle/src/lib.rs:486-492 | The median of the negated readings is the negated median. |
| `CreditFormula.FinalizationExact` | contracts/verification_oracle/src/lib.rs:784-879 | A finalization that does not overflow computes, over the integers, the credit of the removals and the volume less the penalty, floored at zero. |
| `CreditFormula.FinalizationEarns` | contracts/verification_oracle/src/lib.rs:784-879 | It earns exactly this: removals in millionths, a tenth of the flow and the total in ten-thousandths, each rounded toward zero, and a penalty of 2000 for pH, turbidity and oxygen and 1000 for temperature, as far as they miss their thresholds. |
| `CreditFormula.NoPenaltyExactly` | contracts/verification_oracle/src/lib.rs:825-841 | The penalty is zero exactly for water within every threshold. |
| `CreditFormula.EachMissCosts` | contracts/verification_oracle/src/lib.rs:825-841 | Missing one more threshold, on either side, costs exactly its basis points. |
| `CreditFormula.FinalizationFitsExactly` | contracts/verification_oracle/src/lib.rs:799-870 | It goes through exactly if every product and sum on the way fits `i128`. |
| `CreditFormula.DefaultsApply` | contracts/verification_oracle/src/lib.rs:731-752 | Baselines are 10, 2 and 300 unless a project sets others than zero. |
| `CreditFormula.GrossMono` | contracts/verification_oracle/src/lib.rs:784-879 | More flow and cleaner water never earn less. |
| `CreditFormula.PenaltyLeavesThirtyPercent` | contracts/verification_oracle/src/lib.rs:825-870 | Penalties sum to at most 70%, so the documented 80% cap never takes effect and at least 30% of the gross credit survives. |
| `CreditFormula.FitsBelow` | contracts/verification_oracle/src/lib.rs:784-879 | If the checked arithmetic fits at some flow and purity, it fits for less flow and dirtier water. |
| `HonestMajority.Columns` | contracts/verification_oracle/src/lib.rs:1273-1292 | Both submission paths split a window into seven columns of readings. |
| `HonestMajority.Aggregate` | contracts/verification_oracle/src/lib.rs:1273-1318 | Columns, medians and formula together equal the specified finalization. |
| `HonestMajority.HonestMajoritySandwich` | contracts/verification_oracle/src/lib.rs:784-879 | With more than half of the readings honest, the total is at most what the honest extremes earn at best; if they are of good quality, the penalty is zero and the total at least what they earn at worst. |
| `HonestMajority.HonestPenalty` | contracts/verification_oracle/src/lib.rs:825-841 | An honest majority of good quality is never penalized. |
| `HonestMajority.MinorityCannotBlock` | contracts/verification_oracle/src/lib.rs:784-879 | A dishonest minority cannot make the arithmetic overflow where it fits at the honest extremes. |
| `HonestMajority.HalfIsNotEnough` | contracts/verification_oracle/src/lib.rs:464-493 | Whatever the honest half of an even number of readings is, the other half can take the median past any bound above it. |
| `HonestMajority.SubmissionOrderIrrelevant` | contracts/verification_oracle/src/lib.rs:1273-1318 | The order of submissions cannot change the outcome. |
| `Slashing.SlashWithinStake` | contracts/verification_oracle/src/lib.rs:499-509 | For every accepted configuration the clamp never panics and the cut lies between nothing and the stake. |
| `Slashing.SlashIsProportional` | contracts/verification_oracle/src/lib.rs:499-509 | The cut is the configured share of the stake, rounded down, between the configured bounds, the lower bound as far as the stake reaches below them, and the upper bound above. |
| `Slashing.SlashKeepsOrder` | contracts/verification_oracle/src/lib.rs:499-509 | A larger stake pays at least as much and keeps at least as much. |
| `VerificationOracle.Oracle.constructor` | contracts/verification_oracle/src/lib.rs:888-934 | The state of a new deployment. |
| `VerificationOracle.Oracle.AddOracle` | contracts/verification_oracle/src/lib.rs:999-1047 | Whitelists an oracle under the configured maximum and minimum stake, exactly as specified. |
| `VerificationOracle.Oracle.OracleHasOpenSubmissions` | contracts/verification_oracle/src/lib.rs:557-577 | The loop finds exactly whether the oracle has a marker in a listed project. |
| `VerificationOracle.Oracle.RemoveOracle` | contracts/verification_oracle/src/lib.rs:1051-1100 | Removes an unstaked, idle oracle above the minimum count; otherwise no effect. |
| `VerificationOracle.Oracle.UpdateConfig` | contracts/verification_oracle/src/lib.rs:1556-1612 | Accepts exactly the valid configurations that the live oracles can satisfy. |
| `VerificationOracle.Oracle.AddOpenProject` | contracts/verification_oracle/src/lib.rs:511-532 | Lists a project once, under the limit. |
| `VerificationOracle.Oracle.RemoveOpenProject` | contracts/verification_oracle/src/lib.rs:534-555 | Takes the project off the list and keeps the order of the rest. |
| `VerificationOracle.Oracle.OpenWindow` | contracts/verification_oracle/src/lib.rs:1943-1971 | Replaces a finished or missing window by a fresh one and lists the project; a full list undoes the write. |
| `VerificationOracle.Oracle.ClearMarkers` | contracts/verification_oracle/src/lib.rs:1636-1672 | Removes the markers of the given oracles for the project and no others. |
| `VerificationOracle.Oracle.ResetWindow` | contracts/verification_oracle/src/lib.rs:1617-1686 | Discards the window and its markers, leaves the list of open projects alone. |
| `VerificationOracle.Oracle.AppendResultHistory` | contracts/verification_oracle/src/lib.rs:360-386 | Stores result and summary at the next position of the project. |
| `VerificationOracle.Oracle.RecordContributions` | contracts/verification_oracle/src/lib.rs:388-394 | Bumps both counters of every contributor, once per submission. |
| `VerificationOracle.Oracle.MintCredits` | contracts/verification_oracle/src/lib.rs:607-672 | The split of a mint under the cap as the oracle sees the token. |
| `VerificationOracle.Oracle.ComputeResult` | contracts/verification_oracle/src/lib.rs:1273-1351 | Medians, formula and mint: the part of a finalization that can fail. |
| `VerificationOracle.Oracle.StoreResult` | contracts/verification_oracle/src/lib.rs:1353-1361 | Last result, history and contributions after a finalization. |
| `VerificationOracle.Oracle.Conclude` | contracts/verification_oracle/src/lib.rs:1273-1369 | One finalization, all or nothing. |
| `VerificationOracle.Oracle.GetResultHistory` | contracts/verification_oracle/src/lib.rs:1445-1469 | A page of results, ending at a wrapping sum. |
| `VerificationOracle.Oracle.GetResultSummaries` | contracts/verification_oracle/src/lib.rs:1481-1503 | A page of summaries, ending at a saturating sum. |
| `VerificationOracle.Oracle.AcceptDirect` | contracts/verification_oracle/src/lib.rs:1164-1270 | A direct submission, with the writes that a later panic undoes. |
| `VerificationOracle.Oracle.SubmitReading` | contracts/verification_oracle/src/lib.rs:1151-1385 | A direct submission and the finalization it may complete. |
| `VerificationOracle.Oracle.CommitReading` | contracts/verification_oracle/src/lib.rs:1985-2067 | A commit in the commit phase of an open window with the next nonce. |
| `VerificationOracle.Oracle.BeginRevealPhase` | contracts/verification_oracle/src/lib.rs:2071-2124 | Starts the reveal phase after the commit period if someone committed. |
| `VerificationOracle.Oracle.AcceptReveal` | contracts/verification_oracle/src/lib.rs:2128-2265 | A reveal within both deadlines that matches the stored digest and nonce. |
| `VerificationOracle.Oracle.FinalizeReveals` | contracts/verification_oracle/src/lib.rs:2392-2528 | Finalizes a commit-reveal window with enough readings and clears its reveal markers. |
| `VerificationOracle.Oracle.RevealReading` | contracts/verification_oracle/src/lib.rs:2128-2272 | A reveal and the finalization it may complete. |
| `VerificationOracle.Oracle.PenalizeOracle` | contracts/verification_oracle/src/lib.rs:2312-2385 | The penalty of one delinquent oracle, stake, payment, mark and commitment. |
| `VerificationOracle.Oracle.CutStake` | contracts/verification_oracle/src/lib.rs:2330-2380 | The proportional cut is taken from the stake and paid to the treasury. |
| `VerificationOracle.Oracle.PenalizeNonRevealers` | contracts/verification_oracle/src/lib.rs:2303-2388 | The penalty loop over the whitelist; one failed payment undoes all of it. |
| `VerificationOracle.Oracle.FinalizeWindow` | contracts/verification_oracle/src/lib.rs:2276-2301 | The penalty pass after the deadline and the finalization if the quorum was met. |
| `VerificationOracle.Oracle.AddStake` | contracts/verification_oracle/src/lib.rs:1705-1744 | Pulls tokens in and adds them to the stake, cancelling a pending request. |
| `VerificationOracle.Oracle.Unstake` | contracts/verification_oracle/src/lib.rs:1746-1785 | Reduces the stake and starts the cooldown; moves no tokens. |
| `VerificationOracle.Oracle.ClaimUnstake` | contracts/verification_oracle/src/lib.rs:1787-1831 | After the cooldown pays out the stake that is left and clears it. |
| `VerificationOracle.Oracle.SlashStake` | contracts/verification_oracle/src/lib.rs:1833-1886 | The administrator moves part of a stake to the treasury and records it. |
| `OracleSteps.Anatomy` | contracts/verification_oracle/src/lib.rs:1151-1385 | Every other committed call is one reading or one penalty pass, followed by at most one finalization. |
| `OracleSteps.StepIsTransition` | contracts/verification_oracle/src/lib.rs:999-2528 | What any call may do to windows, markers, roster, nonces and results. |
| `OracleWindows.WindowBound` | contracts/verification_oracle/src/lib.rs:1260-1272 | In every reachable state an open window has fewer than ten readings, a finished one one to ten, all plausible; whitelist, listing and count agree; the open list has no duplicates and lists only unfinished windows. |
| `OracleWindows.MediansNeverPanic` | contracts/verification_oracle/src/lib.rs:464-493 | Neither panic of the median is reachable: whatever a call aggregates has one to ten readings. |
| `OracleWindows.RunStaysSound` | contracts/verification_oracle/src/lib.rs:1151-2528 | The window and roster invariant is kept by every run from any sound state. |
| `OracleWindows.FixedQuorum` | contracts/verification_oracle/src/lib.rs:1272-1272 | While the quorum is not changed, every stored result has exactly that many readings. |
| `OracleWindows.DefaultQuorum` | contracts/verification_oracle/src/lib.rs:888-934 | A deployment that keeps its default stores only results of three readings. |
| `OracleWindows.ListingStaysCompleteExactly` | contracts/verification_oracle/src/lib.rs:1674-1685 | Every unfinished window stays listed under every call except a reset of a finished window, which makes an unlisted open one. |
| `OracleScenarios.ResetUnlists` | contracts/verification_oracle/src/lib.rs:1674-1685 | A run that finishes a window and resets it: it is open and not listed. |
| `OracleWindows.RemovalIsRefusedExactly` | contracts/verification_oracle/src/lib.rs:557-577 | An oracle that may otherwise go is kept exactly if a window it committed to or revealed in is unfinished and listed; with a complete listing, exactly if it is engaged in any unfinished window. A direct reading does not keep it. |
| `OracleScenarios.DirectReporterIsRemoved` | contracts/verification_oracle/src/lib.rs:1081-1083 | A run in which an oracle with a direct reading in a listed open window is removed. |
| `OracleScenarios.CommitterIsRemoved` | contracts/verification_oracle/src/lib.rs:1081-1083 | A run in which an oracle that committed to an open window, unlisted since a reset, can be removed. |
| `OracleAccountability.AtMostTwicePerWindow` | contracts/verification_oracle/src/lib.rs:1222-1225 | No oracle has more than two readings in any window of any run. |
| `OracleAdmission.ReadingsWereAdmitted` | contracts/verification_oracle/src/lib.rs:1164-1254 | In every run each reading in a window was sent there by its oracle, with that nonce and time, and was let in when it came: within bounds, and from an oracle then whitelisted and sufficiently staked. |
| `OracleAdmission.SettingsChangeByRight` | contracts/verification_oracle/src/lib.rs:999-1100 | Whitelist, configuration and projects change by the admin alone, within the configured numbers and stakes. |
| `OracleAdmission.OpenListGrowsWithin` | contracts/verification_oracle/src/lib.rs:511-532 | No call takes the list of open projects past its limit. |
| `OracleAdmission.ConfigurationStaysInBounds` | contracts/verification_oracle/src/lib.rs:1556-1612 | In every run the configuration is within the documented bounds, and the admin can set exactly those the whitelist can meet. |
| `OracleAdmission.RevealPhaseBeginsExactly` | contracts/verification_oracle/src/lib.rs:2071-2124 | The reveal phase begins exactly if the commit phase, with its wrapping end, is over and some listed oracle has committed. |
| `OracleAdmission.StakesFallByRight` | contracts/verification_oracle/src/lib.rs:1705-1886 | A stake falls only by its oracle's unstake or claim, by a recorded slash of the admin within it, in a penalty pass, or by an `i128` overflow; an unstake leaves a whitelisted oracle its minimum. |
| `OracleAdmission.ClaimDisarms` | contracts/verification_oracle/src/lib.rs:1805-1831 | The claim that follows does not: the oracle stays whitelisted with nothing at stake and, if a minimum is asked for, every path refuses it. |
| `OracleLifetimes.TwiceExactlyWithBothFreshMarkers` | contracts/verification_oracle/src/lib.rs:1222-1225 | In every run an oracle has two readings in an unfinished window exactly if both its markers are set and the window found neither; at most one if either marker is missing. |
| `OracleLifetimes.SecondReadingGetsIn` | contracts/verification_oracle/src/lib.rs:2175-2214 | In every run the second reading is accepted whenever the first belongs to the window and the other path is open to the oracle and unused, in either order. |
| `OracleLifetimes.RevealIsSecondReading` | contracts/verification_oracle/src/lib.rs:2175-2214 | After one direct reading a reveal is accepted, as a second reading, exactly if the commitment can be opened now and no reveal is marked. |
| `OracleLifetimes.SubmitIsSecondReading` | contracts/verification_oracle/src/lib.rs:1164-1254 | After one revealed reading a direct submission is accepted, as a second reading, exactly if the guards hold and none is marked. |
| `OracleScenarios.OneOracleTwiceInAWindow` | contracts/verification_oracle/src/lib.rs:2194-2197 | A run from deployment in which one oracle has two readings in one window. |
| `OracleLifetimes.DirectPathIsSpentExactly` | contracts/verification_oracle/src/lib.rs:1222-1225 | In every run an oracle is marked, and refused, exactly if it submitted directly and no committed reset has reached it since; a reset reaches the whitelisted oracles and the reporters of the window it throws away. |
| `OracleLifetimes.StepMarker` | contracts/verification_oracle/src/lib.rs:1634-1672 | One call sets the marker exactly if it is an accepted submission, and removes it exactly if it is such a reset. |
| `OracleScenarios.ResetMissesTheRemoved` | contracts/verification_oracle/src/lib.rs:1634-1672 | A run in which an oracle that reported, was removed and came back is still refused after a reset. |
| `OracleLifetimes.RevealIsOfThisWindowExactly` | contracts/verification_oracle/src/lib.rs:2185-2197 | An accepted reveal opens a commitment made for the same window exactly if the window did not find one of that oracle when it began. |
| `OracleScenarios.OldCommitmentIsRevealed` | contracts/verification_oracle/src/lib.rs:1353-1369 | A run in which a commitment survives a direct finalization and is revealed in the next window. |
| `OracleReveals.PenaltyIsOfThisWindowExactly` | contracts/verification_oracle/src/lib.rs:2303-2388 | In every run `finalize_window` takes the commitment of each oracle that missed its reveal, for one mark and one cut; the commitment was made in that window exactly if the window did not find it. |
| `OracleScenarios.OldCommitmentIsPenalized` | contracts/verification_oracle/src/lib.rs:2303-2388 | A run in which an oracle is penalized in a window for a commitment it made to the one before. |
| `OracleReveals.RevealPathIsSpentExactly` | contracts/verification_oracle/src/lib.rs:2039-2042 | In every run an oracle is marked as having revealed exactly if it has and neither a reset nor a finalization on the commit-reveal path has reached it since; while marked it can neither commit nor reveal, in whatever window. |
| `OracleReveals.StepRevealMarker` | contracts/verification_oracle/src/lib.rs:2507-2520 | One call sets the reveal marker exactly by an accepted reveal, and removes it exactly by a reset or commit-reveal finalization that reaches the oracle. |
| `OracleScenarios.RevealedIsLockedOut` | contracts/verification_oracle/src/lib.rs:2190-2197 | A run in which a whitelisted oracle that revealed before a direct finalization can neither commit to the next window nor reveal in it. |
| `OracleAccountability.PenalizeEachTrades` | contracts/verification_oracle/src/lib.rs:2303-2388 | The penalty loop turns pending commitments into missed reveals one for one. |
| `OracleAccountability.CommitmentsAccountedFor` | contracts/verification_oracle/src/lib.rs:1985-2388 | In every run accepted reveals, penalties and pending commitments of an oracle are at most its commits. |
| `OracleAccountability.NoncesCountAcceptances` | contracts/verification_oracle/src/lib.rs:1202-1208 | The stored nonce is the number of accepted direct submissions and commits; the next accepted one carries its successor, so none is used twice on either path. |
| `OracleDeadlines.PassChargesDelinquents` | contracts/verification_oracle/src/lib.rs:2303-2388 | A pass marks each delinquent listed oracle once, however often it is listed, and consumes exactly its commitment. |
| `OracleDeadlines.PassCutsOnce` | contracts/verification_oracle/src/lib.rs:2342-2363 | Each of them loses exactly one proportional cut of the stake it came with. |
| `OracleReveals.MissedRevealsPayTheTreasury` | contracts/verification_oracle/src/lib.rs:2303-2388 | With stakes covered, `finalize_window` takes the configured share from each oracle that missed its reveal, nothing from others, and the treasury receives what the stakes lost. |
| `StakeScenarios.MissedRevealCostsATenth` | contracts/verification_oracle/src/lib.rs:2303-2388 | A run from deployment in which a missed reveal costs a tenth of any stake of at least ten units, paid to the treasury. |
| `OracleDeadlines.PassRecordsReason` | contracts/verification_oracle/src/lib.rs:2342-2363 | Each cut is recorded with the reason of a missed reveal and its time. |
| `OracleDeadlines.FinalizeWindowPenalizesExactly` | contracts/verification_oracle/src/lib.rs:2276-2388 | `finalize_window` penalizes exactly the listed oracles that committed and did not reveal. |
| `OracleDeadlines.PenaltyOnlyAfterDeadline` | contracts/verification_oracle/src/lib.rs:2292-2296 | Nobody is penalized except by `finalize_window`, in the reveal phase, past the computed deadline, for a commitment of its own. |
| `OracleDeadlines.DeadlineIsRealExactlyWithoutWrap` | contracts/verification_oracle/src/lib.rs:2292-2296 | The computed deadline is the intended one in all later ledgers exactly if the `u32` sum does not wrap. |
| `OracleDeadlines.DelayIsRealExactly` | contracts/verification_oracle/src/lib.rs:2174-2181 | Every reveal accepted after the phase began has waited for the configured delay exactly if that `u32` sum does not wrap, or the sum for the deadline wraps and shuts reveals out. |
| `OracleDeadlines.CommitPhaseIsRealExactly` | contracts/verification_oracle/src/lib.rs:2086-2090 | The reveal phase begins only after the configured commit phase exactly if that `u64` sum does not wrap. |
| `OracleScenarios.LongestPeriodPenalizesAtOnce` | contracts/verification_oracle/src/lib.rs:2292-2296 | With the longest period that can be configured, in every ledger but the first, an oracle is penalized in the ledger the reveal phase began. |
| `OracleScenarios.LongestDelayRevealsAtOnce` | contracts/verification_oracle/src/lib.rs:2174-2181 | With the longest delay that can be configured a reveal is accepted in the ledger the phase began. |
| `OracleScenarios.LongestPhaseEndsAtOnce` | contracts/verification_oracle/src/lib.rs:2086-2090 | With the longest commit phase that can be configured the reveal phase begins in the second the window was opened. |
| `OracleDeadlines.NoRevealAfterPenaltyPass` | contracts/verification_oracle/src/lib.rs:2175-2181 | After a penalty pass no reveal on that window is accepted in the same or any later ledger. |
| `OracleDeadlines.CommitmentsComeFromCalls` | contracts/verification_oracle/src/lib.rs:2044-2060 | Every stored commitment was made by a commit call of that oracle for that project. |
| `OracleDeadlines.RevealOpensTheCommitment` | contracts/verification_oracle/src/lib.rs:2200-2214 | With a collision-free hash an accepted reveal carries exactly the committed nonce, reading and salt. |
| `OracleStakes.StakesAreCovered` | contracts/verification_oracle/src/lib.rs:1705-1886 | In every run the contract holds exactly the recorded stakes, its initial surplus, all amounts requested through `unstake`, and gifts. |
| `OracleStakes.PenalizeEachMoves` | contracts/verification_oracle/src/lib.rs:2303-2388 | Through the penalty loop, stakes and treasury together are conserved. |
| `OracleStakes.PassGoesThrough` | contracts/verification_oracle/src/lib.rs:2303-2388 | With stakes covered and no overflow, no penalty fails for lack of tokens. |
| `OracleStakes.SlashKeepsCover` | contracts/verification_oracle/src/lib.rs:1851-1871 | Every unit slashed by the administrator arrives at the treasury. |
| `OracleStakes.DeploymentIsCovered` | contracts/verification_oracle/src/lib.rs:888-934 | A new deployment satisfies the invariant. |
| `OracleStakes.ClaimIsAlwaysPaid` | contracts/verification_oracle/src/lib.rs:1787-1831 | A claim is paid exactly if its cooldown has passed: lack of tokens is never the obstacle. |
| `OracleStakes.UnstakeThenClaimPaysTheRest` | contracts/verification_oracle/src/lib.rs:1775-1804 | A claim after `unstake` commits exactly at the stored end of the cooldown and pays the stake that was left; that is the requested amount exactly if it was half of the stake, and the requested amount stays in the contract. |
| `StakeScenarios.OtherPartIsPaid` | contracts/verification_oracle/src/lib.rs:1775-1804 | A run in which an oracle that asks for a part of its stake is paid the other part and the requested one stays in the contract. |
| `OracleCooldown.ClaimWaitsForCooldown` | contracts/verification_oracle/src/lib.rs:1776-1802 | In every run a claim goes through only after an `unstake` not yet superseded, and no earlier than its time plus the cooldown configured then, unless that sum wraps. |
| `OracleCooldown.CooldownIsRealExactly` | contracts/verification_oracle/src/lib.rs:1776-1802 | In every run that leaves a request open, all claims it allows from then on wait for the whole cooldown exactly if the `u64` sum does not wrap, or wraps to zero, which is never claimable. |
| `StakeScenarios.LongestCooldownIsNone` | contracts/verification_oracle/src/lib.rs:1776-1802 | A run in which, under the longest cooldown that can be configured, the claim goes through in the second of the request. |
| `OracleHistory.EveryReadingAccountedFor` | contracts/verification_oracle/src/lib.rs:1210-1219 | Results, summaries and last result agree; finalized counts sum to the readings behind results; total submissions equal those plus open windows plus readings discarded by resets. |
| `OracleHistory.BumpTotal` | contracts/verification_oracle/src/lib.rs:388-394 | Recording contributions raises the sum of the counters by the number of submissions. |
| `OracleHistory.CountersAreOwn` | contracts/verification_oracle/src/lib.rs:388-394 | In every run an oracle's counter is the number of its own readings behind the stored results. |
| `OracleHistory.EverySummaryTells` | contracts/verification_oracle/src/lib.rs:358-384 | In every run each stored summary has the total, the minted amount, the number of readings and the time of its result. |
| `OracleHistory.ResultPageIsSlice` | contracts/verification_oracle/src/lib.rs:1445-1469 | Short of a wrap, a page of results is the matching slice of the log. |
| `OracleHistory.SummaryPageIsSlice` | contracts/verification_oracle/src/lib.rs:1481-1503 | A page of summaries always is the projected slice. |
| `OracleHistory.PagesMatchExactly` | contracts/verification_oracle/src/lib.rs:1445-1503 | For any stored history the two pages match exactly if offset plus limit does not wrap or nothing is stored at the offset. |
| `OracleHistory.PagesMatchInEveryRun` | contracts/verification_oracle/src/lib.rs:1445-1503 | In every run of at most 2^64 - 2^32 calls the two pages match for every offset and limit. |
| `OracleHistory.StoredResultIsComputed` | contracts/verification_oracle/src/lib.rs:1273-1361 | A stored result is the formula applied to the medians of the window that stays behind. |
| `OracleHistory.StoredResultIsEarned` | contracts/verification_oracle/src/lib.rs:1273-1361 | What is stored is what the middle reading of the window earns, by the roundings and the costs above, under the configuration and the baselines of its project. |
| `OracleHistory.StoredResultIsSandwiched` | contracts/verification_oracle/src/lib.rs:1273-1361 | The honest-majority sandwich for what the contract actually stores. |
| `OracleCoalitions.CoalitionIsSandwiched` | contracts/verification_oracle/src/lib.rs:1273-1361 | The sandwich in terms of oracles: liars with at most k readings each, together less than half of the window, cannot push the stored total out. |
| `OracleCoalitions.FewLiarsAreSandwiched` | contracts/verification_oracle/src/lib.rs:1273-1361 | In every run that holds for liars that are fewer than a quarter of the readings. |
| `OracleScenarios.OneLiarDecides` | contracts/verification_oracle/src/lib.rs:1273-1361 | A run in which one of two reporting oracles decides a result of three readings. |
| `CappedMint.MintCredits` | contracts/verification_oracle/src/lib.rs:607-672 | The capped two-way mint carried out by the real token; a failing second mint undoes the first. |
| `CappedMint.ViewIsFaithful` | contracts/verification_oracle/src/lib.rs:618-619 | The oracle model's view of the token and the real token agree on every mint. |
| `CappedMint.CappedMintExactly` | contracts/verification_oracle/src/lib.rs:607-672 | Beneficiary and fee together get the smaller of total and room, or all of it without a cap, fee rounded down, exactly if that also fits beside the bridged-out credits. |
| `CappedMint.NothingBridgedNeverPanics` | contracts/verification_oracle/src/lib.rs:586-588 | With nothing bridged out, or no cap, the mint never breaks a finalization. |
| `CappedMint.FinalizationNeedsRoom` | contracts/verification_oracle/src/lib.rs:1333-1351 | A computed window can be finalized exactly if its credits fit beside what is bridged out, and its result records what was minted. |
| `CappedMint.BridgedCreditsBlockTheMint` | contracts/verification_oracle/src/lib.rs:586-588 | A reachable token with 50 credits of room on which any result of 41 or more reverts: the documented promise fails. |
| `CappedMint.BatchOvershootsAfterBridging` | contracts/credit_token/src/lib.rs:530-532 | A reachable token on which an accepted batch mint takes supply and bridged credits past the cap. |
| `Preimages.CommitmentPreimageInjective` | contracts/verification_oracle/src/lib.rs:409-433 | The commitment preimage determines nonce, all seven signed values and salt. |
| `Preimages.CommitmentLayout` | contracts/verification_oracle/src/lib.rs:396-433 | The preimage is the nonce, pH, turbidity, oxygen, flow, temperature, nitrogen and phosphorus as eight-byte words in this order, and the salt. |
| `Preimages.BuildProjectPreimage` | contracts/shared/src/lib.rs:97-146 | Appends to a buffer step by step; over-long texts panic. |
| `Preimages.ProjectPreimageInjective` | contracts/shared/src/lib.rs:97-146 | The project-id preimage determines all its inputs, for every split of name and methodology. |
| `Preimages.ProjectLayout` | contracts/shared/src/lib.rs:110-146 | It is the count, name and methodology each behind its four-byte length, latitude, longitude and area, in this order. |
| `Bytes.BigEndianInjective` | contracts/shared/src/lib.rs:118-140 | Fixed-width big-endian encodings are injective. |
| `Bytes.BigEndianDigit` | contracts/shared/src/lib.rs:118-140 | Byte i of an n-byte encoding is the digit of weight 256^(n-1-i). |
| `Bytes.TwosComplementInjective` | contracts/verification_oracle/src/lib.rs:421-430 | So are the two's-complement encodings of signed values. |
| `CreditMarketplace.Market.constructor` | contracts/credit_marketplace/src/lib.rs:349-367 | A market without orders, under the maximum fee. |
| `CreditMarketplace.Market.CreateOrder` | contracts/credit_marketplace/src/lib.rs:447-589 | Takes the escrow, stores the order under the next id and lists it for its maker. |
| `CreditMarketplace.Market.SettleFill` | contracts/credit_marketplace/src/lib.rs:256-316 | The three payments of a fill, with partial payments undone on failure. |
| `CreditMarketplace.Market.InternalFillOrder` | contracts/credit_marketplace/src/lib.rs:230-343 | One fill: guards, floored cost and fee, payments, status and list. |
| `CreditMarketplace.Market.StoreFill` | contracts/credit_marketplace/src/lib.rs:318-330 | The order after a fill, taken off its maker's list when complete. |
| `CreditMarketplace.Market.FillOrder` | contracts/credit_marketplace/src/lib.rs:592-597 | A fill in an unpaused market. |
| `CreditMarketplace.Market.BatchFillOrders` | contracts/credit_marketplace/src/lib.rs:599-616 | A batch of fills, all or nothing. |
| `CreditMarketplace.Market.CancelOrder` | contracts/credit_marketplace/src/lib.rs:618-670 | Refunds the remainder and closes the order; a refund that rounds to nothing panics. |
| `MarketSafety.EscrowSolvency` | contracts/credit_marketplace/src/lib.rs:230-343 | Over every run the market holds, of every token, at least what its open orders are owed. |
| `MarketSafety.FreshMarketIsSolvent` | contracts/credit_marketplace/src/lib.rs:349-367 | A new market is solvent. |
| `MarketSafety.FillMovesExactly` | contracts/credit_marketplace/src/lib.rs:249-315 | A fill moves exactly the cost, which is the price of the amount in units of ten million, split into payout and the fee, its configured share, both rounded down, and the credits, whoever coincides with whom. |
| `MarketSafety.CostRounds` | contracts/credit_marketplace/src/lib.rs:197-211 | There is a cost exactly if the product fits and is worth one unit, and it is the product in units of ten million, rounded down. |
| `MarketTerms.OrdersHaveTheirTerms` | contracts/credit_marketplace/src/lib.rs:447-590 | In every run each order stands on exactly the terms of the accepted call that placed it. |
| `MarketTerms.MarketChangesByRight` | contracts/credit_marketplace/src/lib.rs:385-430 | Orders are placed and filled only while not paused; fee, recipient and pause change by the admin alone, the fee to at most ten per cent. |
| `MarketSafety.WorthSplit` | contracts/credit_marketplace/src/lib.rs:197-211 | Flooring a fill and the rest separately loses at most one unit and never gains. |
| `MarketSafety.CancelNeverLacksFunds` | contracts/credit_marketplace/src/lib.rs:618-670 | A cancellation goes through exactly if the order is the maker's, live, and its refund does not round to nothing. |
| `MarketSafety.BuyFillNeverLacksFunds` | contracts/credit_marketplace/src/lib.rs:291-315 | A buy order can be filled exactly if the amount is there, worth a unit, and the taker has the credits. |
| `MarketSafety.SellFillNeverLacksFunds` | contracts/credit_marketplace/src/lib.rs:262-289 | A sell order can be filled exactly if the amount is there, worth a unit, and the taker can make the two payments. |
| `MarketSafety.DustBound` | contracts/credit_marketplace/src/lib.rs:197-211 | However an amount is split, flooring loses less than one unit per part. |
| `MarketSafety.FilledIsSumOfFills` | contracts/credit_marketplace/src/lib.rs:318-330 | In every run an order is filled by exactly the sum of its fills, alone or in batches; its terms never change. |
| `MarketSafety.DustOfEveryBuyOrder` | contracts/credit_marketplace/src/lib.rs:536-547 | What a buy order brought in, less its fills and what is still owed, is between 0 and k after k fills, and at most k-1 once filled. |
| `MarketLedger.HoldingsAreAccountedFor` | contracts/credit_marketplace/src/lib.rs:230-343 | In every run of a new market it holds exactly what open orders are owed, the dust of each buy order, what it held at the start, and fees and gifts; the dust of an order is between 0 and k after k fills, at most k-1 once filled. |
| `MarketLedger.FillSurplus` | contracts/credit_marketplace/src/lib.rs:249-330 | One fill adds exactly its rounding dust, and a fee paid to the market itself, to what is held beyond the orders. |
| `MarketSafety.TinyRemainderIsStuck` | contracts/credit_marketplace/src/lib.rs:649-661 | A buy order whose remainder is worth less than one unit can never again be filled or cancelled. |
| `MarketSafety.FillStrandsExactly` | contracts/credit_marketplace/src/lib.rs:197-211 | When a fill leaves such a remainder, exactly. |
| `MarketSafety.OrderGetsStuck` | contracts/credit_marketplace/src/lib.rs:649-661 | A run of two calls from deployment that strands a buy order. |
| `MarketSafety.OpenOrderListsAreExact` | contracts/credit_marketplace/src/lib.rs:151-170 | In every run a maker's list names exactly that maker's live orders, once each, at most fifty. |
| `Lists.Remove` | contracts/credit_marketplace/src/lib.rs:160-170 | The copy loop removes one entry and keeps the order of the rest. |
| `Banks.PayEffect` | contracts/credit_marketplace/src/lib.rs:172-190 | A payment moves the amount between two accounts and changes nothing else. |
| `Banks.PayConserves` | contracts/verification_oracle/src/lib.rs:1718-1732 | A payment keeps every token's supply and creates no debts. |
| `CreditToken.Token.constructor` | contracts/credit_token/src/lib.rs:226-260 | An empty token. |
| `CreditToken.Token.MintTo` | contracts/credit_token/src/lib.rs:464-508 | A mint by minter or admin under the cap on supply plus bridged credits. |
| `CreditToken.Token.BatchMintTo` | contracts/credit_token/src/lib.rs:510-541 | A batch of mints, all or nothing, under the cap on the supply alone. |
| `CreditToken.Token.Burn` | contracts/credit_token/src/lib.rs:545-587 | A burn by the admin, or by the bridge from itself into the bridged amount. |
| `CreditToken.Token.BurnWithReason` | contracts/credit_token/src/lib.rs:589-612 | A burn by the admin. |
| `CreditToken.Token.Transfer` | contracts/credit_token/src/lib.rs:615-634 | Reads both balances before writing either. |
| `CreditToken.Token.BatchTransfer` | contracts/credit_token/src/lib.rs:636-671 | Debits the checked sum first, then credits one recipient after another. |
| `CreditToken.Token.TransferFrom` | contracts/credit_token/src/lib.rs:673-704 | A transfer against an unexpired allowance. |
| `CreditToken.Token.Approve` | contracts/credit_token/src/lib.rs:706-726 | Sets an allowance that is not already expired. |
| `CreditToken.Token.Retire` | contracts/credit_token/src/lib.rs:728-817 | Takes credits out of circulation and files a certificate, recorded by the registry if one is set. |
| `TokenConservation.Conservation` | contracts/credit_token/src/lib.rs:464-768 | Over every run without self-transfers balances sum to the supply, supply, retired and burned sum to ever minted, and nothing is negative or out of range. |
| `TokenConservation.FreshTokenConserves` | contracts/credit_token/src/lib.rs:226-260 | The same from a new token. |
| `TokenConservation.TransferConservesUnlessToSelf` | contracts/credit_token/src/lib.rs:622-628 | A transfer conserves the sum of balances exactly unless sender and recipient coincide. |
| `TokenConservation.SelfTransferBreaksSupply` | contracts/credit_token/src/lib.rs:622-628 | A concrete run in which a self-transfer creates a credit and the supply becomes negative. |
| `TokenConservation.BatchTransferEffect` | contracts/credit_token/src/lib.rs:656-669 | Every account changes by its credits less the total if it is the sender, whoever is named how often. |
| `TokenConservation.BatchMintEffect` | contracts/credit_token/src/lib.rs:523-541 | A batch mint credits every recipient the sum of its entries and raises supply and ever minted by the whole. |
| `TokenConservation.UncheckedArithmeticIsSafe` | contracts/credit_token/src/lib.rs:761-768 | The unchecked subtraction and addition of `retire` never wrap. |
| `TokenConservation.IdentityModuloWidth` | contracts/credit_token/src/lib.rs:464-768 | Even with self-transfers the supply identity holds modulo 2^128 in every run. |
| `TokenConservation.RetirementsAreCertified` | contracts/credit_token/src/lib.rs:790-809 | The certificates sum to the retired total and are numbered without gaps. |
| `TokenConservation.BridgedCreditsAreConserved` | contracts/credit_token/src/lib.rs:485-581 | Circulating, retired and bridged credits plus native burns equal native mints, and the bridged amount is never negative. |
| `TokenConservation.StepUnderJointCap` | contracts/credit_token/src/lib.rs:471-532 | While the cap stays, no call but an overshooting batch mint takes supply and bridged credits together past it. |
| `TokenConservation.JointCapHolds` | contracts/credit_token/src/lib.rs:471-532 | In every run without such a batch, supply and bridged credits stay under the cap together. |
| `TokenConservation.BatchMintCap` | contracts/credit_token/src/lib.rs:530-532 | A batch does so exactly if the bridged credits fit as well. |
| `TokenConservation.BatchMintIgnoresBridged` | contracts/credit_token/src/lib.rs:530-532 | Whenever anything is bridged out, a batch can take the two together past the cap by that much. |
| `TokenAuthority.BalancesChange` | contracts/credit_token/src/lib.rs:464-817 | What each call changes in each balance, coinciding and repeated accounts included. |
| `TokenAuthority.BalanceFallsByRight` | contracts/credit_token/src/lib.rs:545-817 | A balance falls only by its owner, by an allowance that covers the amount and has not expired, by a burn of the admin, or by the bridge burning its own; and only burns go on during a pause. |
| `TokenAuthority.MintingIsByRight` | contracts/credit_token/src/lib.rs:464-543 | Credits are minted only by the admin or the minter, not during a pause, and by the bridge only up to what is bridged out. |
| `TokenAuthority.AllowanceIsWhatIsLeft` | contracts/credit_token/src/lib.rs:673-726 | In every run an allowance is what was last approved less what was drawn since, never below zero. |
| `TokenAuthority.DrawingGoesThroughExactly` | contracts/credit_token/src/lib.rs:673-704 | In every run a transfer by allowance goes through exactly if what is left covers it, it has not expired, the owner has the credits and nothing is paused. |
| `TokenAuthority.RetirementIsCertified` | contracts/credit_token/src/lib.rs:728-817 | A retirement is certified with everything it was asked for and the registry's record, which is required as configured. |
| `TokenAuthority.CertificatesStay` | contracts/credit_token/src/lib.rs:790-809 | No certificate is ever changed or taken back. |
| `CreditBridge.Bridge.constructor` | contracts/credit_bridge/src/lib.rs:39-64 | A bridge with no processed messages and a threshold its list could meet. |
| `CreditBridge.Bridge.UpdateRelayers` | contracts/credit_bridge/src/lib.rs:66-86 | Sets relayers and a threshold between one and their number. |
| `CreditBridge.Bridge.Deposit` | contracts/credit_bridge/src/lib.rs:144-182 | Pulls the credits in and burns them into the bridged amount, or nothing. |
| `CreditBridge.Bridge.IsRelayer` | contracts/credit_bridge/src/lib.rs:241-252 | The search loop finds exactly whether a key is a relayer. |
| `CreditBridge.Bridge.CheckSigners` | contracts/credit_bridge/src/lib.rs:219-259 | The loop accepts exactly ascending relayer keys with valid signatures. |
| `CreditBridge.Bridge.Withdraw` | contracts/credit_bridge/src/lib.rs:184-277 | Honours a fresh, sufficiently signed message by a mint to its recipient, or nothing. |
| `BridgeSafety.WithdrawNeedsQuorum` | contracts/credit_bridge/src/lib.rs:205-259 | An accepted withdrawal carries valid signatures of at least `threshold` distinct current relayers. |
| `BridgeSafety.AscendingIsDistinct` | contracts/credit_bridge/src/lib.rs:229-239 | Strictly ascending keys are distinct. |
| `BridgeSafety.QuorumCanBePresented` | contracts/credit_bridge/src/lib.rs:219-259 | Signer lists that pass exist exactly if that many distinct relayers signed. |
| `BridgeSafety.RepeatedRelayersCanBlock` | contracts/credit_bridge/src/lib.rs:66-86 | When all relayers sign, the quorum is reachable exactly if the threshold is at most the number of distinct relayers. |
| `BridgeSafety.RepeatedRelayersExample` | contracts/credit_bridge/src/lib.rs:66-86 | An accepted relayer list with a repeated key under which no message can ever be honoured. |
| `BridgeSafety.HonouredAtMostOnce` | contracts/credit_bridge/src/lib.rs:205-213 | In every run each message digest is honoured at most once. |
| `BridgeSafety.OtherMessagesUnaffected` | contracts/credit_bridge/src/lib.rs:205-259 | Honouring one message uses up no other. |
| `BridgeSafety.WithdrawalsAreBacked` | contracts/credit_bridge/src/lib.rs:144-259 | In every run withdrawals are backed: bridged-out credits change by exactly deposits less withdrawals. |
| `BridgeSafety.DepositEffect` | contracts/credit_bridge/src/lib.rs:144-182 | A deposit turns the depositor's circulating credits into bridged ones and touches no other account. |
| `BridgeSafety.SystemStaysSound` | contracts/credit_bridge/src/lib.rs:144-259 | The token stays sound through every run of bridge and token calls. |
| `BridgeSafety.WithdrawalMustFitTheCapTwice` | contracts/credit_bridge/src/lib.rs:184-277 | With a cap set, a withdrawal goes through exactly if it is addressed to this chain and token, new, signed by the threshold, nothing is paused, the amount is backed, and it fits on top of supply and bridged credits together. |
| `BridgeSafety.HonoursOnlyItsOwn` | contracts/credit_bridge/src/lib.rs:195-203 | In every run whatever message is honoured names this chain and the token the bridge was set up for. |
| `BridgeSafety.BridgeChangesByRight` | contracts/credit_bridge/src/lib.rs:66-134 | Deposits and withdrawals only while not paused; relayers change by the admin within accepted thresholds, the pause by admin or governance. |
| `BridgeSafety.NonceCountsDeposits` | contracts/credit_bridge/src/lib.rs:166-182 | The outbound nonce counts the deposits of every run. |
| `BridgeSafety.NothingComesBack` | contracts/credit_bridge/src/lib.rs:261-271 | A run after which every withdrawal reverts, however well signed, although the credits were sent out from under the cap. |
| `AddressCodec.AddressToBytes` | contracts/credit_bridge/src/lib.rs:329-349 | Copies the last 32 bytes of the XDR form (sections 4.9 and 4.15 of RFC 4506) and tells the kinds apart by length. |
| `AddressCodec.XdrLayout` | contracts/credit_bridge/src/lib.rs:329-373 | The XDR form of an address is the words 18 and 1, or 18, 0 and 0, and the payload. |
| `AddressCodec.MappingIsLossless` | contracts/credit_bridge/src/lib.rs:329-373 | Addresses and pairs of kind and payload correspond one to one. |
| `RetirementRegistry.Registry.constructor` | contracts/retirement_registry/src/lib.rs:79-95 | An empty registry. |
| `RetirementRegistry.Registry.RecordRetirement` | contracts/retirement_registry/src/lib.rs:97-202 | Files a record under the next id, in both indexes, and adds to the total. |
| `RetirementRegistry.Registry.IndexRetirement` | contracts/retirement_registry/src/lib.rs:143-185 | Appends the id to the retiree's and the project's positions. |
| `RetirementRegistry.Registry.SetAuthorizedCaller` | contracts/retirement_registry/src/lib.rs:226-242 | The admin sets who may record. |
| `RetirementRegistry.Registry.GetRetirementsByRetiree` | contracts/retirement_registry/src/lib.rs:244-275 | The loop over the index answers the page of the filtered log. |
| `RetirementRegistry.Registry.GetRetirementsByProject` | contracts/retirement_registry/src/lib.rs:278-308 | Likewise for a project. |
| `RegistryRefinement.IndexesRefineLog` | contracts/retirement_registry/src/lib.rs:118-193 | In every run ids are 1 to count, the total is the log's, and each index lists exactly the ids that filtering the log gives, in order. |
| `RegistryRefinement.LogIsAppendOnly` | contracts/retirement_registry/src/lib.rs:118-193 | Later calls only append to the log. |
| `RegistryRefinement.RecordsAreByRight` | contracts/retirement_registry/src/lib.rs:97-242 | The log grows only by an authorized caller, by exactly the record asked for; and only the admin authorizes. |
| `RegistryRefinement.SliceIsPage` | contracts/retirement_registry/src/lib.rs:244-275 | A page is the plain slice unless offset plus limit wraps, and then empty. |
| `RegistryRefinement.PagesRebuild` | contracts/retirement_registry/src/lib.rs:244-308 | Concatenated pages rebuild the filtered log. |
| `RetirementLink.RetireThroughRegistry` | contracts/credit_token/src/lib.rs:728-817 | The token and the registry retire together: one panic undoes both. |
| `RetirementLink.CertificatesMirrorRecords` | contracts/credit_token/src/lib.rs:770-809 | In every run of a linked pair the token's certificates are exactly its registry records, in order, and its retired total is the sum of their amounts. |
| `RetirementLink.NewPairIsMirrored` | contracts/retirement_registry/src/lib.rs:79-95 | A newly linked pair satisfies that. |
| `Governance.Contract.RemoveFromActive` | contracts/governance/src/lib.rs:1109-1125 | The copy loop drops the id and keeps the order of the rest. |
| `Governance.Contract.Propose` | contracts/governance/src/lib.rs:394-485 | A new pending proposal with a snapshot of members and weight, if a slot is free. |
| `Governance.Contract.Vote` | contracts/governance/src/lib.rs:487-640 | One vote per member on an open proposal, and the decision it may trigger, with wrapping weights. |
| `Governance.Contract.RecordVote` | contracts/governance/src/lib.rs:527-640 | Counts the vote and resolves the proposal once the quorum is met. |
| `Governance.Contract.ResolveProposal` | contracts/governance/src/lib.rs:599-638 | Approves with a timelock or rejects and frees the slot. |
| `Governance.Contract.Execute` | contracts/governance/src/lib.rs:642-740 | After the timelock dispatches the actions, all or nothing unless partial execution is allowed. |
| `Governance.Contract.CancelProposal` | contracts/governance/src/lib.rs:742-788 | Proposer or admin withdraw a proposal and free its slot. |
| `Governance.Contract.ExpireProposal` | contracts/governance/src/lib.rs:790-822 | Anyone closes a proposal whose voting period is over. |
| `Governance.Contract.UpdateConfig` | contracts/governance/src/lib.rs:824-833 | Accepts exactly valid configurations. |
| `Governance.Contract.AddMember` | contracts/governance/src/lib.rs:848-875 | Adds a new member and counts it. |
| `Governance.Contract.RemoveMember` | contracts/governance/src/lib.rs:877-903 | Removes a member other than the last. |
| `GovernanceSafety.EveryRunConsistent` | contracts/governance/src/lib.rs:394-817 | In every run the active list is duplicate-free, at most 100 long and exactly the pending, active and approved proposals; tallies count the recorded voters. |
| `GovernanceSafety.VotesWithinSnapshot` | contracts/governance/src/lib.rs:511-541 | While no governance token was set, no proposal has more votes than members at its creation. |
| `GovernanceSafety.StatusNeverGoesBack` | contracts/governance/src/lib.rs:503-509 | Status rank never decreases and terminal proposals never change. |
| `GovernanceSafety.DispatchedAtMostOnce` | contracts/governance/src/lib.rs:642-740 | In every run a proposal's actions are dispatched at most once, and once exactly if it ends up executed. |
| `GovernanceSafety.TimelockComesFromVote` | contracts/governance/src/lib.rs:599-630 | An approved proposal carries its approving vote's time plus the timelock configured then. |
| `GovernanceSafety.ExecutionWaitsForTimelock` | contracts/governance/src/lib.rs:656-672 | Every execution comes no earlier than that. |
| `GovernanceSafety.ApprovalIsExact` | contracts/governance/src/lib.rs:562-617 | The rounded tests decide exactly cast*10000 >= quorum*min(snapshot, members) and for*10000 >= threshold*cast. |
| `GovernanceSafety.WeightedApprovalIsExact` | contracts/governance/src/lib.rs:562-617 | With a governance token the same of the weights cast and the yes weight, while sums and products fit `i128`. |
| `GovernanceSafety.CountQuorumExact` | contracts/governance/src/lib.rs:580-597 | The rounded-up quorum decides the exact comparison. |
| `GovernanceSafety.WeightQuorumExact` | contracts/governance/src/lib.rs:563-578 | So does the weighted one, while the product fits `i128`. |
| `GovernanceSafety.ShareExact` | contracts/governance/src/lib.rs:601-617 | So does the rounded-down share of yes votes. |
| `GovernanceSafety.WeightShareExact` | contracts/governance/src/lib.rs:601-610 | And the rounded-down share of the yes weight, while the product fits. |
| `GovernanceTerms.ProposalsKeepTheirTerms` | contracts/governance/src/lib.rs:394-470 | In every run a proposal has exactly the proposer, title, actions and mode it was made with, the closing time of that moment, and the members and weight eligible then. |
| `GovernanceTerms.CountsAreVotesCast` | contracts/governance/src/lib.rs:527-537 | In every run the counts of a proposal are the accepted votes for and against it. |
| `GovernanceTerms.DecisionFollowsVotes` | contracts/governance/src/lib.rs:562-639 | From the calls alone: without a token, a vote approves or rejects exactly as the votes cast meet the quorum of members then or now and those in favour the threshold. |
| `GovernanceTerms.DecisionFollowsBalances` | contracts/governance/src/lib.rs:562-639 | With a token, the same of the balances cast since it was set and the weight eligible when the proposal was made. |
| `GovernanceTerms.TwoOfThreeReject` | contracts/governance/src/lib.rs:611-639 | Two no votes of three members reject a proposal and free its slot. |
| `GovernanceTerms.VotesAreDue` | contracts/governance/src/lib.rs:487-526 | In every run only current members vote, once each, and not after the closing time of the proposal. |
| `GovernanceTerms.ProposalsCloseByRight` | contracts/governance/src/lib.rs:642-817 | Executed by a member with every action carried out or its failure on record; cancelled by proposer or admin, once approved by the admin alone; expired only after the closing time. |
| `GovernanceTerms.ProposalsAreMadeByRight` | contracts/governance/src/lib.rs:394-470 | Made by a member, under a title, while a slot is free. |
| `GovernanceTerms.SettingsChangeByRight` | contracts/governance/src/lib.rs:824-903 | Members, configuration, token and admin change by the admin alone, and the last member stays. |
| `GovernanceTerms.ConfigurationStaysInBounds` | contracts/governance/src/lib.rs:824-833 | The configuration starts at the documented defaults and in every run stays within the documented bounds, exactly which the admin can set. |
| `GovernanceBasis.RuleIsKeptExactly` | contracts/governance/src/lib.rs:1067-1097 | In every run a proposal is decided by the kind of rule it was made under, members or weights, exactly if the first governance token was not set in between; and on the same token if that was not changed. |
| `GovernanceBasis.RunStaysWeighed` | contracts/governance/src/lib.rs:527-537 | In every run a proposal carries the wrapped sums of the balances voted since a token was set, and the member count as its eligible weight if it was made before. |
| `GovernanceBasis.EarlyProposalIsDecidedOnBalances` | contracts/governance/src/lib.rs:554-610 | A proposal made before the first token is afterwards decided by balances against the number of members; earlier votes weigh nothing. |
| `GovernanceBasis.OneHolderApproves` | contracts/governance/src/lib.rs:554-610 | A run in which one member whose balance matches the number of members approves a pending proposal alone, short of the quorum of heads. |

## Left out

- OracleCooldown.CooldownIsRealExactly: under the conditions of `StakesAreCovered`, so that lack of tokens cannot stop a claim.
- OracleStakes.StakesAreCovered: assumes a conserving staking token of at most 2^127-1 units that stays configured, and a contract that is neither staker nor its own treasury; those are conditions on the deployment, not on the calls.
- OracleAccountability.CommitmentsAccountedFor: an inequality, because resets and finalizations drop pending commitments without trace.
- OracleDeadlines.RevealOpensTheCommitment: the hash is a parameter that is assumed free of collisions; SHA-256 itself is not part of this model.
- HonestMajority.HonestMajoritySandwich: for non-negative credit rates, as negative ones turn the formula around.
- OracleWindows.FixedQuorum: only for runs that keep the quorum; a lowered quorum lets a fuller window finalize.
- TokenConservation.Conservation: only for runs without self-transfers; with them just the identity modulo 2^128 remains.
- GovernanceSafety.VotesWithinSnapshot: only while no governance token is set, since a token changes what counts as quorum.
- MarketSafety.EscrowSolvency: assumes that the traded tokens conserve their supply and that the market itself neither makes nor takes orders.
- Storage lifetimes, rent and events: no effect on the modelled state; storage is taken as permanent.
- Authorization: a call names its caller, who is taken to have signed it; Ed25519 signatures of relayers are an uninterpreted predicate.
- Counters that grow by one per call are unbounded integers.
- VerificationOracle.Oracle.MintCredits: whether the token accepts the mints is a parameter here; `CappedMint` runs the real token and proves that the two agree.
- CreditToken.Token.Retire: the registry's answer is a parameter here; `RetirementLink` runs the real registry.
- GovernanceTerms.DecisionFollowsBalances: for balances that are not negative and sums and products that fit `i128`.
- OracleReveals.MissedRevealsPayTheTreasury: under the conditions of `StakesAreCovered`.
- GovernanceBasis.EarlyProposalIsDecidedOnBalances: for balances that are not negative and sums and products that fit `i128`.
- GovernanceSafety.WeightedApprovalIsExact: for weights whose sums and products fit `i128`; beyond that they wrap and decide nothing meaningful.
- OracleCoalitions.FewLiarsAreSandwiched: a quarter is what two readings per oracle leave; `CoalitionIsSandwiched` has the bound for any number of readings per liar.
- Allowances of the tokens that market and oracle pull from are one yes-or-no parameter of each call.
- The storage of a contract is one record per object instead of one entry per key, so ledger keys and their layout are not modelled.
- Dispatch of governance actions and emergency pauses: other contracts' calls, of which only success or failure is modelled.
- Administrator rotation, guardians, pausing rights, setters and getters: single-branch facts; a run may pause or reconfigure at any time.
- Initialization guards against a second call, and the bridge's `set_token`: a deployment starts once, from the given arguments.
- The bridge's `bytes_to_address` fills buffers step by step; here it is an expression.
- `credit_factory`, `project_registry`, the status table of `shared`, and the bridge's signature test hooks.
