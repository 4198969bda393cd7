# Verified core of the Solana sniper bot

A Dafny model of the parts of the bot where a mistake costs money: the crash-safe live
entry/exit protocol with its risk gate and confirmation logic, the integer arithmetic behind
stop-loss and take-profit, the paper simulator, the tick-array search, the market-data
pipeline, the signing policy of the HSM server, the bounded memories of pool discovery, the
adaptive RPC batcher, and the Token-2022 mint parser with its Python mirror. `dafny verify
dfyconfig.toml` checks everything.

Code that the repository writes as loops over mutable state is written that way here, as
methods and classes proved against a specification function; code that is one expression is a
function, and its properties are lemmas. RPC answers, clocks and the outcomes of file writes are
parameters, so every theorem is about all of their values. The protocol is a state machine
in which the process may die between any two writes.

| file | part of the system |
|---|---|
| `LiveProtocol.dfy` | `pending_entry.json`, `live_position.json`, `risk_state.json`, the chain and one process |
| `Confirm.dfy` | waiting for a transaction, and what each outcome says about the chain |
| `Risk.dfy` | the risk manager, its persistence and runs behind its gate |
| `WideMath.dfy`, `ExitRules.dfy` | 256-bit multiply-divide, price ratios, exits, P&L |
| `PaperSim.dfy` | the paper-trading state machine |
| `DirectedScan.dfy`, `TickArrays.dfy` | the tick-array bitmaps and the search over them |
| `SlotRing.dfy`, `RingBuffer.dfy`, `Dedup.dfy`, `Latency.dfy`, `Pipeline.dfy` | the market-data pipeline |
| `SigningPolicy.dfy` | the policy checker, and an interpreter of the messages it accepts |
| `Token2022.dfy` | extension lists as a grammar, and both classifiers against it |
| `Discovery.dfy`, `Batcher.dfy` | bounded queues, daily cap, adaptive batches |
| `Base.dfy` | machine integers, Option and Result |

## Where code and documentation disagree

The model follows the code; each case has a lemma with a concrete input and, where there is
one, the exact condition under which the documented behaviour does hold.

- `ring.rs:80-94` promises events up to the watermark only. An event of a later window is handed
  out early (`WatermarkBroken`); exactly when, says `WatermarkRespected`.
- `strategy.rs:322-324` promises 10^-11 relative accuracy and a limit of about 3.4e14 x. Small
  ratios vanish entirely (`TinyRatiosVanish`), an ordinary one misses the accuracy
  (`OrdinaryRatioMisses`), and 10^16 x is still represented
  (`LargeRatioIsRepresented`, `PriceRatioNone`).
- `strategy.rs:330-333` promises P&L that is never optimistic. It is optimistic exactly when a
  loss does not fit an i64 (`PnlNeverOptimistic`).
- `retry.rs:123-128` promises that "outcome unknown" is never reported while the blockhash is
  valid (`UnknownWhileValid`; exactly when it can be, says `UnknownExactlyWhen`);
  `retry.rs:174-184` reports "never landed" after a final look that failed or found the
  transaction at processed commitment only (`BlindFinalLook`, exactly `ExpiredIsRight`).
- `main.rs:1857-1861` promises that LIVE does not start when the outcome of an entry cannot be
  established. A failed transaction lookup counts as "never landed", so it can start in doubt
  (`StartsInDoubt`; exactly when, says `DroppingDecides`). `position.rs:157-162` promises that a
  crash never leaves bought tokens unmanaged; by the same way their record can be dropped
  (`DroppedByReconciliation`).
- `main.rs:3978-3979` takes an unchanged balance after an Err for "definitely not landed". It is in
  doubt exactly while the transaction can still land (`DropInLoopDecides`, `PrematureDrop`); that
  is excluded after some ends of the confirmation only (`SettledDropIsSound`,
  `OtherEndsLeaveItOpen`).
- `main.rs:1998-1999` never sells more than the position bought. The recorded amount is only the
  guaranteed minimum when the balance was unreadable at the entry (`main.rs:4000-4003`), so tokens
  can be left without a record (`SellsEverything`, `ShortExitDecides`).
- `main.rs:4017-4018` keeps a crash recoverable by saving the position before the counters. If
  that save fails, the next start needs the operator, books the entry a second time
  (`BookedTwice`), or recovers, depending on which later writes succeed (`FailedSaveDecides`).
- `risk.rs:522-531` compares the daily counters without looking at their dates, so a reached cap
  never reopens by itself (`CapNeverReopens`, `NewDayOpensExactlyBelowTheCap`), and a reached loss
  limit only with another loss (`LossLimitStays`, `LossLimitReopens`); `risk.rs:302-308` and
  `351-365` share one persisted date between the two, so a restart can forget today's loss or
  count yesterday's as today's (`LossesMixedUp`, exactly `LossAcrossRestart`); a
  failed state write (`risk.rs:368-385`) blocks entries only until a restart forgets it
  (`FailedWritesLiftTheCap`, `RestartWithinLimits`); and the projected exposure of
  `risk.rs:536-541` saturates where `risk.rs:430` wraps (`ExposureCapIsExact`).
- `policy.rs:219` sums outflows saturating, so a cap of u64::MAX is none (`CapIsExact`).

## Model

| member | source | states |
|---|---|---|
| LiveProtocol.SuccessfulWritesSuffice | solana-sniper/src/main.rs:2357-2386 | in every run with crashes at any point in which no write fails, whatever the chain does and answers: the persisted open count is 0 or 1, a count of 1 has its position record and exposure, and the refusal for a count without a record is never reached |
| LiveProtocol.CountsAlwaysMatch | solana-sniper/src/main.rs:2357-2386 | the same over every run in which two writes succeed: the position record of an entry and the close of a counted position |
| LiveProtocol.StepKeepsCounts | solana-sniper/src/main.rs:4017-4030 | exactly the steps whose two writes are sound keep count and record in agreement, in memory and on disk |
| LiveProtocol.ChainPlaysNoPart | solana-sniper/src/main.rs:2357-2386 | that agreement does not depend on transaction or tokens |
| LiveProtocol.WritesSoundExactly | solana-sniper/src/main.rs:4017-4030 | both writes are needed, at every such state: they succeed if and only if all that can follow is safe in this sense |
| LiveProtocol.CountWithoutRecordFollows | solana-sniper/src/main.rs:4017-4030 | after one of them has failed, a persisted count without its record is at most two steps away |
| LiveProtocol.EveryRunIsSafe | solana-sniper/src/main.rs:3934-4059 | the full promise, over every run of sound steps, with crashes between any two writes, other writes failing and the chain moving at any time: in addition bought and unsold tokens always have a record on disk (the position record once the trade is recorded), both refusals that need an operator are unreachable, no entry is ever recorded as a trade a second time and there are no more records than landings, and at the loop head held tokens are booked once or the kill switch is on |
| LiveProtocol.StepKeepsInv | solana-sniper/src/main.rs:2353-2420 | exactly the sound steps of environment, startup, reconciliation, booking, entry and exit keep the protocol invariant |
| LiveProtocol.SoundExactly | solana-sniper/src/main.rs:3969-4030 | for the full promise the hypothesis cannot be weakened: at every invariant state a step is sound if and only if everything that sound steps can lead to after it is safe |
| LiveProtocol.UnsoundIsUnsafe | solana-sniper/src/main.rs:3969-4030 | after an unsound step an unsafe state is at most two sound steps away |
| LiveProtocol.RunKeepsInv | solana-sniper/src/main.rs:2353-2420 | the invariant holds after every run from a state that has it, not only from the initial one |
| LiveProtocol.EnvironmentKeepsInv | solana-sniper/src/main.rs:3958-3972 | a crash, a late landing, an expiry, a sale or the kill switch at any moment keeps the invariant |
| LiveProtocol.ReconcileKeepsInv | solana-sniper/src/main.rs:1862-1905 | reading and judging a pending record keeps the invariant, whatever confirmation and lookup answer, exactly when the step is sound |
| LiveProtocol.BookingKeepsInv | solana-sniper/src/main.rs:4017-4030 | saving the position, counting the trade, counting the open and dropping the pending record keeps it in this order, with a crash or a failed non-critical write after each, exactly when the step is sound |
| LiveProtocol.StartupKeepsInv | solana-sniper/src/main.rs:2357-2416 | the startup match on position record and open count, and the orphan-token check, keep it; which branch is taken is decided by `StartEndsAsDecided` and `LiveOnlyIf` |
| LiveProtocol.EntryKeepsInv | solana-sniper/src/main.rs:3934-3993 | recording the entry before sending it, and judging an Err by the balance, keeps it, exactly when the step is sound |
| LiveProtocol.ExitKeepsInv | solana-sniper/src/main.rs:2664-2680 | selling, which may leave tokens, and closing (count first, then record) keeps it, exactly when the step is sound: nothing is left and the two writes succeed where they matter |
| LiveProtocol.SellsEverything | solana-sniper/src/main.rs:1998-1999 | a sell takes everything that arrived if and only if the balance could be read at the entry or no more than the guaranteed minimum arrived |
| LiveProtocol.ShortExitDecides | solana-sniper/src/main.rs:2671-2675 | after closing with tokens left and a crash, every next start refuses because of the tokens, or, if and only if the pending record is still there, books the entry and its trade once more |
| LiveProtocol.ShortExitLeaves | solana-sniper/src/main.rs:2671-2675 | what such a crash leaves on disk |
| LiveProtocol.PendingMeansKilled | solana-sniper/src/main.rs:3969-3992 | when no write fails, a pending record at the loop head implies the kill switch, with no assumption about chain reads |
| LiveProtocol.RecoveryBooks | solana-sniper/src/main.rs:1862-1924 | from every down or refused state a run can leave, with unsold tokens: every undisturbed start, for either confirmation answer, takes at most ten steps, never gets stuck, never refuses, and reaches the loop head only with count 1, exposure equal to the size, no pending record and the recorded position managed |
| LiveProtocol.StartIsForced | solana-sniper/src/main.rs:2357-2416 | every undisturbed start from any stopped state with a landed entry goes through the same states, point by point, whatever is on disk |
| LiveProtocol.StartGoesOn | solana-sniper/src/main.rs:2357-2416 | such a start is never stuck before the loop head or a refusal |
| LiveProtocol.StartEnds | solana-sniper/src/main.rs:2357-2416 | every such start can be brought to its one outcome |
| LiveProtocol.OutcomeBooks | solana-sniper/src/main.rs:2361-2382 | with unsold tokens that outcome is the loop head with exactly one counted position |
| LiveProtocol.BookPending | solana-sniper/src/main.rs:1910-1923 | from any invariant state at booking, the undisturbed booking leaves exactly one counted position, its record and its exposure |
| LiveProtocol.ResumePosition | solana-sniper/src/main.rs:2361-2382 | a found position record is resumed with count 1 and its exposure, whether or not the counter had been written |
| LiveProtocol.StartEndsAsDecided | solana-sniper/src/main.rs:2353-2416 | the whole startup gate: every start from any stopped state, with any answers and any write outcomes, ends at the loop head managing exactly that position, or is refused for exactly that reason, as decided by the files, the wallet and the answers alone |
| LiveProtocol.EveryStartFollows | solana-sniper/src/main.rs:1862-1924 | no start is left out: each passes every point at most once and so follows some answers |
| LiveProtocol.LiveOnlyIf | solana-sniper/src/main.rs:2361-2416 | over every start with any answers: the loop head is reached only without a pending record, and either with a position record of this configuration, kept from before or booked for tokens that arrived, or without one, with count 0 and a wallet that was read and found empty |
| LiveProtocol.RefusingRefuses | solana-sniper/src/main.rs:2357-2416 | a failed removal or save, a failed lookup, a confirmed transaction that cannot be found, another configuration or an unreadable wallet refuses at once, in every start |
| LiveProtocol.AnswersAreTaken | solana-sniper/src/main.rs:1862-1924 | no start gets stuck before the loop head or a refusal, whatever is answered |
| LiveProtocol.NoEntryOnceClosed | solana-sniper/src/main.rs:3977-4023 | over every run: once the kill switch, an unreadable balance, a position that could not be saved or counters that could not be written have closed the gate, no entry begins before the next start |
| LiveProtocol.RecordsHaveEntrySize | solana-sniper/src/main.rs:3934-3955 | over every run of sound steps every record, the managed position and the entry being made have the size of the latest entry |
| LiveProtocol.TradesAreRecorded | solana-sniper/src/risk.rs:547-565 | over every run in which the counters are written, memory and file agree and the trade counter is the number of recorded trades |
| LiveProtocol.LostPositionRecord | solana-sniper/src/main.rs:4017-4030 | from every invariant state with a landed entry: the position record cannot be saved but the counters are written and the pending record is dropped; the next start refuses, without any record |
| LiveProtocol.FailedSaveDecides | solana-sniper/src/main.rs:4017-4030 | what every next start does after a failed save, over the outcomes of all later writes and every crash point, as five equivalences: refusal for the count, refusal for the orphan tokens, a second booking, a clean recovery, or nothing held |
| LiveProtocol.FailedSaveLeaves | solana-sniper/src/main.rs:4017-4030 | what such a crash leaves on disk |
| LiveProtocol.BookedTwice | solana-sniper/src/main.rs:4025-4029 | if the open is counted and the process dies before the pending record is dropped, the one landed entry is counted as two positions and two trades at twice the exposure |
| LiveProtocol.PeakHeals | solana-sniper/src/main.rs:2055-2060 | while the process lives, the next saved best price writes the missing record and re-establishes the invariant |
| LiveProtocol.AnEntryLands | solana-sniper/src/main.rs:3934-3975 | such states are reached |
| LiveProtocol.CloseDecides | solana-sniper/src/main.rs:2671-2675 | what every next start does after a crash while closing, over both write outcomes and each crash point: refusal, a resumed position that is no longer there, or a clean start, as three equivalences |
| LiveProtocol.DiesClosingLeaves | solana-sniper/src/main.rs:2671-2675 | what such a crash leaves on disk |
| LiveProtocol.LostClose | solana-sniper/src/main.rs:2671-2675 | such a refusal is reached |
| LiveProtocol.RecordWins | solana-sniper/src/main.rs:1872-1875 | a position record on disk decides a start: it is resumed with its own size, a pending record is dropped unread and no trade is counted |
| LiveProtocol.StaleRecordHides | solana-sniper/src/main.rs:2672-2674 | behind a record that could not be removed, every later entry of any size that is interrupted after landing is managed under the old size and never counted, by every next start |
| LiveProtocol.StalePositionRecord | solana-sniper/src/main.rs:2672-2674 | such a case is reached |
| LiveProtocol.DropInLoopDecides | solana-sniper/src/main.rs:3977-3982 | once an unchanged balance is taken as final the loop goes on in doubt if and only if the transaction can still land |
| LiveProtocol.PrematureDrop | solana-sniper/src/main.rs:3977-3982 | run: it then lands with no record and entries enabled |
| LiveProtocol.DroppingDecides | solana-sniper/src/main.rs:1887-1900 | after a lookup that gave nothing: LIVE starts if and only if no tokens have arrived, and starts in doubt if and only if, in addition, the transaction can still land |
| LiveProtocol.StartsInDoubt | solana-sniper/src/main.rs:1857-1861 | run: LIVE starts with entries enabled while an entry nobody remembers can still land |
| LiveProtocol.DroppedByReconciliation | solana-sniper/src/position.rs:157-162 | run: an unreadable chain at startup drops the record of a landed entry, leaving bought tokens without one |
| LiveProtocol.SettledDropIsSound | solana-sniper/src/main.rs:3977-3982 | after "failed on chain", or "expired" with status reads that show landings or a final look that succeeded and did not find the transaction merely processed, it is dead for good and dropping its record is sound |
| LiveProtocol.OtherEndsLeaveItOpen | solana-sniper/src/main.rs:1881-1900 | after "unknown" it may be alive, after the other final looks it may have landed |
| Confirm.ConfirmTransaction | solana-sniper/src/retry.rs:137-195 | the poll loop ends because the clock advances and computes the outcome function that the lemmas are about; what ends it, and with which outcome, says `FirstReasonEnds` |
| Confirm.FirstReasonEnds | solana-sniper/src/retry.rs:159-194 | from the reads alone: the first poll with a decisive status, an expired blockhash or both deadlines passed ends the wait, with the outcome that this reason has |
| Confirm.DecisiveIsReported | solana-sniper/src/retry.rs:159-167 | a confirmed transaction is reported as confirmed and a failed one as failed by the first poll that reads it, unless an earlier poll ended the wait |
| Confirm.NothingOverlooked | solana-sniper/src/retry.rs:174-191 | after "expired" or "unknown" no poll up to it has read a decisive status, and after "expired" neither did the final look read a confirmation |
| Confirm.LandingIsReported | solana-sniper/src/retry.rs:123-128 | with status reads that show landings, one before a poll is reported by that poll or an earlier one, never as expired or unknown |
| Confirm.OutcomeIsTrue | solana-sniper/src/retry.rs:115-128 | Ok means landed, failed and expired mean without effect in every continuation, unknown only past the hard deadline, if status reads show landings |
| Confirm.OutcomeMeaning | solana-sniper/src/retry.rs:137-195 | the same from any poll on and without that hypothesis: an expired verdict is wrong only if the final look missed the landing |
| Confirm.ExpiredIsRight | solana-sniper/src/retry.rs:145-184 | an "expired" verdict is right in every world, in which successful reads never deny a landing, if and only if the final status read neither failed nor found the transaction merely processed |
| Confirm.BlindFinalLook | solana-sniper/src/retry.rs:145-183 | after either of these final looks a landed transaction is reported as never landed |
| Confirm.UnknownWhileValid | solana-sniper/src/retry.rs:123-128 | "unknown" can be reported while the blockhash is valid, and the transaction takes effect afterwards |
| Confirm.UnknownExactlyWhen | solana-sniper/src/retry.rs:123-128 | with readable validity, some status reads end in "unknown" if and only if some poll finds the clock past both deadlines before the blockhash has expired |
| Confirm.UnknownMeansStillValid | solana-sniper/src/retry.rs:169-191 | every "unknown" was decided by such a poll, on a blockhash that was valid when read |
| Confirm.SilenceIsUnknown | solana-sniper/src/retry.rs:169-191 | and such a poll ends every silent wait in "unknown" |
| Confirm.SendWithRetry | solana-sniper/src/retry.rs:67-97 | the first accepted send is confirmed, and only three refused sends give up, without asking the chain |
| Risk.RiskManager.constructor | solana-sniper/src/risk.rs:299-347 | counters from the file, one date for both; a corrupt file leaves the manager unverified |
| Risk.RiskManager.PersistState | solana-sniper/src/risk.rs:351-385 | a written state is the five saved fields; a failed write is sticky |
| Risk.RiskManager.TripBreaker | solana-sniper/src/risk.rs:419-423 | from the trip on, entries are blocked for exactly the cool-down, and no pre-trade check passes meanwhile |
| Risk.RiskManager.BreakerActive | solana-sniper/src/risk.rs:605-615 | active exactly while the last trip is cooling down, over every sequence of trips and checks with a monotonic clock |
| Risk.RiskManager.PreTradeCheck | solana-sniper/src/risk.rs:504-543 | passes if and only if no switch is set, no trip is cooling down and size, slippage and each counter are within its limit; otherwise the reason is the first one in order, and it holds |
| Risk.RiskManager.RecordTrade | solana-sniper/src/risk.rs:547-565 | rolls the day, counts, persists, and engages the kill switch above the cap |
| Risk.RiskManager.RecordLoss | solana-sniper/src/risk.rs:577-595 | rolls the day, adds saturating, persists, and engages the kill switch exactly at the limit |
| Risk.RiskManager.RecordOpen | solana-sniper/src/risk.rs:428-432 | one more position, exposure grown by its size in u64 arithmetic, persisted |
| Risk.RiskManager.RecordClose | solana-sniper/src/risk.rs:436-444 | one position less, exposure reduced, both saturating at zero, persisted |
| Risk.GatedRunsStayWithinLimits | solana-sniper/src/risk.rs:504-543 | over every gated run with closes, losses, failing state writes and restarts that find the open positions written: open count, exposure and trades stay within limits, exposure is the sum of the open sizes, the trade-cap kill condition never arises |
| Risk.WrittenStateIsKept | solana-sniper/src/risk.rs:351-385 | when no write fails, every restart finds all counters as they were |
| Risk.RestartWithinLimits | solana-sniper/src/risk.rs:299-347 | a restart keeps the limits if and only if the last written state has the positions that are really open |
| Risk.StepWithinLimits | solana-sniper/src/risk.rs:428-444 | each event keeps counters and books in agreement and within limits, except exactly a restart that does not find the open positions |
| Risk.ExposureCapIsExact | solana-sniper/src/risk.rs:504-543 | every such run from a fresh state keeps all limits if and only if the cap is below u64::MAX, or the admitted sizes cannot add up to more, or at most one entry, or none, is ever admitted |
| Risk.RoomToEnter | solana-sniper/src/risk.rs:428-432 | under that condition the u64 addition after a passing gate never wraps and stays within the cap |
| Risk.FillUp | solana-sniper/src/risk.rs:536-541 | otherwise one maximal entry a day makes the exposure wrap |
| Risk.RejectionSurvivesRestart | solana-sniper/src/risk.rs:299-385 | a counter-based rejection is the same after save and reload |
| Risk.LossAcrossRestart | solana-sniper/src/risk.rs:302-308 | for all counters: a loss is booked as without the restart if and only if today is the day of both counters or of neither, or nothing can differ |
| Risk.LossesMixedUp | solana-sniper/src/risk.rs:302-308 | today's loss forgotten, and yesterday's counted towards today |
| Risk.CapNeverReopens | solana-sniper/src/risk.rs:528-531 | once the trade counter is at its cap no gated entry ever passes again, on any day and over restarts that find it written |
| Risk.LossLimitStays | solana-sniper/src/risk.rs:522-526 | a reached loss limit admits no gated entry, on any day and over restarts that find it written, until another loss is recorded |
| Risk.LossLimitReopens | solana-sniper/src/risk.rs:577-585 | and that loss lifts it if and only if it falls on another day than the counter's and is below the limit by itself |
| Risk.NoDayExceedsTheCap | solana-sniper/src/risk.rs:547-565 | over every gated run with a clock that does not run backwards, failing writes and restarts that find the trade counter written, no calendar day has more trades than the cap |
| Risk.TradeCounterIsExact | solana-sniper/src/risk.rs:547-565 | over every such run the trade counter is exactly the number of trades of its day |
| Risk.LossCounterIsTheDaysTotal | solana-sniper/src/risk.rs:577-585 | between restarts and with such a clock, the loss counter is the total of the latest day with a loss, up to saturation |
| Risk.RestartKeepsDays | solana-sniper/src/risk.rs:299-347 | a restart keeps that promise if and only if it finds the current trade counter |
| Risk.FailedWritesLiftTheCap | solana-sniper/src/risk.rs:351-385 | otherwise, for every configuration that admits an entry and every n, there is a gated run with n trades on one day |
| Risk.NewDayOpensExactlyBelowTheCap | solana-sniper/src/risk.rs:528-531 | an otherwise admissible entry passes if and only if the counter, of whatever day, is below the cap |
| WideMath.MulDiv | solana-sniper/src/strategy.rs:273-302 | for all u128 inputs: None exactly when d = 0 or the quotient needs more than 128 bits, otherwise the true quotient and remainder of the 256-bit product; no intermediate overflow |
| WideMath.WideMul | solana-sniper/src/strategy.rs:277-285 | the two limbs recombine to the exact product |
| WideMath.AddLimbs | solana-sniper/src/strategy.rs:281-285 | adding four limb products with carries loses nothing and fits 128 bits |
| WideMath.LongDivide | solana-sniper/src/strategy.rs:292-301 | 128 restoring steps give quotient and remainder of the 256-bit dividend |
| WideMath.DivideBit | solana-sniper/src/strategy.rs:294-300 | one step with the carry bit is exact although the doubled remainder can need 129 bits |
| WideMath.BringDown | solana-sniper/src/strategy.rs:293-301 | bringing down a bit keeps the division invariant with at most one subtraction |
| WideMath.Limbs | solana-sniper/src/strategy.rs:277-281 | the schoolbook expansion of a 128x128 product |
| WideMath.HighLimb | solana-sniper/src/strategy.rs:286-288 | the quotient overflows exactly when the high limb reaches the divisor |
| WideMath.CeilIsLeastUpperBound | solana-sniper/src/strategy.rs:263-270 | the ceiling form is the least integer not below a*b/d, and None exactly above (2^128-1)*d |
| ExitRules.PriceRatioError | solana-sniper/src/strategy.rs:325-328 | the ratio never exceeds the exact square and falls short by less than 2c/e + 1 scaled units |
| ExitRules.PriceRatioNone | solana-sniper/src/strategy.rs:325-328 | None exactly for a zero entry or a floored square above 128 bits; the first division's overflow never decides |
| ExitRules.PriceRatioMonotone | solana-sniper/src/strategy.rs:325-328 | a higher price never gives a lower ratio |
| ExitRules.RelativeError | solana-sniper/src/strategy.rs:320-324 | the documented accuracy holds whenever 10c^2 >= 2ce + e^2, in particular for 2c >= e |
| ExitRules.TinyRatiosVanish | solana-sniper/src/strategy.rs:320-324 | below 10^-12 of the entry price squared the result is 0 and the documented accuracy fails |
| ExitRules.OrdinaryRatioMisses | solana-sniper/src/strategy.rs:320-324 | the accuracy already fails for prices with a ratio of about 0.186 |
| ExitRules.LargeRatioIsRepresented | solana-sniper/src/strategy.rs:321-323 | 10^16 x is represented exactly |
| ExitRules.ValueExitThresholds | solana-sniper/src/strategy.rs:198-246 | take-profit fires if and only if v*10^4 >= c*(10^4+tp); stop-loss at most one scaled unit early and never late |
| ExitRules.TrailingThreshold | solana-sniper/src/strategy.rs:219-233 | the trailing stop compares exactly, the floored threshold loses nothing |
| ExitRules.PnlNeverOptimistic | solana-sniper/src/strategy.rs:330-347 | never above the exact P&L if and only if the loss fits an i64; exact within one lamport when unsaturated; a loss never exceeds the position |
| ExitRules.ClosePnl | solana-sniper/src/strategy.rs:235-246 | a stop-loss books at least ceil(size*sl/10^4) of loss, a take-profit at least floor(size*tp/10^4) of gain, up to i64 saturation |
| ExitRules.ReportedBpsAgree | solana-sniper/src/strategy.rs:312-319 | the reported basis points agree with the decision, and whole basis points round-trip |
| ExitRules.BpsWithinOne | solana-sniper/src/strategy.rs:312-319 | reported basis points are the move rounded towards zero, on either side |
| ExitRules.SimulatedIsFair | solana-sniper/src/main.rs:302-310 | in pool prices: a P&L has the sign of the move, is never above size * (c^2/e^2 - 1), is less than a lamport and the loss of the two floors below it, and no loss exceeds the size; i64 saturation and ratios beyond 128 bits are the exceptions |
| ExitRules.PriceExitIsFair | solana-sniper/src/strategy.rs:198-246 | in pool prices: take-profit fires only at the configured gain and on the exact ratio at most two floors late, stop-loss only on a fall and never late |
| PaperSim.PaperSimulator.constructor | solana-sniper/src/main.rs:134-159 | starts without position, closes or clipping |
| PaperSim.PaperSimulator.Tick | solana-sniper/src/main.rs:199-278 | exits in priority order with the right counter, entry filter only when flat, by its three thresholds; with token1 as input the position gains when the pool price rises above the entry, with token0 when it falls, and P&L, price exits, the halved liquidity and the holding time are those of the exact prices (`FairMove`, `FairForce`); keeps entries = closes + replaced + open, exits = closes, net = gross - costs = sums over all closes while unclipped, trough <= 1.0 <= peak |
| PaperSim.FairEitherWay | solana-sniper/src/main.rs:206-269 | the decision and the P&L of every tick, forced ones included, in raw pool prices and for either input token |
| PaperSim.PaperSimulator.Manage | solana-sniper/src/main.rs:205-269 | with an open position, exactly what the verdict says happens: hold with updated extremes, or one close with the reported figures |
| PaperSim.PaperSimulator.Decide | solana-sniper/src/main.rs:215-237 | peak and trough absorb the ratio before the exit rule is asked; forced exits only when no price exit fires; the position keeps everything else |
| PaperSim.PaperSimulator.PriceExit | solana-sniper/src/main.rs:216-224 | peak and trough stay the extremes of 1.0 and every ratio seen since entry |
| PaperSim.PaperSimulator.Close | solana-sniper/src/main.rs:243-268 | books the open position once, under the heading of the decision, and drops it; its best move is reported as at least 0, its worst as at most 0, and the holding time runs from the opening |
| PaperSim.PaperSimulator.BookClose | solana-sniper/src/main.rs:162-181 | the report has gross, net, cost, holding time and extremes of this position; the totals grow by it, and any clipping is visible |
| PaperSim.PaperSimulator.ConfirmEntry | solana-sniper/src/main.rs:281-292 | opens at 1.0/1.0 with the last liquidity and counts the entry; a position still open would be replaced, and counted as such |
| PaperSim.PaperSimulator.Iterate | solana-sniper/src/main.rs:2874-3040 | over every paper run, confirming only a pending entry that the gates accept: nothing is ever replaced and entries = exits + open |
| PaperSim.ClosesWithinLimits | solana-sniper/src/main.rs:302-310 | simulated P&L of a price exit respects the configured basis points |
| PaperSim.VerdictPriority | solana-sniper/src/main.rs:215-237 | which exit is taken, exactly: stop-loss or take-profit first, then the trailing stop by its exact comparison, then lost liquidity, then the holding time; none of the first three without a representable ratio |
| TickArrays.LocateInBounds | solana-sniper/src/amm/account_resolver.rs:236-265 | for every spacing every aligned legal start has an in-bounds bit with k < 14 and no i32 overflow, and the documented layout maps it back |
| TickArrays.LocateInjective | solana-sniper/src/amm/account_resolver.rs:236-265 | no two legal starts share a bit across the three regions |
| TickArrays.LocateArrays | solana-sniper/src/amm/account_resolver.rs:236-265 | the index arithmetic in terms of array numbers, for any aligned start |
| TickArrays.SafeExactlyOffTheEdges | solana-sniper/src/amm/account_resolver.rs:239-264 | for every start but i32::MIN the index leaves its words if and only if the start is less than one array below a multiple of the default range in the negative extension, and then it names bit 512 |
| TickArrays.AlignedIsSafe | solana-sniper/src/amm/account_resolver.rs:239-264 | an aligned i32 start is never there |
| TickArrays.UnalignedStartLeavesTheBitmap | solana-sniper/src/amm/account_resolver.rs:254-264 | an unaligned start can name bit 512 |
| TickArrays.IsInitialized | solana-sniper/src/amm/account_resolver.rs:236-265 | answers for every start the source can be asked about; unknown exactly when the bit needs an extension that is not loaded; which bit it is says `StoredBit` |
| TickArrays.StoredBit | solana-sniper/src/amm/account_resolver.rs:236-265 | for every legal array n and spacing: binary digit n + 512 of the default words, digit n mod 512 of the positive bitmap n / 512 - 1, or of the negative bitmap (-n - 1) / 512 - 1, and None exactly without the extension that holds it |
| TickArrays.OnlyArrayIsFound | solana-sniper/src/amm/account_resolver.rs:271-294 | with exactly the documented bit of one array set, the search from any legal array returns exactly that array, or nothing when it lies behind |
| TickArrays.InitializedStarts | solana-sniper/src/amm/account_resolver.rs:271-294 | from any aligned start: the first max elements of the naive filter over all in-range arrays in swap direction, cut at the first unknown one; strictly down for zero-for-one, strictly up otherwise, never behind the start |
| TickArrays.SearchIsComplete | solana-sniper/src/amm/account_resolver.rs:267-294 | initialized only, nearest first, and an initialized array is left out only behind max nearer ones or when the extension is missing and the current array is outside the default bitmap |
| TickArrays.ScanStep | solana-sniper/src/amm/account_resolver.rs:283-292 | one step is one array in i32 and unfolds the filter |
| TickArrays.StatusKnown | solana-sniper/src/amm/account_resolver.rs:227-230 | an array is unknown exactly outside the default bitmap without extension |
| TickArrays.StartHoldsTick | solana-sniper/src/amm/account_resolver.rs:90-96 | the start of a legal tick is legal and its array holds the tick, also below zero |
| TickArrays.FallbackStaysInDefault | solana-sniper/src/amm/account_resolver.rs:343-347 | when no extension is asked for, every fallback candidate lies in the default bitmap |
| TickArrays.ExtensionNeededExactly | solana-sniper/src/amm/account_resolver.rs:343-347 | it is asked for exactly when one array more than is scanned, either way, reaches the edge of the default range |
| DirectedScan.HitsAreComplete | solana-sniper/src/amm/account_resolver.rs:283-292 | the filter's first max hits are sorted by distance and complete up to max or the first unknown cell |
| DirectedScan.WalkIsEverything | solana-sniper/src/amm/account_resolver.rs:283-292 | stepping one way visits exactly the in-range cells ahead, nearest first |
| SlotRing.ScanBasics | crates/hft-marketdata/src/ring.rs:95-118 | in every state a pop invents nothing, keeps each event at slot mod capacity and moves next past what it returns |
| SlotRing.PoppedIncrease | crates/hft-marketdata/src/ring.rs:67-118 | for every interleaving of pushes and pops the popped slots strictly increase |
| SlotRing.PopFindsFirst | crates/hft-marketdata/src/ring.rs:95-118 | without stale events a pop returns the first occupied cell at or before the watermark and leaves the rest |
| SlotRing.PushIsMapUpdate | crates/hft-marketdata/src/ring.rs:67-77 | inside the window a push is a map update: last write wins, nothing else moves |
| SlotRing.LatePush | crates/hft-marketdata/src/ring.rs:67-77 | behind the window a push is ignored when a whole ring late, and otherwise kept at the cost of exactly the event one ring ahead |
| SlotRing.PopRemovesLeast | crates/hft-marketdata/src/ring.rs:95-118 | inside the window a pop removes and returns the least buffered slot if it is within the watermark, else nothing is lost; the window condition is kept |
| SlotRing.WatermarkRespected | crates/hft-marketdata/src/ring.rs:79-118 | from a ring in any state, every sequence of pops respects its watermarks if and only if no buffered event is a whole ring or more ahead of next; then so does every run whose pushes are checked for that |
| SlotRing.TooFarComesEarly | crates/hft-marketdata/src/ring.rs:95-118 | popping repeatedly at the position of a too-far event hands out an event early |
| SlotRing.ScanTowards | crates/hft-marketdata/src/ring.rs:99-115 | a scan towards such an event hands it or an earlier one out, or gets closer, or discards |
| SlotRing.CheckedRunRespects | crates/hft-marketdata/src/ring.rs:67-118 | every run of checked pushes and any pops respects its watermarks |
| SlotRing.WatermarkBroken | crates/hft-marketdata/src/ring.rs:79-94 | capacity 4: slot 102 comes out at watermark 100 |
| RingBuffer.SlotRingBuffer.constructor | crates/hft-marketdata/src/ring.rs:53-61 | capacity is the least power of two at or above the request and 2; empty |
| RingBuffer.NextPowerOfTwo | crates/hft-marketdata/src/ring.rs:54-54 | a power of two, at least the request and less than twice it |
| RingBuffer.SlotRingBuffer.Push | crates/hft-marketdata/src/ring.rs:67-77 | refines the push specification; rejected and overwritten events are counted, conservation is kept |
| RingBuffer.SlotRingBuffer.PopStep | crates/hft-marketdata/src/ring.rs:99-115 | one iteration: release, discard of a stale event, or skip, with conservation |
| RingBuffer.SlotRingBuffer.PopReady | crates/hft-marketdata/src/ring.rs:95-118 | the loop terminates although a discard does not advance, and meets the scan specification; pushed = released + buffered + overwritten + rejected + discarded |
| RingBuffer.SlotRingBuffer.Drain | crates/hft-marketdata/src/ring.rs:121-141 | returns exactly the buffered events, sorted by slot, and leaves an empty buffer with next unchanged |
| Dedup.Deduplicator.IsNew | crates/hft-marketdata/src/dedup.rs:73-120 | accepts exactly the events of a later slot, or of the same slot and a higher sequence number, than everything accepted for their market; counts the others |
| Dedup.FreshByState | crates/hft-marketdata/src/dedup.rs:73-120 | the one remembered pair per market decides newer-than-everything |
| Dedup.Accept | crates/hft-marketdata/src/dedup.rs:73-120 | accepted events of a market stay strictly increasing |
| Latency.LatencyMonitor.Observe | crates/hft-marketdata/src/latency.rs:112-141 | the delay from publish to ingest, or 0 when ingest is earlier, joins the history; window, running sum, stale count, minimum and maximum are those of the whole history afterwards |
| Latency.LatencyMonitor.SlideWindow | crates/hft-marketdata/src/latency.rs:121-132 | the running sum is the sum of exactly the last min(n, 1024) latencies; the subtraction never saturates |
| Latency.LatencyMonitor.Read | crates/hft-marketdata/src/latency.rs:149-164 | the average is that of the last min(n, 1024) observations and the u64 cast never truncates |
| Latency.SumSlide | crates/hft-marketdata/src/latency.rs:121-132 | sliding the window changes its sum by newest minus oldest |
| Latency.WindowSlide | crates/hft-marketdata/src/latency.rs:126-131 | the cell written next holds the observation that leaves the window |
| Pipeline.MarketDataPipeline.Process | crates/hft-marketdata/src/pipeline.rs:173-195 | one event does what the specification says: a duplicate only counts, a fresh event is pushed and everything ready at its slot is handed out in order |
| Pipeline.MarketDataPipeline.ReleaseReady | crates/hft-marketdata/src/pipeline.rs:188-193 | hands out exactly what repeated pops have ready, in order, each event observed and counted once |
| Pipeline.MarketDataPipeline.Offer | crates/hft-marketdata/src/pipeline.rs:173-186 | counts every event and pushes exactly the fresh ones |
| Pipeline.MarketDataPipeline.Flush | crates/hft-marketdata/src/pipeline.rs:195-200 | the rest comes out sorted and complete |
| Pipeline.MarketDataPipeline.PollAll | crates/hft-marketdata/src/pipeline.rs:162-194 | for every source, in whatever order its events come: releases, acceptances and ring are those of the specification over the events; every polled event is filtered, handed out, buffered or accounted for |
| Pipeline.MarketDataPipeline.PollOnce | crates/hft-marketdata/src/pipeline.rs:169-193 | one poll advances the run by the specification, Idle leaves it alone |
| Pipeline.MarketDataPipeline.RunToCompletion | crates/hft-marketdata/src/pipeline.rs:162-202 | for every source the result is what the specification releases and then the rest sorted by slot; the event list itself for strictly increasing slots on a fresh pipeline; always an empty ring afterwards and polled, consumed, released and observed in agreement |
| Pipeline.PassThrough | crates/hft-marketdata/src/pipeline.rs:182-193 | an event at or ahead of next passes an empty ring at its own watermark, however far ahead |
| Pipeline.ReadyIsUpTo | crates/hft-marketdata/src/pipeline.rs:187-193 | from a ring in the window exactly the buffered events up to the watermark are released, earliest first, and exactly the later ones stay |
| Pipeline.FeedsUpToItself | crates/hft-marketdata/src/pipeline.rs:173-193 | a fresh event inside the window is released itself, last, after every earlier buffered one, and later ones stay; one behind the window releases nothing |
| Pipeline.StaysInOrder | crates/hft-marketdata/src/pipeline.rs:173-193 | from an empty ring and any accepted events before them, strictly increasing events are all accepted and released as they are, and the ring is empty again |
| Pipeline.InOrderIsIdentity | crates/hft-marketdata/src/pipeline.rs:162-202 | so on a fresh pipeline the full result is the event list, nothing filtered and nothing kept back |
| SigningPolicy.Check | tools/hsm_server/policy.rs:114-265 | Ok if and only if the message is acceptable, stated without any order of checking |
| SigningPolicy.CheckAta | tools/hsm_server/policy.rs:144-165 | Ok exactly for the creation of the signer's own token account |
| SigningPolicy.CheckInstruction | tools/hsm_server/policy.rs:171-256 | Ok exactly for the allowed instructions, with the lamports they move away from the signer |
| SigningPolicy.CollectAtas | tools/hsm_server/policy.rs:138-166 | pass 1 collects exactly the accounts the message creates |
| SigningPolicy.SumMoved | tools/hsm_server/policy.rs:168-257 | pass 2 accepts every instruction and returns the saturated exact outflow |
| SigningPolicy.AcceptedIsContained | tools/hsm_server/policy.rs:114-265 | executing an accepted message takes at most the exact outflow from the signer and changes nothing but the signer, associated token accounts of the signer that the message creates, tips and extra destinations, of which the last two only gain; below u64::MAX the outflow is within the cap |
| SigningPolicy.AcceptsExactly | tools/hsm_server/policy.rs:114-265 | acceptance from keys and bytes alone, as an equivalence: payer and owner of every creation, the address of the account for its mint, the cap on the little-endian unit price, transfer source and destination, sync, close, and both token accounts of a swap |
| SigningPolicy.OwnAtasAreTheSigners | tools/hsm_server/policy.rs:138-166 | the accounts pass 1 collects are exactly the associated token accounts of the signer, for the classic token program, that the message creates |
| SigningPolicy.OutflowIsExact | tools/hsm_server/policy.rs:168-257 | without a close back to the signer, executing allowed instructions takes precisely the counted outflow |
| SigningPolicy.Le64IsLittleEndian | tools/hsm_server/policy.rs:180-206 | prices and amounts are the little-endian values of their eight bytes |
| SigningPolicy.ContainedPrefix | tools/hsm_server/policy.rs:168-257 | the same for any list of allowed instructions |
| SigningPolicy.ContainedStep | tools/hsm_server/policy.rs:200-256 | the same for one allowed instruction |
| SigningPolicy.CapIsExact | tools/hsm_server/policy.rs:219-263 | the cap bounds the outflow of every accepted message if and only if it is below u64::MAX |
| SigningPolicy.TwoHugeTips | tools/hsm_server/policy.rs:219-219 | two u64::MAX tips are accepted under that cap |
| SigningPolicy.OrderDoesNotMatter | tools/hsm_server/policy.rs:138-265 | reordering the instructions never changes the verdict |
| SigningPolicy.PolicyIsMonotone | tools/hsm_server/policy.rs:48-57 | loosening the policy never rejects an accepted message |
| Token2022.CheckExtensions | solana-sniper/src/onchain_risk.rs:527-568 | accepted if and only if the layout is a bare mint or the printing of metadata-only entries plus zero padding of length 0 or at least 4 |
| Token2022.EncodingUnique | solana-sniper/src/onchain_risk.rs:541-566 | no bytes encode two extension lists |
| Token2022.EncodesHead | solana-sniper/src/onchain_risk.rs:547-565 | an encoded rest starts with a complete allowed entry and goes on with an encoded rest |
| Token2022.EncodesCons | solana-sniper/src/onchain_risk.rs:547-565 | the converse: a complete allowed entry in front of an encoded rest is an encoding |
| Token2022.HeadDecides | solana-sniper/src/onchain_risk.rs:542-565 | the first four bytes decide: end of list, an entry to skip with the same verdict behind it, or nothing decodable |
| Token2022.SameVerdict | solana-sniper/src/onchain_risk.rs:562-565 | skipping one entry keeps the verdict |
| Token2022.PrintedIsReadable | solana-sniper/src/onchain_risk.rs:602-618 | the base layout of every initialized mint, whatever follows it, is readable and its two tags are its two authorities |
| Token2022.ReadableIsPrinted | solana-sniper/src/onchain_risk.rs:602-618 | the converse: readable data starts with the layout of an initialized mint with those authorities |
| Token2022.ClassifyMint | solana-sniper/src/onchain_risk.rs:580-618 | Ok exactly for accepted programs and readable initialized mints, with the two authority flags |
| Token2022.ClassifyMintPython | scripts/dex_survey.py:139-176 | the same verdict classes for the Python classifier |
| Token2022.WalkExtensions | scripts/dex_survey.py:149-166 | the advance-then-compare walk accepts the same lists |
| Token2022.MirrorAgrees | scripts/dex_survey.py:139-176 | ok, authority and the rest exactly when Rust under the paper policy says clean, risky and error |
| Discovery.BoundedSet.Insert | solana-sniper/src/pool_discovery.rs:445-456 | accepts exactly the keys not among the last cap accepted; set and queue stay those keys without duplicates |
| Discovery.BoundedSet.Forget | solana-sniper/src/pool_discovery.rs:450-454 | the eviction loop forgets exactly the oldest |
| Discovery.SeparatedSnoc | solana-sniper/src/pool_discovery.rs:182-193 | two acceptances of one key are separated by at least cap others |
| Discovery.WindowDistinct | solana-sniper/src/pool_discovery.rs:182-193 | the last cap + 1 accepted keys are distinct |
| Discovery.PendingSignatures.Push | solana-sniper/src/pool_discovery.rs:274-288 | duplicates ignored, the oldest evicted exactly when full, everything else kept |
| Discovery.PendingSignatures.Pop | solana-sniper/src/pool_discovery.rs:290-293 | oldest first, and never more than five pops of a signature in one stay |
| Discovery.PendingSignatures.Retry | solana-sniper/src/pool_discovery.rs:297-306 | kept exactly before its fifth pop |
| Discovery.PendingSignatures.Done | solana-sniper/src/pool_discovery.rs:308-310 | a settled signature is forgotten |
| Discovery.DailyCap.Reached | solana-sniper/src/pool_discovery.rs:241-243 | compares the number of starts of that UTC day |
| Discovery.DailyCap.Record | solana-sniper/src/pool_discovery.rs:245-248 | the count stays the number of starts of the current day |
| Discovery.DailyCap.GatedStart | solana-sniper/src/pool_discovery.rs:241-256 | starts gated by reached keep every UTC day at or below the cap, and are refused only at the cap |
| Batcher.FetchInBatches | solana-sniper/src/rpc_util.rs:37-72 | for any fetcher and learned size: terminates, an Ok result is the in-order concatenation of the fetcher's own answers with one entry per key; an error is what the fetcher answered to the next batch after the keys served, a wrong count or an error other than a refused size of more than one key; the learned size never grows, at most six refused requests are retried, and without a refusal every batch but the last is full |
| Batcher.SixHalvings | solana-sniper/src/rpc_util.rs:65-67 | a batch of at most 100 can be halved at most six times |

## Left out

- LiveProtocol: the loop of main.rs is a state machine on values, not imperative methods; token amounts are one balance that a sell or a move from outside can reduce, and deposits from outside, cost, peak and price fields, other risk counters and HTTP/HSM failures before an entry are not in it. The open-position limit is the source's 1.
- LiveProtocol.EveryRunIsSafe: assumes sound steps: an Err with unchanged balance, or without a transaction on chain, is only taken as final for a dead transaction, an exit leaves no tokens, and three writes succeed where they matter. For the full promise nothing less is enough (`SoundExactly`). The promise about count and record needs two of the writes only and nothing about the chain (`CountsAlwaysMatch`, `WritesSoundExactly`). `FailedSaveDecides`, `CloseDecides`, `ShortExitDecides`, `StaleRecordHides`, `DropInLoopDecides` and `DroppingDecides` say what happens otherwise. A crash between saving the position and counting the trade loses that trade, so "at most once" is stated.
- ExitRules.RelativeError: stated in one direction. Its condition is nearly tight (`OrdinaryRatioMisses` fails just below it), but below it the truth depends on how two floors round for each pair of prices, not on a guard a caller could check.
- Confirm: reads are indexed by their order; sleeping between polls, signatures and error texts are not modelled.
- LiveProtocol.StartEndsAsDecided: a record file is absent or as it was written; in the source one that cannot be parsed refuses the start.
- LiveProtocol.RecoveryBooks: an undisturbed start is one without environment moves, failed writes, an unanswered lookup, an unreadable wallet or another configuration.
- Risk.GatedRunsStayWithinLimits: models the size and counter checks and the failed-write check of the gate; the switches and the slippage check of `PreTradeCheck` reject more and so only shorten runs. The JSON form of the state, the audit log, live arming and the mutexes are not modelled.
- Risk.RiskManager.RecordOpen: u64 additions wrap as in a release build; the panic of a debug build is not modelled.
- Risk.NoDayExceedsTheCap: assumes a local date that does not run backwards.
- Discovery.DailyCap.Reached: assumes, like the other two operations, a clock that does not run backwards.
- Discovery: candidates of the watch list (add, expire, take_due, reschedule), program-log parsing and persistence; only the watch list's dedup memory is covered, as a `BoundedSet` of capacity 100 000.
- WideMath: shifts, masks and wrapping subtraction are written arithmetically; that nothing overflows is proved by the 128-bit types of the locals.
- PaperSim.PaperSimulator.BookClose: the round-trip cost estimate is an input, its formula (sim_quote.rs) is not modelled; metrics and decision records are left out.
- RingBuffer.SlotRingBuffer.Push: requires slot + capacity to fit a u64; beyond that the source panics (debug) or wraps (release).
- RingBuffer.SlotRingBuffer.PopReady: requires a watermark below u64::MAX, for the same reason. The released and polled counters are unbounded.
- Pipeline.MarketDataPipeline.Offer: requires the slot to leave that room.
- Pipeline.MarketDataPipeline.Process: requires the slot to leave that room, like `PollAll` and `RunToCompletion` for every event of the source.
- TickArrays.InitializedStarts: requires an aligned start, as its one caller passes; for others the source reads neighbouring bits.
- Pipeline: `next`, `stats`, resets and forced dedup are left out; a source is a finite script that ends closed, so an endlessly idle one is not covered.
- SigningPolicy: error texts are codes (a missing account and an index out of range share one in pass 2); addresses are opaque and address derivation is any function. The interpreter excludes fees, account rent and the token side of a swap.
- TickArrays: PDA derivation, account parsing and `select_tick_arrays`.
- Token2022: extension names in error texts; public keys are three owner classes.
- Batcher: one caller at a time, so concurrent changes of the learned size are not covered.
- RPC, WebSocket and gRPC clients, TLS, Jito submission, metrics, command line, floating-point indicators and scores, swap quoting, configuration validation and reports are not part of this model.
