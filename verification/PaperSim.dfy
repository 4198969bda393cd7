/** The paper-trading state machine (main.rs, `PaperSimulator`). */
module PaperSim {
  import opened Base
  import opened WideMath
  import opened ExitRules

  datatype Candidate = Candidate(liquidity: u64, marketCap: u64, holders: u64, isBlocklisted: bool)
  datatype EntrySignal = EntrySignal(positionSize: u64, slippageBps: u64, entrySqrt: u128)
  datatype PaperPosition = PaperPosition(
    entrySqrt: u128, size: u64, entryLiquidity: u64, openedAtMs: u64, peak: u128, trough: u128)
  datatype PaperClose = PaperClose(gross: i64, net: i64, cost: u64, holdMs: u64, mfeBps: i64, maeBps: i64)
  datatype PaperTick =
    | ClosedStopLoss(pnl: i64)
    | ClosedTakeProfit(pnl: i64)
    | ClosedForced(decision: ExitDecision, pnl: i64)
    | HoldTick
    | NoEntrySignal
    | EntryPending(sig: EntrySignal)

  function Evaluate(cfg: StrategyConfig, c: Candidate, entrySqrt: u128): Option<EntrySignal> {
    if c.isBlocklisted || c.liquidity < cfg.minLiquidity || c.marketCap > cfg.maxMarketCap then None
    else Some(EntrySignal(cfg.maxTradeSize, cfg.maxSlippageBps, entrySqrt))
  }

  /** The pool price is token1/token0: with token0 as input the held token gains when it falls. */
  function Oriented(inputIsToken0: bool, entrySqrt: u128, currentSqrt: u128): (u128, u128) {
    if inputIsToken0 then (currentSqrt, entrySqrt) else (entrySqrt, currentSqrt)
  }

  /** The exit rule a tick has to apply, as a priority list: price exits on a representable
      ratio, then a liquidity drop, then the holding time. */
  function Verdict(cfg: StrategyConfig, ratio: Option<u128>, peak: u128, liquidityGone: bool,
      tooLong: bool): ExitDecision {
    if ratio.Some? && ExitWithPeak(cfg, ratio.value, peak) != Hold then ExitWithPeak(cfg, ratio.value, peak)
    else if liquidityGone then LiquidityDrop
    else if tooLong then MaxHoldTime
    else Hold
  }

  /** The position after a tick has seen `ratio`. */
  function Observed(p: PaperPosition, ratio: Option<u128>): PaperPosition {
    match ratio
    case None => p
    case Some(r) => p.(peak := Max(p.peak, r), trough := Min(p.trough, r))
  }

  /** The decision on a position whose value has moved with the square from `from` to `to`. */
  function Decision(cfg: StrategyConfig, p: PaperPosition, from: u128, to: u128, liquidity: u64, nowMs: u64,
      maxHoldMs: u64): ExitDecision {
    Verdict(cfg, PriceRatio(from, to), Observed(p, PriceRatio(from, to)).peak,
            LiquidityDropped(p.entryLiquidity, liquidity), maxHoldMs > 0 && Max(nowMs - p.openedAtMs, 0) >= maxHoldMs)
  }

  /** The tick that reports an exit. */
  function Closed(exit: ExitDecision, pnl: i64): PaperTick {
    match exit
    case StopLoss => ClosedStopLoss(pnl)
    case TakeProfit => ClosedTakeProfit(pnl)
    case _ => ClosedForced(exit, pnl)
  }

  /** What a close reports about the position it closes. */
  predicate Reports(c: PaperClose, pos: PaperPosition, gross: i64, cost: u64, nowMs: u64) {
    && c.gross == gross && c.cost == cost && c.net == SatAddI64(gross, -Min(cost, I64_MAX))
    && c.mfeBps == RatioToBps(pos.peak) && c.maeBps == RatioToBps(pos.trough)
    && c.holdMs == Max(nowMs - pos.openedAtMs, 0)
  }

  function ExitOf(t: PaperTick): ExitDecision {
    match t
    case ClosedStopLoss(_) => StopLoss
    case ClosedTakeProfit(_) => TakeProfit
    case ClosedForced(exit, _) => exit
    case _ => Hold
  }

  /** A tick of a position whose value has moved with the square from `e` to `c`: up is a gain and may
      take profit, down is a loss and may stop it, by the exact ratio. */
  predicate FairMove(cfg: StrategyConfig, size: u64, e: u128, c: u128, t: PaperTick) {
    && FairExit(cfg, e, c, ExitOf(t))
    && (t.ClosedStopLoss? || t.ClosedTakeProfit? || t.ClosedForced? ==> FairPnl(e, c, size, t.pnl))
  }

  /** Forced exits happen on their own evidence: at most half of a known entry liquidity is left, or
      the holding time is over; a hold means neither. */
  predicate FairForce(p: PaperPosition, liquidity: u64, nowMs: u64, maxHoldMs: u64, t: PaperTick) {
    && (ExitOf(t) == LiquidityDrop ==> p.entryLiquidity > 0 && 2 * liquidity <= p.entryLiquidity)
    && (ExitOf(t) == MaxHoldTime || ExitOf(t) == Hold ==> p.entryLiquidity == 0 || 2 * liquidity > p.entryLiquidity)
    && (ExitOf(t) == MaxHoldTime ==> maxHoldMs > 0 && nowMs >= p.openedAtMs + maxHoldMs)
    && (ExitOf(t) == Hold ==> maxHoldMs == 0 || nowMs < p.openedAtMs + maxHoldMs)
  }

  /** The decision and the P&L of a tick, in pool prices: with token1 as input the position gains when
      the price rises above the entry, with token0 as input when it falls below it. */
  lemma FairEitherWay(cfg: StrategyConfig, inputIsToken0: bool, p: PaperPosition, currentSqrt: u128, liquidity: u64,
      nowMs: u64, maxHoldMs: u64, t: PaperTick)
    requires var (from, to) := Oriented(inputIsToken0, p.entrySqrt, currentSqrt);
             && ExitOf(t) == Decision(cfg, p, from, to, liquidity, nowMs, maxHoldMs)
             && (t.ClosedStopLoss? || t.ClosedTakeProfit? || t.ClosedForced? ==>
                t.pnl == SimulatedPnl(from, to, p.size))
    ensures !inputIsToken0 ==> FairMove(cfg, p.size, p.entrySqrt, currentSqrt, t)
    ensures inputIsToken0 ==> FairMove(cfg, p.size, currentSqrt, p.entrySqrt, t)
    ensures FairForce(p, liquidity, nowMs, maxHoldMs, t)
  {
    var (from, to) := Oriented(inputIsToken0, p.entrySqrt, currentSqrt);
    SimulatedIsFair(from, to, p.size);
    PriceExitIsFair(cfg, from, to);
    VerdictPriority(cfg, PriceRatio(from, to), Observed(p, PriceRatio(from, to)).peak,
                    LiquidityDropped(p.entryLiquidity, liquidity),
                    maxHoldMs > 0 && Max(nowMs - p.openedAtMs, 0) >= maxHoldMs);
  }

  class PaperSimulator {
    const cfg: StrategyConfig
    var inputIsToken0: bool
    const maxHoldMs: u64
    var position: Option<PaperPosition>
    var entries: nat
    var exitsStopLoss: nat
    var exitsTakeProfit: nat
    var exitsForced: nat
    var holds: nat
    var noEntrySignals: nat
    var grossPnl: i64
    var netPnl: i64
    var costs: u64
    var lastLiquidity: u64
    var nowMs: u64
    var lastClose: Option<PaperClose>

    /** Every ratio observed since the entry, every close booked, the positions overwritten by a
        later entry, and whether any running total has ever been clipped. */
    ghost var seen: seq<u128>
    ghost var closes: seq<PaperClose>
    ghost var replaced: nat
    ghost var clipped: bool

    ghost predicate Valid()
      reads this
    {
      && entries == |closes| + replaced + (if position.Some? then 1 else 0)
      && exitsStopLoss + exitsTakeProfit + exitsForced == |closes|
      && (!clipped ==> netPnl == grossPnl - costs && grossPnl == SumGross(closes) && costs == SumCost(closes))
      && (closes == [] ==> lastClose == None)
      && (closes != [] ==> lastClose == Some(closes[|closes| - 1]))
      && (position.Some? ==> Extremes(position.value, seen))
    }

    constructor (cfg: StrategyConfig, inputIsToken0: bool, maxHoldMs: u64)
      ensures Valid() && position == None && closes == [] && !clipped && replaced == 0
    {
      this.cfg, this.inputIsToken0, this.maxHoldMs := cfg, inputIsToken0, maxHoldMs;
      position, lastClose := None, None;
      entries, exitsStopLoss, exitsTakeProfit, exitsForced, holds, noEntrySignals := 0, 0, 0, 0, 0, 0;
      grossPnl, netPnl, costs, lastLiquidity, nowMs := 0, 0, 0, 0, 0;
      seen, closes, replaced, clipped := [], [], 0, false;
    }

    /** `book_close`; `cost` is the round-trip cost estimate for this close. */
    method BookClose(pos: PaperPosition, gross: i64, cost: u64)
      modifies this`grossPnl, this`netPnl, this`costs, this`lastClose, this`closes, this`clipped
      ensures lastClose.Some? && closes == old(closes) + [lastClose.value]
      ensures Reports(lastClose.value, pos, gross, cost, nowMs)
      ensures !clipped ==> !old(clipped) && grossPnl == old(grossPnl) + gross && costs == old(costs) + cost &&
                           netPnl == old(netPnl) + gross - cost
      ensures clipped && !old(clipped) ==>
                old(grossPnl) + gross != grossPnl || old(costs) + cost != costs || old(netPnl) + gross - cost != netPnl
    {
      var net := SatAddI64(gross, -Min(cost, I64_MAX));
      ghost var exactGross, exactNet, exactCosts := grossPnl + gross, netPnl + gross - cost, costs + cost;
      grossPnl := SatAddI64(grossPnl, gross);
      netPnl := SatAddI64(netPnl, net);
      costs := SatAdd64(costs, cost);
      lastClose := Some(PaperClose(gross, net, cost, Max(nowMs - pos.openedAtMs, 0), RatioToBps(pos.peak),
        RatioToBps(pos.trough)));
      closes := closes + [lastClose.value];
      clipped := clipped || grossPnl != exactGross || netPnl != exactNet || costs != exactCosts;
    }

    /** Price part of `tick`: fold the ratio into the extremes and ask the price exits. */
    method PriceExit(from: u128, to: u128) returns (exit: ExitDecision)
      requires position.Some? && Extremes(position.value, seen)
      modifies this`position, this`seen
      ensures position.Some? && Extremes(position.value, seen)
      ensures var ratio := PriceRatio(from, to);
              && position.value == Observed(old(position).value, ratio)
              && seen == (if ratio.Some? then old(seen) + [ratio.value] else old(seen))
              && exit == (if ratio.Some? then ExitWithPeak(cfg, ratio.value, position.value.peak) else Hold)
    {
      exit := Hold;
      var ratio := PriceRatio(from, to);
      if ratio.Some? {
        var pos := position.value;
        pos := pos.(peak := Max(pos.peak, ratio.value));
        pos := pos.(trough := Min(pos.trough, ratio.value));
        position := Some(pos);
        seen := seen + [ratio.value];
        exit := ExitWithPeak(cfg, ratio.value, pos.peak);
      }
    }

    /** The whole exit decision of `tick`. */
    method Decide(c: Candidate, from: u128, to: u128) returns (exit: ExitDecision)
      requires position.Some? && Extremes(position.value, seen)
      modifies this`position, this`seen
      ensures position.Some? && Extremes(position.value, seen) && (old(Valid()) ==> Valid())
      ensures var ratio, p := PriceRatio(from, to), old(position).value;
              && position.value == Observed(p, ratio)
              && seen == (if ratio.Some? then old(seen) + [ratio.value] else old(seen))
              && exit == Decision(cfg, p, from, to, c.liquidity, nowMs, maxHoldMs)
    {
      var p := position.value;
      exit := PriceExit(from, to);
      if exit == Hold {
        if LiquidityDropped(p.entryLiquidity, c.liquidity) {
          exit := LiquidityDrop;
        } else if maxHoldMs > 0 && Max(nowMs - p.openedAtMs, 0) >= maxHoldMs {
          exit := MaxHoldTime;
        }
      }
    }

    /** Closing part of `tick`: book, count under the right heading, drop the position. */
    method Close(exit: ExitDecision, pnl: i64, cost: u64) returns (t: PaperTick)
      requires Valid() && position.Some? && exit != Hold
      modifies this
      ensures Valid() && position == None && entries == old(entries) && seen == old(seen) && replaced == old(replaced)
      ensures nowMs == old(nowMs) && lastLiquidity == old(lastLiquidity) && inputIsToken0 == old(inputIsToken0)
      ensures holds == old(holds) && noEntrySignals == old(noEntrySignals)
      ensures |closes| == |old(closes)| + 1 && Reports(lastClose.value, old(position).value, pnl, cost, nowMs)
      ensures t == Closed(exit, pnl) && lastClose.value.maeBps <= 0 <= lastClose.value.mfeBps
      ensures var start, held := old(position).value.openedAtMs, lastClose.value.holdMs;
              if start <= nowMs then start + held == nowMs else held == 0
      ensures exitsStopLoss == old(exitsStopLoss) + (if t.ClosedStopLoss? then 1 else 0)
      ensures exitsTakeProfit == old(exitsTakeProfit) + (if t.ClosedTakeProfit? then 1 else 0)
    {
      BookClose(position.value, pnl, cost);
      SumsSnoc(old(closes), lastClose.value);
      position := None;
      if exit == StopLoss {
        exitsStopLoss := exitsStopLoss + 1;
        return ClosedStopLoss(pnl);
      } else if exit == TakeProfit {
        exitsTakeProfit := exitsTakeProfit + 1;
        return ClosedTakeProfit(pnl);
      }
      exitsForced := exitsForced + 1;
      return ClosedForced(exit, pnl);
    }

    /** What a tick does to an open position: it absorbs the ratio, and exactly what the verdict
        says happens, with the P&L of this price and within the operator's limits. */
    twostate predicate Managed(c: Candidate, currentSqrt: u128, cost: u64, t: PaperTick)
      requires old(position).Some?
      reads this
    {
      var p := old(position).value;
      var (from, to) := Oriented(inputIsToken0, p.entrySqrt, currentSqrt);
      var ratio := PriceRatio(from, to);
      var now := Observed(p, ratio);
      var d := Decision(cfg, p, from, to, c.liquidity, nowMs, maxHoldMs);
      var pnl := SimulatedPnl(from, to, p.size);
      && seen == (if ratio.Some? then old(seen) + [ratio.value] else old(seen))
      && (if d == Hold then t == HoldTick && position == Some(now) && closes == old(closes)
          else
            && position == None && |closes| == |old(closes)| + 1 && lastClose.Some?
            && Reports(lastClose.value, now, pnl, cost, nowMs) && t == Closed(d, pnl))
      && WithinLimits(cfg, p.size, t)
    }

    /** The part of `tick` for an open position. */
    method Manage(c: Candidate, currentSqrt: u128, cost: u64) returns (t: PaperTick)
      requires Valid() && position.Some?
      modifies this
      ensures Valid() && Managed(c, currentSqrt, cost, t)
      ensures entries == old(entries) && replaced == old(replaced) && nowMs == old(nowMs)
      ensures lastLiquidity == old(lastLiquidity) && inputIsToken0 == old(inputIsToken0)
      ensures exitsStopLoss == old(exitsStopLoss) + (if t.ClosedStopLoss? then 1 else 0)
      ensures exitsTakeProfit == old(exitsTakeProfit) + (if t.ClosedTakeProfit? then 1 else 0)
      ensures holds == old(holds) + (if t == HoldTick then 1 else 0) && noEntrySignals == old(noEntrySignals)
      ensures t != NoEntrySignal
    {
      var p := position.value;
      var (from, to) := Oriented(inputIsToken0, p.entrySqrt, currentSqrt);
      var exit := Decide(c, from, to);
      assert Valid();
      if exit == Hold {
        holds := holds + 1;
        t := HoldTick;
      } else {
        var pnl := SimulatedPnl(from, to, p.size);
        t := Close(exit, pnl, cost);
        ClosesWithinLimits(cfg, from, to, p.size, t);
      }
    }

    /** `tick`: exits first while a position is open, the entry filter otherwise. */
    method Tick(c: Candidate, currentSqrt: u128, cost: u64) returns (t: PaperTick)
      requires Valid()
      modifies this
      ensures Valid() && entries == old(entries) && replaced == old(replaced)
      ensures nowMs == old(nowMs) && lastLiquidity == c.liquidity && inputIsToken0 == old(inputIsToken0)
      ensures old(position).None? ==>
                position == None && closes == old(closes) &&
                t == match Evaluate(cfg, c, currentSqrt)
                     { case Some(sig) => EntryPending(sig) case None => NoEntrySignal }
      ensures old(position).None? ==>
                (t.EntryPending? <==>
                 !c.isBlocklisted && c.liquidity >= cfg.minLiquidity && c.marketCap <= cfg.maxMarketCap) &&
                (t.EntryPending? ==> t.sig == EntrySignal(cfg.maxTradeSize, cfg.maxSlippageBps, currentSqrt))
      ensures old(position).Some? ==> Managed(c, currentSqrt, cost, t)
      ensures old(position).Some? && !inputIsToken0 ==>
                FairMove(cfg, old(position).value.size, old(position).value.entrySqrt, currentSqrt, t)
      ensures old(position).Some? && inputIsToken0 ==>
                FairMove(cfg, old(position).value.size, currentSqrt, old(position).value.entrySqrt, t)
      ensures old(position).Some? ==> FairForce(old(position).value, c.liquidity, nowMs, maxHoldMs, t)
      ensures exitsStopLoss == old(exitsStopLoss) + (if t.ClosedStopLoss? then 1 else 0)
      ensures exitsTakeProfit == old(exitsTakeProfit) + (if t.ClosedTakeProfit? then 1 else 0)
      ensures holds == old(holds) + (if t == HoldTick then 1 else 0)
      ensures noEntrySignals == old(noEntrySignals) + (if t == NoEntrySignal then 1 else 0)
    {
      lastLiquidity := c.liquidity;
      if position.Some? {
        t := Manage(c, currentSqrt, cost);
        FairEitherWay(cfg, inputIsToken0, old(position).value, currentSqrt, c.liquidity, nowMs, maxHoldMs, t);
        return t;
      }
      match Evaluate(cfg, c, currentSqrt)
      case Some(sig) =>
        return EntryPending(sig);
      case None =>
        noEntrySignals := noEntrySignals + 1;
        return NoEntrySignal;
    }

    /** `confirm_entry`: the new position replaces whatever was open. */
    method ConfirmEntry(entrySqrt: u128, sig: EntrySignal)
      requires Valid()
      modifies this`position, this`entries, this`seen, this`replaced
      ensures Valid() && entries == old(entries) + 1 && seen == []
      ensures replaced == old(replaced) + (if old(position).Some? then 1 else 0)
      ensures position ==
              Some(PaperPosition(entrySqrt, sig.positionSize, lastLiquidity, nowMs, RATIO_SCALE, RATIO_SCALE))
    {
      replaced := replaced + (if position.Some? then 1 else 0);
      position := Some(PaperPosition(entrySqrt, sig.positionSize, lastLiquidity, nowMs, RATIO_SCALE, RATIO_SCALE));
      entries := entries + 1;
      seen := [];
    }

    /** One iteration of the paper loop: a tick, and a confirmation only of a pending entry that
        the gates accept. So nothing is ever replaced, and entries are exits plus what is open. */
    method Iterate(c: Candidate, now: u64, token0: bool, currentSqrt: u128, cost: u64, accepted: bool)
      returns (t: PaperTick)
      requires Valid() && replaced == 0
      modifies this
      ensures Valid() && replaced == 0
      ensures entries == exitsStopLoss + exitsTakeProfit + exitsForced + (if position.Some? then 1 else 0)
      ensures entries == old(entries) + (if t.EntryPending? && accepted then 1 else 0)
      ensures t.EntryPending? && accepted ==>
                position ==
                Some(PaperPosition(currentSqrt, t.sig.positionSize, c.liquidity, now, RATIO_SCALE, RATIO_SCALE))
      ensures t.EntryPending? ==> old(position) == None && closes == old(closes)
    {
      inputIsToken0, nowMs := token0, now;
      t := Tick(c, currentSqrt, cost);
      if t.EntryPending? && accepted {
        ConfirmEntry(currentSqrt, t.sig);
      }
    }
  }

  /** A stop-loss close books at least the configured loss, a take-profit close at least the
      configured gain, on the size that was entered (up to i64 saturation). */
  ghost predicate WithinLimits(cfg: StrategyConfig, size: u64, t: PaperTick) {
    && (t.ClosedStopLoss? ==>
          MulDivCeil(size, cfg.stopLossBps, 10_000).Some? &&
          t.pnl <= -Min(MulDivCeil(size, cfg.stopLossBps, 10_000).value, I64_MAX))
    && (t.ClosedTakeProfit? ==> t.pnl >= Min(size * cfg.takeProfitBps / 10_000, I64_MAX))
  }

  lemma ClosesWithinLimits(cfg: StrategyConfig, from: u128, to: u128, size: u64, t: PaperTick)
    requires t.ClosedStopLoss? || t.ClosedTakeProfit? ==>
             PriceRatio(from, to).Some? && t.pnl == SimulatedPnl(from, to, size)
    requires t.ClosedStopLoss? ==> ExitOnRatio(cfg, PriceRatio(from, to).value) == StopLoss
    requires t.ClosedTakeProfit? ==> ExitOnRatio(cfg, PriceRatio(from, to).value) == TakeProfit
    ensures WithinLimits(cfg, size, t)
  {
    if PriceRatio(from, to).Some? {
      ClosePnl(cfg, PriceRatio(from, to).value, size);
    }
  }

  /** Peak and trough are the extremes of 1.0 and every ratio seen since the entry. */
  ghost predicate Extremes(p: PaperPosition, seen: seq<u128>) {
    && p.trough <= RATIO_SCALE <= p.peak
    && (forall r :: r in seen ==> p.trough <= r <= p.peak)
    && (p.peak == RATIO_SCALE || p.peak in seen)
    && (p.trough == RATIO_SCALE || p.trough in seen)
  }

  ghost function SumGross(cs: seq<PaperClose>): int {
    if cs == [] then 0 else SumGross(cs[..|cs| - 1]) + cs[|cs| - 1].gross
  }

  ghost function SumCost(cs: seq<PaperClose>): int {
    if cs == [] then 0 else SumCost(cs[..|cs| - 1]) + cs[|cs| - 1].cost
  }

  lemma SumsSnoc(cs: seq<PaperClose>, c: PaperClose)
    ensures SumGross(cs + [c]) == SumGross(cs) + c.gross && SumCost(cs + [c]) == SumCost(cs) + c.cost
  {
    assert (cs + [c])[..|cs|] == cs;
  }

  /** A position only ever closes on evidence: with no representable price ratio, enough
      liquidity and time left, the verdict is Hold; and a forced exit never hides a price exit. */
  lemma VerdictPriority(cfg: StrategyConfig, ratio: Option<u128>, peak: u128, gone: bool, tooLong: bool)
    ensures ratio.None? ==>
            !Verdict(cfg, ratio, peak, gone, tooLong).StopLoss? && !Verdict(cfg, ratio, peak, gone, tooLong).TakeProfit?
    ensures ratio.Some? && ExitOnRatio(cfg, ratio.value) != Hold ==>
            Verdict(cfg, ratio, peak, gone, tooLong) == ExitOnRatio(cfg, ratio.value)
    ensures Verdict(cfg, ratio, peak, gone, tooLong) == TrailingStop <==>
            ratio.Some? && ExitOnRatio(cfg, ratio.value) == Hold && 0 < cfg.trailingStopBps < 10_000 &&
            peak >= RATIO_SCALE + cfg.trailingActivationBps * BP &&
            ratio.value * 10_000 <= peak * (10_000 - cfg.trailingStopBps)
    ensures var priced := ratio.Some? && (ExitOnRatio(cfg, ratio.value) != Hold ||
                                          TrailingTriggered(cfg, ratio.value, peak));
            && (Verdict(cfg, ratio, peak, gone, tooLong) == LiquidityDrop <==> !priced && gone)
            && (Verdict(cfg, ratio, peak, gone, tooLong) == MaxHoldTime <==> !priced && !gone && tooLong)
            && (Verdict(cfg, ratio, peak, gone, tooLong) == Hold <==> !priced && !gone && !tooLong)
  {
    if ratio.Some? {
      TrailingThreshold(cfg, ratio.value, peak);
    }
  }
}
