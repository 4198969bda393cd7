/** Integer price ratios, exit decisions and P&L of one position (strategy.rs). */
module ExitRules {
  import opened Base
  import opened WideMath

  /** 1.0 as a scaled ratio; one basis point is BP. */
  const RATIO_SCALE: u128 := 1_000_000_000_000
  const BP: u128 := 100_000_000

  datatype ExitDecision = Hold | StopLoss | TakeProfit | MaxHoldTime | LiquidityDrop | TrailingStop

  datatype StrategyConfig = StrategyConfig(
    minLiquidity: u64, maxTradeSize: u64, maxSlippageBps: u64, stopLossBps: u64, takeProfitBps: u64,
    trailingStopBps: u64, trailingActivationBps: u64, maxMarketCap: u64)

  function BpsToScaled(bps: u64): u128 {
    bps * BP
  }

  function ValueRatio(cost: u64, value: u64): Option<u128> {
    MulDivFloor(value, RATIO_SCALE, cost)
  }

  function PriceRatio(entry: u128, current: u128): Option<u128> {
    match MulDivFloor(current, RATIO_SCALE, entry)
    case None => None
    case Some(sqrt) => MulDivFloor(sqrt, sqrt, RATIO_SCALE)
  }

  function ExitOnRatio(cfg: StrategyConfig, ratio: u128): ExitDecision {
    var tp, sl := BpsToScaled(cfg.takeProfitBps), BpsToScaled(cfg.stopLossBps);
    if ratio >= RATIO_SCALE then
      if ratio - RATIO_SCALE >= tp then TakeProfit else Hold
    else if RATIO_SCALE - ratio >= sl then StopLoss
    else Hold
  }

  predicate TrailingTriggered(cfg: StrategyConfig, ratio: u128, peak: u128) {
    var trail := cfg.trailingStopBps;
    if trail == 0 || trail >= 10_000 then false
    else if peak < RATIO_SCALE + BpsToScaled(cfg.trailingActivationBps) then false
    else
      var floor := match MulDivFloor(peak, 10_000 - trail, 10_000) case None => 0 case Some(f) => f;
      ratio <= floor
  }

  function ExitWithPeak(cfg: StrategyConfig, ratio: u128, peak: u128): ExitDecision {
    var d := ExitOnRatio(cfg, ratio);
    if d == Hold && TrailingTriggered(cfg, ratio, peak) then TrailingStop else d
  }

  function ShouldExitValue(cfg: StrategyConfig, cost: u64, value: u64): ExitDecision {
    match ValueRatio(cost, value)
    case None => Hold
    case Some(ratio) => ExitOnRatio(cfg, ratio)
  }

  function PnlFromRatio(ratio: u128, position: u64): i64 {
    if ratio >= RATIO_SCALE then
      var gain :=
        match MulDivFloor(position, ratio - RATIO_SCALE, RATIO_SCALE) case None => TWO128 - 1 case Some(g) => g;
      Min(gain, I64_MAX)
    else
      var loss := match MulDivCeil(position, RATIO_SCALE - ratio, RATIO_SCALE) case None => position case Some(l) => l;
      -Min(Min(loss, position), I64_MAX)
  }

  function SimulatedPnl(entry: u128, current: u128, position: u64): i64 {
    match PriceRatio(entry, current)
    case None => 0
    case Some(ratio) => PnlFromRatio(ratio, position)
  }

  function RatioToBps(ratio: u128): i64 {
    if ratio >= RATIO_SCALE then Min((ratio - RATIO_SCALE) / BP, I64_MAX) else -((RATIO_SCALE - ratio) / BP)
  }

  /** Liquidity at least half gone; an unknown entry level (0) never triggers. */
  predicate LiquidityDropped(atEntry: u64, current: u64) {
    atEntry != 0 && current <= atEntry * 5_000 / 10_000
  }

  // ---------------------------------------------------------------- price ratio

  /** The two roundings never push the ratio above (current/entry)^2, and lose less than
      2 * current / entry + 1 scaled units. */
  lemma PriceRatioError(e: u128, c: u128)
    requires PriceRatio(e, c).Some?
    ensures var r := PriceRatio(e, c).value;
            r * (e * e) <= c * c * RATIO_SCALE < r * (e * e) + 2 * (c * e) + e * e
  {
    var s, t := c * RATIO_SCALE / e, c * RATIO_SCALE % e;
    var r, u := s * s / RATIO_SCALE, s * s % RATIO_SCALE;
    DivMod(c * RATIO_SCALE, e);
    DivMod(s * s, RATIO_SCALE);
    SquareError(e, c, RATIO_SCALE, s, t, r, u);
  }

  /** The rounding argument over plain integers: c*k = s*e + t and s*s = r*k + u. */
  lemma SquareError(e: nat, c: nat, k: nat, s: nat, t: nat, r: nat, u: nat)
    requires k > 0 && t < e && u < k && c * k == s * e + t && s * s == r * k + u
    ensures r * (e * e) <= c * c * k < r * (e * e) + 2 * (c * e) + e * e
  {
    var se, ee := s * e, e * e;
    var gap := u * ee + 2 * (se * t) + t * t;
    calc {
      (c * c * k) * k;
      { Regroup(c, k); }
      (se + t) * (se + t);
      { SquareOfSum(se, t); }
      se * se + 2 * (se * t) + t * t;
      { Regroup2(s, e); }
      (s * s) * ee + 2 * (se * t) + t * t;
      { Distribute(r, k, u, ee); }
      (r * ee) * k + gap;
    }
    GapBound(e, c, k, se, t, u, ee);
    CancelLess(r * ee, c * c * k, k, gap, 2 * (c * e) + ee);
  }

  lemma Regroup(c: nat, k: nat)
    ensures (c * c * k) * k == (c * k) * (c * k)
  {
  }

  lemma Regroup2(s: nat, e: nat)
    ensures (s * e) * (s * e) == (s * s) * (e * e)
  {
  }

  lemma SquareOfSum(x: nat, y: nat)
    ensures (x + y) * (x + y) == x * x + 2 * (x * y) + y * y
  {
  }

  lemma Distribute(r: nat, k: nat, u: nat, ee: nat)
    ensures (r * k + u) * ee == (r * ee) * k + u * ee
  {
  }

  lemma GapBound(e: nat, c: nat, k: nat, se: nat, t: nat, u: nat, ee: nat)
    requires k > 0 && t < e && u < k && c * k == se + t && ee == e * e
    ensures 0 <= u * ee + 2 * (se * t) + t * t < k * (2 * (c * e) + ee)
  {
    MulMono(1, 1, e, e);
    MulStep(u, k, ee);
    MulMono(0, 0, u, ee);
    Cross(se, t, e);
    Commute3(c, k, e);
    Sum2(k, c * e, ee);
  }

  lemma Cross(se: nat, t: nat, e: nat)
    requires t < e
    ensures 0 <= 2 * (se * t) + t * t <= 2 * ((se + t) * e)
  {
    MulMono(se + t, t, se + t, e);
    Distribute(se, 1, t, t);
    MulMono(0, 0, se, t);
    MulMono(0, 0, t, t);
  }

  lemma Commute3(c: nat, k: nat, e: nat)
    ensures (c * k) * e == k * (c * e)
  {
  }

  lemma Sum2(k: nat, x: nat, y: nat)
    ensures k * (2 * x + y) == 2 * (k * x) + k * y
  {
  }

  lemma CancelLess(x: nat, y: nat, k: nat, gap: nat, bound: nat)
    requires k > 0 && y * k == x * k + gap && gap < k * bound
    ensures x <= y < x + bound
  {
    assert (x + bound) * k == x * k + k * bound;
    if y < x {
      MulStep(y, x, k);
    } else if y >= x + bound {
      MulMono(x + bound, k, y, k);
    }
  }

  /** The result is missing exactly when the entry is zero or the floored square needs more
      than 128 bits; overflow of the first division alone never decides. */
  lemma PriceRatioNone(e: u128, c: u128)
    ensures PriceRatio(e, c).None? <==> e == 0 || (c * RATIO_SCALE / e) * (c * RATIO_SCALE / e) / RATIO_SCALE >= TWO128
  {
    if e != 0 {
      var s := c * RATIO_SCALE / e;
      if s >= TWO128 {
        MulMono(TWO128, TWO128, s, s);
        DivAtLeast(s * s, RATIO_SCALE, TWO128);
      }
    }
  }

  /** The documented limit of about 3.4e14 x is not where the function stops: 10^16 x is
      still represented, and exactly. */
  lemma LargeRatioIsRepresented()
    ensures PriceRatio(1, 100_000_000) == Some(10_000_000_000_000_000 * RATIO_SCALE)
  {
  }

  lemma FloorMono(x: nat, y: nat, d: nat)
    requires d > 0 && x <= y
    ensures x / d <= y / d
  {
    DivAtLeast(x, d, x / d);
    DivAtLeast(y, d, x / d);
  }

  lemma PriceRatioMonotone(e: u128, c: u128, c': u128)
    requires c <= c' && PriceRatio(e, c').Some?
    ensures PriceRatio(e, c).Some? && PriceRatio(e, c).value <= PriceRatio(e, c').value
  {
    FloorMono(c * RATIO_SCALE, c' * RATIO_SCALE, e);
    var s, s' := c * RATIO_SCALE / e, c' * RATIO_SCALE / e;
    MulMono(s, s, s', s');
    FloorMono(s * s, s' * s', RATIO_SCALE);
  }

  /** (exact - result) / exact < 10^-11, cleared of denominators. */
  predicate RelativeErrorBelow1e11(e: nat, c: nat, r: nat) {
    (c * c * RATIO_SCALE - r * (e * e)) * 100_000_000_000 < c * c * RATIO_SCALE
  }

  /** The documented accuracy holds for every ratio with 10 c^2 >= 2ce + e^2, in particular
      whenever the price has at most quartered since entry (2c >= e). */
  lemma RelativeError(e: u128, c: u128)
    requires PriceRatio(e, c).Some?
    ensures 10 * (c * c) >= 2 * (c * e) + e * e ==> RelativeErrorBelow1e11(e, c, PriceRatio(e, c).value)
    ensures 2 * c >= e ==> RelativeErrorBelow1e11(e, c, PriceRatio(e, c).value)
  {
    PriceRatioError(e, c);
    var cc, ce, ee := c * c, c * e, e * e;
    if 2 * c >= e {
      MulMono(e, e, 2 * c, e);
      MulMono(e, c, 2 * c, c);
      assert ee <= 2 * ce && ce <= 2 * cc by { DoubleProduct(c, e); DoubleProduct(c, c); }
    }
    AccurateEnough(cc, ce, ee, PriceRatio(e, c).value * ee);
  }

  lemma DoubleProduct(c: nat, e: nat)
    ensures (2 * c) * e == 2 * (c * e)
  {
  }

  lemma AccurateEnough(cc: nat, ce: nat, ee: nat, re: nat)
    requires cc * RATIO_SCALE < re + 2 * ce + ee
    ensures 10 * cc >= 2 * ce + ee ==> (cc * RATIO_SCALE - re) * 100_000_000_000 < cc * RATIO_SCALE
  {
  }

  /** Below a price of 10^-12 of the entry the result is 0: the whole value is lost to
      rounding, so the documented accuracy fails on all of that range. */
  lemma TinyRatiosVanish(e: u128, c: u128)
    requires 0 < c && c * 1_000_000 < e
    ensures PriceRatio(e, c) == Some(0) && !RelativeErrorBelow1e11(e, c, 0)
  {
    var s := c * RATIO_SCALE / e;
    DivAtLeast(c * RATIO_SCALE, e, 1_000_000);
    assert s < 1_000_000;
    MulMono(s, s, 999_999, 999_999);
    DivAtLeast(s * s, RATIO_SCALE, 1);
    DivAtLeast(s * s, RATIO_SCALE, 0);
    MulMono(1, 1, c, c);
  }

  /** It already fails at an ordinary ratio, about 0.186, just below that condition. */
  lemma OrdinaryRatioMisses()
    ensures var e, c := 1_153_713_429_648_868_578, 497_362_813_040_942_592;
            PriceRatio(e, c).Some? && !RelativeErrorBelow1e11(e, c, PriceRatio(e, c).value)
  {
    var e, c := 1_153_713_429_648_868_578, 497_362_813_040_942_592;
    DivModUnique(c * RATIO_SCALE, e, 431_097_359_412, 1_153_117_670_780_643_864);
    DivModUnique(431_097_359_412 * 431_097_359_412, RATIO_SCALE, 185_844_933_291, 999_104_985_744);
    assert PriceRatio(e, c) == Some(185_844_933_291);
  }

  // ---------------------------------------------------------------- exits

  /** Value take-profit and stop-loss in the terms of the operator: cost, value, basis points.
      The ratio is floored, so the stop-loss can fire one scaled unit early and never late. */
  lemma ValueExitThresholds(cfg: StrategyConfig, cost: u64, value: u64)
    requires cost > 0
    ensures ShouldExitValue(cfg, cost, value) == TakeProfit <==> value * 10_000 >= cost * (10_000 + cfg.takeProfitBps)
    ensures ShouldExitValue(cfg, cost, value) == StopLoss <==>
            value < cost && value * RATIO_SCALE < cost * (RATIO_SCALE - cfg.stopLossBps * BP + 1)
    ensures cfg.stopLossBps > 0 && value * 10_000 <= cost * (10_000 - cfg.stopLossBps) ==>
            ShouldExitValue(cfg, cost, value) == StopLoss
  {
    ValueRatioFits(cost, value);
    TakeProfitLevel(cost, value * RATIO_SCALE, cfg.takeProfitBps);
    StopLossLevel(cost, value * RATIO_SCALE, cfg.stopLossBps);
    DivAtLeast(value * RATIO_SCALE, cost, RATIO_SCALE);
    if cfg.stopLossBps > 0 && value * 10_000 <= cost * (10_000 - cfg.stopLossBps) {
      Drop(cost, cfg.stopLossBps);
    }
  }

  lemma ValueRatioFits(cost: u64, value: u64)
    requires cost > 0
    ensures value * RATIO_SCALE / cost < TWO128
  {
    DivAtLeast(value * RATIO_SCALE, cost, TWO128);
    MulMono(TWO128, 1, TWO128, cost);
  }

  lemma TakeProfitLevel(cost: u64, n: nat, tp: u64)
    requires cost > 0
    ensures n / cost >= RATIO_SCALE + tp * BP <==> n >= cost * (10_000 + tp) * BP
  {
    DivAtLeast(n, cost, RATIO_SCALE + tp * BP);
    assert (RATIO_SCALE + tp * BP) * cost == cost * (10_000 + tp) * BP;
  }

  lemma StopLossLevel(cost: u64, n: nat, sl: u64)
    requires cost > 0
    ensures n / cost <= RATIO_SCALE - sl * BP <==> n < cost * (RATIO_SCALE - sl * BP + 1)
    ensures cost * (10_000 - sl) * BP + cost == cost * (RATIO_SCALE - sl * BP + 1)
  {
    DivAtLeast(n, cost, RATIO_SCALE - sl * BP + 1);
    assert cost * (10_000 - sl) * BP == cost * (RATIO_SCALE - sl * BP);
  }

  lemma Drop(cost: u64, sl: u64)
    requires cost > 0 && sl > 0
    ensures cost * (10_000 - sl) < cost * 10_000
  {
    MulMono(1, 1, cost, sl);
    assert cost * (10_000 - sl) == cost * 10_000 - cost * sl;
  }

  /** The trailing stop compares exactly: its floored threshold loses nothing. */
  lemma TrailingThreshold(cfg: StrategyConfig, ratio: u128, peak: u128)
    ensures TrailingTriggered(cfg, ratio, peak) <==>
            0 < cfg.trailingStopBps < 10_000 && peak >= RATIO_SCALE + cfg.trailingActivationBps * BP &&
            ratio * 10_000 <= peak * (10_000 - cfg.trailingStopBps)
  {
    if 0 < cfg.trailingStopBps < 10_000 {
      var n := peak * (10_000 - cfg.trailingStopBps);
      MulMono(peak, 10_000 - cfg.trailingStopBps, peak, 10_000);
      DivAtLeast(n, 10_000, ratio);
      DivAtLeast(n, 10_000, TWO128);
    }
  }

  // ---------------------------------------------------------------- P&L

  /** Booked P&L against the exact one, in scaled units. */
  predicate NeverOptimistic(pnl: int, exact: int) {
    pnl * RATIO_SCALE <= exact
  }

  predicate WithinOneLamport(pnl: int, exact: int) {
    exact < (pnl + 1) * RATIO_SCALE
  }

  /** A gain is never booked above the exact one; a loss is never booked below the exact one
      exactly while it fits an i64. Unsaturated P&L is exact up to one lamport, and a loss
      never exceeds the position. */
  lemma PnlNeverOptimistic(ratio: u128, position: u64)
    ensures var pnl, exact := PnlFromRatio(ratio, position), position * (ratio - RATIO_SCALE);
            && (NeverOptimistic(pnl, exact) <==> -exact <= I64_MAX * RATIO_SCALE)
            && (-I64_MAX < pnl < I64_MAX ==> WithinOneLamport(pnl, exact))
            && pnl + position >= 0
  {
    var pnl := PnlFromRatio(ratio, position);
    if ratio >= RATIO_SCALE {
      GainSide(ratio, position);
      Rounded(pnl, position * (ratio - RATIO_SCALE));
    } else {
      LossSide(ratio, position);
      Negate(position, ratio, RATIO_SCALE);
      RoundedLoss(-pnl, position * (RATIO_SCALE - ratio));
    }
  }

  lemma Rounded(p: int, n: int)
    requires 0 <= p && 0 <= n && p * RATIO_SCALE <= n && (p < I64_MAX ==> n < (p + 1) * RATIO_SCALE)
    ensures NeverOptimistic(p, n) && -n <= I64_MAX * RATIO_SCALE && (p < I64_MAX ==> WithinOneLamport(p, n))
  {
  }

  lemma RoundedLoss(l: int, n: int)
    requires 0 <= l && 0 <= n && (l * RATIO_SCALE >= n <==> n <= I64_MAX * RATIO_SCALE)
    requires 0 < l < I64_MAX ==> (l - 1) * RATIO_SCALE < n
    ensures NeverOptimistic(-l, -n) <==> n <= I64_MAX * RATIO_SCALE
    ensures l < I64_MAX ==> WithinOneLamport(-l, -n)
  {
  }

  lemma GainSide(ratio: u128, position: u64)
    requires ratio >= RATIO_SCALE
    ensures var p, n := PnlFromRatio(ratio, position), position * (ratio - RATIO_SCALE);
            0 <= p && 0 <= n && p * RATIO_SCALE <= n && (p < I64_MAX ==> n < (p + 1) * RATIO_SCALE)
  {
    MulMono(0, 0, position, ratio - RATIO_SCALE);
    FloorGain(position * (ratio - RATIO_SCALE));
  }

  lemma LossSide(ratio: u128, position: u64)
    requires ratio < RATIO_SCALE
    ensures var l, n := -PnlFromRatio(ratio, position), position * (RATIO_SCALE - ratio);
            0 <= l <= position && (l * RATIO_SCALE >= n <==> n <= I64_MAX * RATIO_SCALE) &&
            (0 < l < I64_MAX ==> (l - 1) * RATIO_SCALE < n) && 0 <= n
  {
    MulMono(0, 0, position, RATIO_SCALE - ratio);
    LossWithinPosition(ratio, position);
    CeilLoss(position, RATIO_SCALE - ratio);
  }

  lemma Negate(p: nat, x: int, y: int)
    ensures p * (x - y) == -(p * (y - x))
  {
  }

  lemma FloorGain(n: nat)
    ensures var g := Min(n / RATIO_SCALE, I64_MAX);
            g * RATIO_SCALE <= n && (g < I64_MAX ==> n < (g + 1) * RATIO_SCALE)
  {
  }

  lemma CeilLoss(position: u64, drop: u128)
    requires MulDivCeil(position, drop, RATIO_SCALE).Some?
    ensures var n, l := position * drop, MulDivCeil(position, drop, RATIO_SCALE).value;
            l * RATIO_SCALE >= n && (l > 0 ==> (l - 1) * RATIO_SCALE < n) &&
            (l <= I64_MAX <==> n <= I64_MAX * RATIO_SCALE)
  {
    var l := MulDivCeil(position, drop, RATIO_SCALE).value;
    CeilIsLeastUpperBound(position, drop, RATIO_SCALE, I64_MAX);
    CeilIsLeastUpperBound(position, drop, RATIO_SCALE, l);
    if l > 0 {
      CeilIsLeastUpperBound(position, drop, RATIO_SCALE, l - 1);
    }
  }

  lemma LossWithinPosition(ratio: u128, position: u64)
    requires ratio < RATIO_SCALE
    ensures MulDivCeil(position, RATIO_SCALE - ratio, RATIO_SCALE).Some?
    ensures MulDivCeil(position, RATIO_SCALE - ratio, RATIO_SCALE).value <= position
  {
    MulMono(position, RATIO_SCALE - ratio, position, RATIO_SCALE);
    CeilIsLeastUpperBound(position, RATIO_SCALE - ratio, RATIO_SCALE, position);
  }

  /** A stop-loss close books at least ceil(size * sl / 10^4) of loss, a take-profit close at
      least floor(size * tp / 10^4) of gain, both up to i64 saturation. */
  lemma ClosePnl(cfg: StrategyConfig, ratio: u128, position: u64)
    ensures ExitOnRatio(cfg, ratio) == StopLoss ==>
            cfg.stopLossBps <= 10_000 && MulDivCeil(position, cfg.stopLossBps, 10_000).Some? &&
            PnlFromRatio(ratio, position) <= -Min(MulDivCeil(position, cfg.stopLossBps, 10_000).value, I64_MAX)
    ensures ExitOnRatio(cfg, ratio) == TakeProfit ==>
            PnlFromRatio(ratio, position) >= Min(position * cfg.takeProfitBps / 10_000, I64_MAX)
  {
    match ExitOnRatio(cfg, ratio)
    case StopLoss =>
      LossWithinPosition(ratio, position);
      LossAtLeast(cfg.stopLossBps, RATIO_SCALE - ratio, position);
    case TakeProfit =>
      GainAtLeast(cfg.takeProfitBps, ratio - RATIO_SCALE, position);
    case _ =>
  }

  lemma BpProduct(position: nat, bps: nat, scaled: nat)
    requires bps * BP <= scaled
    ensures position * bps * BP <= position * scaled
  {
    MulMono(position, bps * BP, position, scaled);
    assert position * (bps * BP) == position * bps * BP;
  }

  lemma LossAtLeast(sl: u64, drop: u128, position: u64)
    requires sl * BP <= drop <= RATIO_SCALE && MulDivCeil(position, drop, RATIO_SCALE).Some?
    ensures MulDivCeil(position, sl, 10_000).Some?
    ensures MulDivCeil(position, sl, 10_000).value <= MulDivCeil(position, drop, RATIO_SCALE).value
  {
    var loss := MulDivCeil(position, drop, RATIO_SCALE).value;
    MulMono(position, sl, position, 10_000);
    CeilIsLeastUpperBound(position, sl, 10_000, loss);
    CeilIsLeastUpperBound(position, drop, RATIO_SCALE, loss);
    BpProduct(position, sl, drop);
  }

  lemma GainAtLeast(tp: u64, gain: u128, position: u64)
    requires tp * BP <= gain
    ensures position * tp / 10_000 <= position * gain / RATIO_SCALE
  {
    BpProduct(position, tp, gain);
    ScaleFloors(position * tp, position * gain);
  }

  lemma ScaleFloors(x: nat, y: nat)
    requires x * BP <= y
    ensures x / 10_000 <= y / RATIO_SCALE
  {
  }

  /** The report of a price close agrees with the decision: a take-profit is reported at
      tp bps or more, a stop-loss at -sl bps or less; whole basis points round-trip. */
  lemma ReportedBpsAgree(cfg: StrategyConfig, ratio: u128)
    ensures ExitOnRatio(cfg, ratio) == TakeProfit ==> RatioToBps(ratio) >= Min(cfg.takeProfitBps, I64_MAX)
    ensures ExitOnRatio(cfg, ratio) == StopLoss ==> RatioToBps(ratio) + cfg.stopLossBps <= 0
    ensures forall bps: u64 :: bps <= I64_MAX ==> RatioToBps(RATIO_SCALE + BpsToScaled(bps)) == bps
  {
  }

  // ---------------------------------------------------------------- in pool prices

  /** The price ratio (c / e)^2 stays below 2^128 scaled units. */
  predicate Represented(e: u128, c: u128) {
    e > 0 && c * c * RATIO_SCALE < TWO128 * (e * e)
  }

  /** A P&L against the exact size * (c^2 / e^2 - 1), cleared of denominators: never a lamport above
      it, less than a lamport and the loss of the two floors below it, with its sign, and never a
      loss above the size. The exceptions are i64 saturation and a ratio that does not fit. */
  predicate FairPnl(e: u128, c: u128, size: u64, pnl: int) {
    && (c >= e ==> pnl >= 0) && (c <= e ==> pnl <= 0) && pnl + size >= 0
    && (pnl > -I64_MAX ==> pnl * (e * e) <= size * (c * c - e * e))
    && (-I64_MAX < pnl < I64_MAX && Represented(e, c) ==>
          (pnl + 1) * (e * e * RATIO_SCALE) > size * (RATIO_SCALE * (c * c - e * e) - 2 * (c * e) - e * e))
  }

  /** A price exit against the exact ratio and the operator's basis points; what it misses by is the
      loss of the two floors. */
  predicate FairExit(cfg: StrategyConfig, e: u128, c: u128, exit: ExitDecision) {
    && (exit == TakeProfit ==> c >= e && c * c * 10_000 >= e * e * (10_000 + cfg.takeProfitBps))
    && (exit == StopLoss ==>
          c < e && c * c * RATIO_SCALE < e * e * (RATIO_SCALE - cfg.stopLossBps * BP) + 2 * (c * e) + e * e)
    && (exit != TakeProfit && Represented(e, c) ==>
          c * c * RATIO_SCALE < e * e * (RATIO_SCALE + cfg.takeProfitBps * BP) + 2 * (c * e))
    && (exit != StopLoss && c < e ==> c * c * 10_000 > e * e * (10_000 - cfg.stopLossBps))
  }

  lemma RatioSide(e: u128, c: u128)
    requires PriceRatio(e, c).Some?
    ensures c >= e <==> PriceRatio(e, c).value >= RATIO_SCALE
    ensures c == e ==> PriceRatio(e, c).value == RATIO_SCALE
  {
    var s := c * RATIO_SCALE / e;
    DivAtLeast(c * RATIO_SCALE, e, RATIO_SCALE);
    DivAtLeast(s * s, RATIO_SCALE, RATIO_SCALE);
    if c >= e {
      MulMono(e, RATIO_SCALE, c, RATIO_SCALE);
      MulMono(RATIO_SCALE, RATIO_SCALE, s, s);
      if c == e {
        DivModUnique(c * RATIO_SCALE, e, RATIO_SCALE, 0);
      }
    } else {
      MulStep(c, e, RATIO_SCALE);
      MulMono(s, s, RATIO_SCALE - 1, RATIO_SCALE - 1);
    }
  }

  lemma RepresentedIsSome(e: u128, c: u128)
    requires Represented(e, c)
    ensures PriceRatio(e, c).Some?
  {
    var s, t := c * RATIO_SCALE / e, c * RATIO_SCALE % e;
    PriceRatioNone(e, c);
    DivMod(c * RATIO_SCALE, e);
    DivAtLeast(s * s, RATIO_SCALE, TWO128);
    if s * s >= TWO128 * RATIO_SCALE {
      TooLarge(e, c, RATIO_SCALE, s, TWO128);
    }
  }

  lemma TooLarge(e: nat, c: nat, k: nat, s: nat, m: nat)
    requires k > 0 && s * e <= c * k && s * s >= m * k
    ensures c * c * k >= m * (e * e)
  {
    MulMono(s * e, s * e, c * k, c * k);
    Regroup(c, k);
    Regroup2(s, e);
    MulMono(m * k, e * e, s * s, e * e);
    assert (m * k) * (e * e) == m * (e * e) * k;
    if c * c * k < m * (e * e) {
      MulStep(c * c * k, m * (e * e), k);
    }
  }

  /** Every simulated P&L is a fair one. */
  lemma SimulatedIsFair(e: u128, c: u128, size: u64)
    ensures FairPnl(e, c, size, SimulatedPnl(e, c, size))
  {
    if PriceRatio(e, c).None? {
      NoRatioIsUp(e, c);
      NothingIsFair(e, c, size);
    } else {
      RatioIsFair(e, c, PriceRatio(e, c).value, size);
    }
  }

  lemma NothingIsFair(e: u128, c: u128, size: u64)
    requires c >= e && !Represented(e, c)
    ensures FairPnl(e, c, size, 0)
  {
    MulMono(e, e, c, c);
    MulMono(0, 0, size, c * c - e * e);
  }

  lemma FitsUnlessClipped(ratio: u128, size: u64)
    ensures var pnl := PnlFromRatio(ratio, size);
            pnl > -I64_MAX ==> pnl * RATIO_SCALE <= size * (ratio - RATIO_SCALE)
  {
    if ratio >= RATIO_SCALE {
      GainSide(ratio, size);
    } else {
      LossWithinPosition(ratio, size);
      CeilLoss(size, RATIO_SCALE - ratio);
      Negate(size, ratio, RATIO_SCALE);
    }
  }

  lemma RatioIsFair(e: u128, c: u128, r: u128, size: u64)
    requires PriceRatio(e, c) == Some(r)
    ensures FairPnl(e, c, size, PnlFromRatio(r, size))
  {
    var pnl := PnlFromRatio(r, size);
    RatioSide(e, c);
    PnlSign(r, size);
    PnlNeverOptimistic(r, size);
    FitsUnlessClipped(r, size);
    PriceRatioError(e, c);
    MulMono(1, 1, e, e);
    FairBelow(pnl, size, r, e * e, c * c);
    FairAbove(pnl, size, r, e * e, c * c, c * e);
  }

  /** A missing ratio means a zero entry or a price far above it. */
  lemma NoRatioIsUp(e: u128, c: u128)
    requires PriceRatio(e, c).None?
    ensures c >= e && !Represented(e, c)
  {
    if Represented(e, c) {
      RepresentedIsSome(e, c);
    } else if c < e {
      MulMono(c, c, e, e);
      MulMono(c * c, RATIO_SCALE, e * e, RATIO_SCALE);
      MulMono(1, 1, e, e);
      MulStep(RATIO_SCALE, TWO128, e * e);
    }
  }

  lemma PnlSign(ratio: u128, size: u64)
    ensures ratio >= RATIO_SCALE ==> PnlFromRatio(ratio, size) >= 0
    ensures ratio <= RATIO_SCALE ==> PnlFromRatio(ratio, size) <= 0
  {
    if ratio >= RATIO_SCALE {
      GainSide(ratio, size);
    } else {
      LossSide(ratio, size);
    }
  }

  lemma FairBelow(pnl: int, size: nat, r: nat, ee: nat, cc: nat)
    requires r * ee <= cc * RATIO_SCALE
    requires pnl > -I64_MAX ==> pnl * RATIO_SCALE <= size * (r - RATIO_SCALE)
    ensures pnl > -I64_MAX ==> pnl * ee <= size * (cc - ee)
  {
    if pnl > -I64_MAX {
      MulLe(pnl * RATIO_SCALE, size * (r - RATIO_SCALE), ee);
      MulLe(r * ee, cc * RATIO_SCALE, size);
      assert size * (r - RATIO_SCALE) * ee == r * ee * size - RATIO_SCALE * (size * ee);
      assert cc * RATIO_SCALE * size == RATIO_SCALE * (size * cc);
      assert pnl * RATIO_SCALE * ee == RATIO_SCALE * (pnl * ee);
      assert size * (cc - ee) == size * cc - size * ee;
    }
  }

  lemma FairAbove(pnl: int, size: nat, r: nat, ee: nat, cc: nat, ce: nat)
    requires ee > 0 && cc * RATIO_SCALE < r * ee + 2 * ce + ee
    requires -I64_MAX < pnl < I64_MAX ==> size * (r - RATIO_SCALE) < (pnl + 1) * RATIO_SCALE
    ensures -I64_MAX < pnl < I64_MAX ==>
              (pnl + 1) * (ee * RATIO_SCALE) > size * (RATIO_SCALE * (cc - ee) - 2 * ce - ee)
  {
    if -I64_MAX < pnl < I64_MAX {
      MulStep(size * (r - RATIO_SCALE), (pnl + 1) * RATIO_SCALE, ee);
      MulLe(RATIO_SCALE * (cc - ee) - 2 * ce - ee, r * ee - RATIO_SCALE * ee, size);
      assert size * (r - RATIO_SCALE) * ee == (r * ee - RATIO_SCALE * ee) * size;
      assert (pnl + 1) * RATIO_SCALE * ee == (pnl + 1) * (ee * RATIO_SCALE);
    }
  }

  /** Every price exit is a fair one; without a ratio there is none. */
  lemma PriceExitIsFair(cfg: StrategyConfig, e: u128, c: u128)
    ensures FairExit(cfg, e, c, match PriceRatio(e, c) case None => Hold case Some(r) => ExitOnRatio(cfg, r))
  {
    if PriceRatio(e, c).None? {
      NoRatioIsUp(e, c);
    } else {
      var r, cc, ce, ee := PriceRatio(e, c).value, c * c, c * e, e * e;
      RatioSide(e, c);
      PriceRatioError(e, c);
      FairTakeProfit(r, ee, cc, 2 * ce, cfg.takeProfitBps);
      FairStopLoss(r, ee, cc, 2 * ce, cfg.stopLossBps);
    }
  }

  lemma FairTakeProfit(r: nat, ee: nat, cc: nat, slack: nat, tp: u64)
    requires ee > 0 && r * ee <= cc * RATIO_SCALE < r * ee + slack + ee
    ensures r >= RATIO_SCALE + tp * BP ==> cc * 10_000 >= ee * (10_000 + tp)
    ensures r < RATIO_SCALE + tp * BP ==> cc * RATIO_SCALE < ee * (RATIO_SCALE + tp * BP) + slack
  {
    FairLevel(r, ee, cc, slack, RATIO_SCALE + tp * BP);
    InBps(ee, tp);
  }

  lemma FairStopLoss(r: nat, ee: nat, cc: nat, slack: nat, sl: u64)
    requires ee > 0 && r * ee <= cc * RATIO_SCALE < r * ee + slack + ee
    ensures r <= RATIO_SCALE - sl * BP ==> cc * RATIO_SCALE < ee * (RATIO_SCALE - sl * BP) + slack + ee
    ensures r > RATIO_SCALE - sl * BP ==> cc * 10_000 > ee * (10_000 - sl)
  {
    var level := RATIO_SCALE - sl * BP;
    FairLevel(r, ee, cc, slack, level + 1);
    assert ee * (level + 1) == ee * level + ee;
    InBps(ee, 0 - sl);
  }

  lemma FairLevel(r: nat, ee: nat, cc: nat, slack: nat, level: int)
    requires ee > 0 && r * ee <= cc * RATIO_SCALE < r * ee + slack + ee
    ensures r >= level ==> cc * RATIO_SCALE >= ee * level
    ensures r < level ==> cc * RATIO_SCALE < ee * level + slack
  {
    if r >= level {
      MulLe(level, r, ee);
    } else {
      MulLe(r + 1, level, ee);
    }
  }

  lemma InBps(ee: nat, bps: int)
    ensures ee * (RATIO_SCALE + bps * BP) == ee * (10_000 + bps) * BP
  {
    assert RATIO_SCALE + bps * BP == (10_000 + bps) * BP;
  }

  /** Reported basis points are the move rounded towards zero, on either side. */
  lemma BpsWithinOne(ratio: u128)
    ensures var bps, move := RatioToBps(ratio), ratio - RATIO_SCALE;
            && (move >= 0 ==> 0 <= bps * BP <= move && (bps < I64_MAX ==> move < (bps + 1) * BP))
            && (move <= 0 ==> (bps - 1) * BP < move <= bps * BP <= 0)
  {
  }
}
