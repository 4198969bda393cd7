/** The risk manager: pre-trade gate, counters, and their persistence (risk.rs). */
module Risk {
  import opened Base

  datatype Config = Config(
    maxTradeSize: u64, maxSlippageBps: u64, dailyLossLimit: u64, maxDailyTrades: u64,
    breakerMs: nat, maxOpenPositions: u64, maxExposure: u64)

  datatype Reject =
    | UnverifiableRestartState | KillSwitchActive | CircuitBreakerOpen | MaxSpendExceeded | SlippageExceeded
    | DailyLossLimit | DailyTradeCap | OpenPositionCapExceeded | ExposureCapExceeded

  /** A calendar day; the empty date string of a fresh state is NO_DAY. */
  type Day = int
  const NO_DAY: Day := -1

  /** The counters, each with the day it belongs to. */
  datatype Counters = Counters(lossDay: Day, loss: u64, tradeDay: Day, trades: u64, open: u64, exposure: u64)

  /** `risk_state.json`: one date, the trade counter's. */
  datatype Persisted = Persisted(day: Day, trades: u64, loss: u64, open: u64, exposure: u64)

  datatype RiskFile = Missing | Corrupt | Written(state: Persisted)

  const FRESH: Counters := Counters(NO_DAY, 0, NO_DAY, 0, 0, 0)

  /** `+=` on u64, as a release build performs it; a debug build panics where it wraps. */
  function Add64(a: u64, b: u64): u64 {
    (a + b) % TWO64
  }

  function Save(c: Counters): Persisted {
    Persisted(c.tradeDay, c.trades, c.loss, c.open, c.exposure)
  }

  /** `new`: the persisted date becomes the date of both daily counters. */
  function Load(p: Persisted): Counters {
    Counters(p.day, p.loss, p.day, p.trades, p.open, p.exposure)
  }

  function AfterTrade(c: Counters, today: Day): Counters {
    c.(tradeDay := today, trades := Add64(if c.tradeDay != today then 0 else c.trades, 1))
  }

  function AfterLoss(c: Counters, today: Day, lamports: u64): Counters {
    c.(lossDay := today, loss := SatAdd64(if c.lossDay != today then 0 else c.loss, lamports))
  }

  function AfterOpen(c: Counters, lamports: u64): Counters {
    c.(open := Add64(c.open, 1), exposure := Add64(c.exposure, lamports))
  }

  function AfterClose(c: Counters, lamports: u64): Counters {
    c.(open := Max(c.open - 1, 0), exposure := Max(c.exposure - lamports, 0))
  }

  /** The counter part of the gate, in the order it is checked. */
  function CounterReject(cfg: Config, c: Counters, size: u64): Option<Reject> {
    if c.loss >= cfg.dailyLossLimit then Some(DailyLossLimit)
    else if c.trades >= cfg.maxDailyTrades then Some(DailyTradeCap)
    else if c.open >= cfg.maxOpenPositions then Some(OpenPositionCapExceeded)
    else if SatAdd64(c.exposure, size) > cfg.maxExposure then Some(ExposureCapExceeded)
    else None
  }

  /** With the size limit in front of it. */
  function GateReject(cfg: Config, c: Counters, size: u64): Option<Reject> {
    if size > cfg.maxTradeSize then Some(MaxSpendExceeded) else CounterReject(cfg, c, size)
  }

  // ---------------------------------------------------------------- the manager

  class RiskManager {
    const cfg: Config
    var lossDay: Day
    var loss: u64
    var tradeDay: Day
    var trades: u64
    var openPositions: u64
    var exposure: u64
    var killSwitch: bool
    var breakerActive: bool
    var breakerSince: nat
    const stateVerified: bool
    var persistFailed: bool
    var file: RiskFile

    /** The last trip of the breaker, and the latest time seen (the clock is monotonic). */
    ghost var lastTrip: Option<nat>
    ghost var clock: nat

    /** Entries are blocked: the last trip is no longer ago than the cool-down. */
    ghost predicate CoolingDown(now: nat)
      reads this
    {
      lastTrip.Some? && now - lastTrip.value <= cfg.breakerMs
    }

    /** The two breaker fields tell whether a trip is still cooling down, now and later. */
    ghost predicate BreakerValid()
      reads this
    {
      && (lastTrip.Some? ==> lastTrip.value <= clock)
      && (breakerActive ==> lastTrip == Some(breakerSince))
      && (!breakerActive ==> !CoolingDown(clock))
    }

    function State(): Counters
      reads this
    {
      Counters(lossDay, loss, tradeDay, trades, openPositions, exposure)
    }

    /** `new` over an existing file: switches start off, counters come from the file, and a
        corrupt file leaves the manager unverified. */
    constructor (cfg: Config, file: RiskFile)
      ensures this.cfg == cfg && this.file == file && !killSwitch && !breakerActive && !persistFailed
      ensures stateVerified == !file.Corrupt? && BreakerValid() && lastTrip == None && clock == 0
      ensures State() == match file { case Written(p) => Load(p) case _ => FRESH }
    {
      this.cfg, this.file := cfg, file;
      var c := match file { case Written(p) => Load(p) case _ => FRESH };
      lossDay, loss, tradeDay, trades := c.lossDay, c.loss, c.tradeDay, c.trades;
      openPositions, exposure := c.open, c.exposure;
      killSwitch, breakerActive, breakerSince, persistFailed := false, false, 0, false;
      stateVerified := !file.Corrupt?;
      lastTrip, clock := None, 0;
    }

    /** `persist_state`; `written` is the outcome of the atomic write. */
    method PersistState(written: bool)
      modifies this`file, this`persistFailed
      ensures file == if written then Written(Save(State())) else old(file)
      ensures persistFailed == (old(persistFailed) || !written)
    {
      if written {
        file := Written(Persisted(tradeDay, trades, loss, openPositions, exposure));
      } else {
        persistFailed := true;
      }
    }

    /** `trip_circuit_breaker`: from now on, and for the whole cool-down, entries are blocked. */
    method TripBreaker(now: nat)
      requires BreakerValid() && now >= clock
      modifies this`breakerActive, this`breakerSince, this`lastTrip, this`clock
      ensures BreakerValid() && clock == now && lastTrip == Some(now)
      ensures forall later :: now <= later ==> (CoolingDown(later) <==> later <= now + cfg.breakerMs)
    {
      breakerActive, breakerSince := true, now;
      lastTrip, clock := Some(now), now;
    }

    /** `is_circuit_breaker_active`: active exactly while the last trip is cooling down. */
    method BreakerActive(now: nat) returns (active: bool)
      requires BreakerValid() && now >= clock
      modifies this`breakerActive, this`clock
      ensures BreakerValid() && clock == now && active == CoolingDown(now)
    {
      clock := now;
      active := breakerActive;
      if active && now - breakerSince > cfg.breakerMs {
        breakerActive := false;
        return false;
      }
    }

    /** `pre_trade_check`: None is a pass; none passes while a trip is cooling down. */
    method PreTradeCheck(size: u64, slippageBps: u64, now: nat) returns (r: Option<Reject>)
      requires BreakerValid() && now >= clock
      modifies this`breakerActive, this`clock
      ensures BreakerValid()
      ensures r == None <==>
                stateVerified && !persistFailed && !killSwitch && !CoolingDown(now) &&
                  slippageBps <= cfg.maxSlippageBps && size <= cfg.maxTradeSize && loss < cfg.dailyLossLimit &&
                  trades < cfg.maxDailyTrades && openPositions < cfg.maxOpenPositions &&
                  Min(exposure + size, U64_MAX) <= cfg.maxExposure
      ensures match r
              case Some(DailyLossLimit) => loss >= cfg.dailyLossLimit
              case Some(DailyTradeCap) => trades >= cfg.maxDailyTrades
              case Some(OpenPositionCapExceeded) => openPositions >= cfg.maxOpenPositions
              case Some(ExposureCapExceeded) => exposure + size > cfg.maxExposure
              case Some(KillSwitchActive) => killSwitch
              case Some(UnverifiableRestartState) => !stateVerified || persistFailed
              case _ => true
      ensures stateVerified && !persistFailed && !killSwitch ==>
                if CoolingDown(now) then r == Some(CircuitBreakerOpen)
                else if size <= cfg.maxTradeSize && slippageBps > cfg.maxSlippageBps then r == Some(SlippageExceeded)
                else r == GateReject(cfg, State(), size)
    {
      if !stateVerified || persistFailed {
        return Some(UnverifiableRestartState);
      }
      if killSwitch {
        return Some(KillSwitchActive);
      }
      var breaker := BreakerActive(now);
      if breaker {
        return Some(CircuitBreakerOpen);
      }
      if size > cfg.maxTradeSize {
        return Some(MaxSpendExceeded);
      }
      if slippageBps > cfg.maxSlippageBps {
        return Some(SlippageExceeded);
      }
      if loss >= cfg.dailyLossLimit {
        return Some(DailyLossLimit);
      }
      if trades >= cfg.maxDailyTrades {
        return Some(DailyTradeCap);
      }
      if openPositions >= cfg.maxOpenPositions {
        return Some(OpenPositionCapExceeded);
      }
      var projected := SatAdd64(exposure, size);
      if projected > cfg.maxExposure {
        return Some(ExposureCapExceeded);
      }
      return None;
    }

    method RecordTrade(today: Day, written: bool)
      modifies this`tradeDay, this`trades, this`killSwitch, this`file, this`persistFailed
      ensures State() == AfterTrade(old(State()), today)
      ensures killSwitch == (old(killSwitch) || trades > cfg.maxDailyTrades)
      ensures file == (if written then Written(Save(State())) else old(file)) &&
              persistFailed == (old(persistFailed) || !written)
    {
      if tradeDay != today {
        tradeDay, trades := today, 0;
      }
      trades := Add64(trades, 1);
      var exceeded := trades > cfg.maxDailyTrades;
      PersistState(written);
      if exceeded {
        killSwitch := true;
      }
    }

    method RecordLoss(today: Day, lamports: u64, written: bool) returns (r: Result<(), ()>)
      modifies this`lossDay, this`loss, this`killSwitch, this`file, this`persistFailed
      ensures State() == AfterLoss(old(State()), today, lamports)
      ensures r.Err? == (loss >= cfg.dailyLossLimit) && killSwitch == (old(killSwitch) || r.Err?)
      ensures file == (if written then Written(Save(State())) else old(file)) &&
              persistFailed == (old(persistFailed) || !written)
    {
      if lossDay != today {
        lossDay, loss := today, 0;
      }
      loss := SatAdd64(loss, lamports);
      var reached := loss >= cfg.dailyLossLimit;
      PersistState(written);
      if reached {
        killSwitch := true;
        return Err(());
      }
      return Ok(());
    }

    method RecordOpen(lamports: u64, written: bool)
      modifies this`openPositions, this`exposure, this`file, this`persistFailed
      ensures State() == AfterOpen(old(State()), lamports)
      ensures file == (if written then Written(Save(State())) else old(file)) &&
              persistFailed == (old(persistFailed) || !written)
    {
      openPositions := Add64(openPositions, 1);
      exposure := Add64(exposure, lamports);
      PersistState(written);
    }

    method RecordClose(lamports: u64, written: bool)
      modifies this`openPositions, this`exposure, this`file, this`persistFailed
      ensures State() == AfterClose(old(State()), lamports)
      ensures file == (if written then Written(Save(State())) else old(file)) &&
              persistFailed == (old(persistFailed) || !written)
    {
      openPositions := Max(openPositions - 1, 0);
      exposure := Max(exposure - lamports, 0);
      PersistState(written);
    }
  }

  // ---------------------------------------------------------------- gated runs

  /** What happens to the counters over time, with the outcomes of the state writes. `Enter` is a
      gate call of a size that, when it passes, is followed by the trade and the open of that size;
      `Exit` closes the k-th open position; `Restart` reloads what was last written. */
  datatype Event =
    | Enter(size: u64, today: Day, tradeWritten: bool, openWritten: bool)
    | Exit(k: nat, written: bool)
    | Lose(lamports: u64, today: Day, written: bool)
    | Restart

  /** The counters, the last written state, `persist_failed`, the sizes actually open, and the
      trades made on each day. */
  datatype Book = Book(c: Counters, saved: Persisted, failed: bool, opens: seq<u64>, tradeDays: seq<Day>)

  function Write(b: Book, c: Counters, written: bool): Book {
    b.(c := c, saved := if written then Save(c) else b.saved, failed := b.failed || !written)
  }

  function Apply(cfg: Config, b: Book, e: Event): Book {
    match e
    case Enter(size, today, tradeWritten, openWritten) =>
      if b.failed || GateReject(cfg, b.c, size).Some? then b
      else
        var t := Write(b, AfterTrade(b.c, today), tradeWritten);
        Write(t, AfterOpen(t.c, size), openWritten).(opens := b.opens + [size], tradeDays := b.tradeDays + [today])
    case Exit(k, written) =>
      if k >= |b.opens| then b
      else Write(b, AfterClose(b.c, b.opens[k]), written).(opens := b.opens[..k] + b.opens[k + 1..])
    case Lose(lamports, today, written) => Write(b, AfterLoss(b.c, today, lamports), written)
    case Restart => b.(c := Load(b.saved), failed := false)
  }

  function ApplyAll(cfg: Config, b: Book, es: seq<Event>): Book
    decreases |es|
  {
    if es == [] then b else ApplyAll(cfg, Apply(cfg, b, es[0]), es[1..])
  }

  function Sum(s: seq<u64>): nat {
    if s == [] then 0 else Sum(s[..|s| - 1]) + s[|s| - 1]
  }

  lemma {:induction false} SumRemove(s: seq<u64>, k: nat)
    requires k < |s|
    ensures Sum(s) == Sum(s[..k] + s[k + 1..]) + s[k]
    decreases |s|
  {
    var init := s[..|s| - 1];
    var t := s[..k] + s[k + 1..];
    if k == |s| - 1 {
      assert t == init;
    } else {
      SumRemove(init, k);
      assert t[..|t| - 1] == init[..k] + init[k + 1..];
    }
  }

  const NOTHING_YET: Book := Book(FRESH, Save(FRESH), false, [], [])

  /** In a run, every restart finds a last written state for which `kept` holds. */
  ghost predicate RestartsFind(cfg: Config, b: Book, es: seq<Event>, kept: Book -> bool)
    decreases |es|
  {
    es == [] || ((es[0].Restart? ==> kept(b)) && RestartsFind(cfg, Apply(cfg, b, es[0]), es[1..], kept))
  }

  predicate OpensKept(b: Book) {
    b.saved.open == b.c.open && b.saved.exposure == b.c.exposure
  }

  predicate TradesKept(b: Book) {
    b.saved.day == b.c.tradeDay && b.saved.trades == b.c.trades
  }

  predicate LossKept(b: Book) {
    b.saved.loss == b.c.loss
  }

  ghost predicate EveryWriteSucceeds(es: seq<Event>) {
    forall i :: 0 <= i < |es| ==>
      match es[i]
      case Enter(_, _, tradeWritten, openWritten) => tradeWritten && openWritten
      case Exit(_, written) => written
      case Lose(_, _, written) => written
      case Restart => true
  }

  /** When no write fails, every restart finds the counters as they were. */
  lemma {:induction false} WrittenStateIsKept(cfg: Config, b: Book, es: seq<Event>)
    requires b.saved == Save(b.c) && EveryWriteSucceeds(es)
    ensures RestartsFind(cfg, b, es, OpensKept) && RestartsFind(cfg, b, es, TradesKept) &&
            RestartsFind(cfg, b, es, LossKept)
    decreases |es|
  {
    if es == [] {
    } else {
      assert Apply(cfg, b, es[0]).saved == Save(Apply(cfg, b, es[0]).c);
      WrittenStateIsKept(cfg, Apply(cfg, b, es[0]), es[1..]);
    }
  }

  /** The books agree with the counters and every limit holds; the last written state is that of an
      earlier moment of the same kind. */
  ghost predicate WithinLimits(cfg: Config, b: Book) {
    && b.c.open == |b.opens| <= cfg.maxOpenPositions
    && b.c.exposure == Sum(b.opens) <= cfg.maxExposure
    && b.c.trades <= cfg.maxDailyTrades && (b.opens != [] ==> b.c.trades > 0)
    && (forall i :: 0 <= i < |b.opens| ==> b.opens[i] <= cfg.maxTradeSize)
    && b.saved.trades <= cfg.maxDailyTrades && (b.saved.open > 0 ==> b.saved.trades > 0)
  }

  /** The configurations whose exposure cap is a real one: below u64::MAX, or never with room for
      positions that add up to more, or with no second entry ever admitted, or with none at all. */
  predicate ExposureCapBites(cfg: Config) {
    || cfg.maxExposure < U64_MAX || cfg.maxOpenPositions * cfg.maxTradeSize <= U64_MAX
    || cfg.maxDailyTrades <= 1 || cfg.dailyLossLimit == 0
  }

  lemma {:induction false} SumBound(s: seq<u64>, max: u64)
    requires forall i :: 0 <= i < |s| ==> s[i] <= max
    ensures Sum(s) <= |s| * max
  {
    if s != [] {
      SumBound(s[..|s| - 1], max);
    }
  }

  /** A passing gate leaves room for the size in u64, below the cap. */
  lemma RoomToEnter(cfg: Config, b: Book, size: u64)
    requires WithinLimits(cfg, b) && ExposureCapBites(cfg) && GateReject(cfg, b.c, size) == None
    ensures b.c.exposure + size <= cfg.maxExposure
  {
    SumBound(b.opens, cfg.maxTradeSize);
    MulLe(|b.opens| + 1, cfg.maxOpenPositions, cfg.maxTradeSize);
  }

  lemma SumSnoc(s: seq<u64>, x: u64)
    ensures Sum(s + [x]) == Sum(s) + x
  {
    assert (s + [x])[..|s|] == s;
  }

  lemma AddFits(a: u64, b: u64)
    requires a + b <= U64_MAX
    ensures Add64(a, b) == a + b
  {
  }

  lemma EnterWithinLimits(cfg: Config, b: Book, e: Event)
    requires WithinLimits(cfg, b) && ExposureCapBites(cfg) && e.Enter?
    ensures WithinLimits(cfg, Apply(cfg, b, e))
  {
    if !b.failed && GateReject(cfg, b.c, e.size) == None {
      RoomToEnter(cfg, b, e.size);
      SumSnoc(b.opens, e.size);
      AddFits(b.c.exposure, e.size);
      AddFits(b.c.open, 1);
      AddFits(if b.c.tradeDay != e.today then 0 else b.c.trades, 1);
    }
  }

  lemma ExitWithinLimits(cfg: Config, b: Book, k: nat, written: bool)
    requires WithinLimits(cfg, b)
    ensures WithinLimits(cfg, Apply(cfg, b, Exit(k, written)))
  {
    if k < |b.opens| {
      SumRemove(b.opens, k);
    }
  }

  /** A restart keeps the limits exactly when the last written state has the positions that are
      really open: a position whose record was not written is forgotten by the limits. */
  lemma RestartWithinLimits(cfg: Config, b: Book)
    requires WithinLimits(cfg, b)
    ensures WithinLimits(cfg, Apply(cfg, b, Restart)) <==> OpensKept(b)
  {
  }

  lemma StepWithinLimits(cfg: Config, b: Book, e: Event)
    requires WithinLimits(cfg, b) && ExposureCapBites(cfg)
    ensures WithinLimits(cfg, Apply(cfg, b, e)) <==> (e.Restart? ==> OpensKept(b))
  {
    match e
    case Enter(_, _, _, _) => EnterWithinLimits(cfg, b, e);
    case Exit(k, written) => ExitWithinLimits(cfg, b, k, written);
    case Lose(_, _, _) =>
    case Restart => RestartWithinLimits(cfg, b);
  }

  /** Over every gated run, with any failing writes as long as every restart finds the open
      positions written: open count, exposure and the daily trade counter stay within their limits,
      the exposure is the sum of the open sizes, and the trade-cap kill switch condition
      (count > cap) never arises. */
  lemma {:induction false} GatedRunsStayWithinLimits(cfg: Config, b: Book, es: seq<Event>)
    requires WithinLimits(cfg, b) && ExposureCapBites(cfg) && RestartsFind(cfg, b, es, OpensKept)
    ensures WithinLimits(cfg, ApplyAll(cfg, b, es))
    decreases |es|
  {
    if es == [] {
    } else {
      StepWithinLimits(cfg, b, es[0]);
      GatedRunsStayWithinLimits(cfg, Apply(cfg, b, es[0]), es[1..]);
    }
  }

  /** That condition is exact over the runs from a fresh state: at a cap of u64::MAX the projected
      exposure saturates while the recorded one wraps, as soon as the admitted positions can add
      up to more. */
  lemma ExposureCapIsExact(cfg: Config)
    ensures ExposureCapBites(cfg) <==>
            forall es :: RestartsFind(cfg, NOTHING_YET, es, OpensKept) ==>
              WithinLimits(cfg, ApplyAll(cfg, NOTHING_YET, es))
  {
    if ExposureCapBites(cfg) {
      forall es | RestartsFind(cfg, NOTHING_YET, es, OpensKept)
        ensures WithinLimits(cfg, ApplyAll(cfg, NOTHING_YET, es))
      {
        GatedRunsStayWithinLimits(cfg, NOTHING_YET, es);
      }
    } else {
      var es := FillUp(cfg, NOTHING_YET, 0);
      assert !WithinLimits(cfg, ApplyAll(cfg, NOTHING_YET, es));
    }
  }

  /** `n` positions of the maximal size are open, the last one entered on day n - 1. */
  ghost predicate Filled(cfg: Config, b: Book, n: nat) {
    && |b.opens| == b.c.open == n && Sum(b.opens) == b.c.exposure == n * cfg.maxTradeSize
    && b.c.tradeDay == n - 1 && b.c.trades <= 1 && b.c.loss == 0 && !b.failed
  }

  /** One entry a day, each of the maximal size, until the exposure wraps. */
  lemma {:induction false} FillUp(cfg: Config, b: Book, n: nat) returns (es: seq<Event>)
    requires !ExposureCapBites(cfg) && Filled(cfg, b, n)
    ensures !WithinLimits(cfg, ApplyAll(cfg, b, es)) && RestartsFind(cfg, b, es, OpensKept)
    decreases cfg.maxOpenPositions - n
  {
    var size := cfg.maxTradeSize;
    var e := Enter(size, n, true, true);
    RoomLeft(cfg, n);
    assert (b.opens + [size])[..n] == b.opens;
    assert (n + 1) * size == n * size + size;
    var b' := Apply(cfg, b, e);
    if (n + 1) * size > U64_MAX {
      es := [e];
      OneMore(cfg, b, e, []);
    } else {
      var rest := FillUp(cfg, b', n + 1);
      es := [e] + rest;
      OneMore(cfg, b, e, rest);
    }
  }

  lemma RoomLeft(cfg: Config, n: nat)
    requires !ExposureCapBites(cfg) && n * cfg.maxTradeSize <= U64_MAX
    ensures n < cfg.maxOpenPositions
  {
    if n >= cfg.maxOpenPositions {
      MulLe(cfg.maxOpenPositions, n, cfg.maxTradeSize);
    }
  }

  lemma OneMore(cfg: Config, b: Book, e: Event, es: seq<Event>)
    ensures ApplyAll(cfg, b, [e] + es) == ApplyAll(cfg, Apply(cfg, b, e), es)
    ensures !e.Restart? && RestartsFind(cfg, Apply(cfg, b, e), es, OpensKept) ==>
            RestartsFind(cfg, b, [e] + es, OpensKept)
  {
    assert ([e] + es)[1..] == es;
  }

  // ---------------------------------------------------------------- restarts and days

  /** A counter-based rejection still stands after saving and reloading, for the same reason. */
  lemma RejectionSurvivesRestart(cfg: Config, c: Counters, size: u64)
    ensures CounterReject(cfg, Load(Save(c)), size) == CounterReject(cfg, c, size)
  {
  }

  /** The two counters share one persisted date: a loss is booked as without the restart exactly
      when today is the day of both counters or of neither, or when nothing can differ. */
  lemma LossAcrossRestart(c: Counters, today: Day, lamports: u64)
    ensures AfterLoss(Load(Save(c)), today, lamports).loss == AfterLoss(c, today, lamports).loss <==>
            (c.lossDay == today <==> c.tradeDay == today) || c.loss == 0 || lamports == U64_MAX
  {
  }

  /** Both ways to go wrong: after a restart today's earlier loss is forgotten when the last trade
      was on an earlier day, and yesterday's loss counts towards today's limit when it was today. */
  lemma LossesMixedUp()
    ensures var c := Counters(1, 500, 2, 1, 0, 0);
            AfterLoss(c, 2, 7).loss == 7 && AfterLoss(Load(Save(c)), 2, 7).loss == 507
    ensures var c := Counters(2, 500, 1, 1, 0, 0);
            AfterLoss(c, 2, 7).loss == 507 && AfterLoss(Load(Save(c)), 2, 7).loss == 7
  {
  }

  ghost predicate NoLoss(es: seq<Event>) {
    forall i :: 0 <= i < |es| ==> !es[i].Lose?
  }

  /** The loss limit does not look at the date either: once reached, no gated entry passes, on any
      day and across restarts that find it written, as long as no other loss is recorded. */
  lemma {:induction false} LossLimitStays(cfg: Config, b: Book, es: seq<Event>)
    requires b.c.loss >= cfg.dailyLossLimit && NoLoss(es) && RestartsFind(cfg, b, es, LossKept)
    ensures ApplyAll(cfg, b, es).tradeDays == b.tradeDays && ApplyAll(cfg, b, es).c.loss == b.c.loss
    decreases |es|
  {
    if es == [] {
    } else {
      LossLimitStays(cfg, Apply(cfg, b, es[0]), es[1..]);
    }
  }

  /** And the next loss lifts it exactly when it falls on another day than the counter's and is
      below the limit by itself. */
  lemma LossLimitReopens(cfg: Config, b: Book, lamports: u64, today: Day, written: bool)
    requires b.c.loss >= cfg.dailyLossLimit
    ensures Apply(cfg, b, Lose(lamports, today, written)).c.loss < cfg.dailyLossLimit <==>
            today != b.c.lossDay && lamports < cfg.dailyLossLimit
  {
  }

  /** The gate never looks at the date: once a daily counter has reached its limit, no gated
      entry passes again, on any later day and across restarts that find it written, unless
      something ungated resets the counter. */
  lemma {:induction false} CapNeverReopens(cfg: Config, b: Book, es: seq<Event>)
    requires b.c.trades >= cfg.maxDailyTrades && RestartsFind(cfg, b, es, TradesKept)
    ensures ApplyAll(cfg, b, es).tradeDays == b.tradeDays && ApplyAll(cfg, b, es).c.trades >= cfg.maxDailyTrades
    decreases |es|
  {
    if es == [] {
    } else {
      CapNeverReopens(cfg, Apply(cfg, b, es[0]), es[1..]);
    }
  }

  ghost function TradesOn(days: seq<Day>, d: Day): nat {
    if days == [] then 0 else TradesOn(days[..|days| - 1], d) + (if days[|days| - 1] == d then 1 else 0)
  }

  lemma {:induction false} NoTradeAfter(days: seq<Day>, last: Day, d: Day)
    requires (forall i :: 0 <= i < |days| ==> days[i] <= last) && d > last
    ensures TradesOn(days, d) == 0
  {
    if days != [] {
      NoTradeAfter(days[..|days| - 1], last, d);
    }
  }

  /** The entries of a run happen on days that never run backwards. */
  ghost predicate Clocked(from: Day, es: seq<Event>)
    decreases |es|
  {
    es == [] || (if es[0].Enter? then es[0].today >= from && Clocked(es[0].today, es[1..]) else Clocked(from, es[1..]))
  }

  /** No day has more trades than the cap, and the counter has the trades of its own day. */
  ghost predicate DaysWithinCap(cfg: Config, b: Book) {
    && (forall d :: TradesOn(b.tradeDays, d) <= cfg.maxDailyTrades)
    && (forall i :: 0 <= i < |b.tradeDays| ==> b.tradeDays[i] <= b.c.tradeDay)
    && TradesOn(b.tradeDays, b.c.tradeDay) <= b.c.trades
  }

  lemma EnterKeepsDays(cfg: Config, b: Book, e: Event)
    requires DaysWithinCap(cfg, b) && e.Enter? && b.c.tradeDay <= e.today
    ensures DaysWithinCap(cfg, Apply(cfg, b, e)) && Apply(cfg, b, e).c.tradeDay <= e.today
  {
    if !b.failed && GateReject(cfg, b.c, e.size) == None {
      TradesOnSnoc(b.tradeDays, e.today);
      if e.today > b.c.tradeDay {
        NoTradeAfter(b.tradeDays, b.c.tradeDay, e.today);
      }
      AddFits(if b.c.tradeDay != e.today then 0 else b.c.trades, 1);
    }
  }

  lemma TradesOnSnoc(days: seq<Day>, today: Day)
    ensures forall d :: TradesOn(days + [today], d) == TradesOn(days, d) + (if today == d then 1 else 0)
  {
    assert (days + [today])[..|days|] == days;
  }

  lemma {:induction false} SomeTradeOn(days: seq<Day>, d: Day) returns (i: nat)
    requires TradesOn(days, d) > 0
    ensures i < |days| && days[i] == d
  {
    if days[|days| - 1] == d {
      i := |days| - 1;
    } else {
      i := SomeTradeOn(days[..|days| - 1], d);
    }
  }

  /** The counter is exactly the number of trades of its day, the latest one. */
  ghost predicate ExactTrades(b: Book) {
    && (forall i :: 0 <= i < |b.tradeDays| ==> b.tradeDays[i] <= b.c.tradeDay)
    && TradesOn(b.tradeDays, b.c.tradeDay) == b.c.trades
  }

  lemma EnterKeepsExact(cfg: Config, b: Book, e: Event)
    requires ExactTrades(b) && e.Enter? && b.c.tradeDay <= e.today
    ensures ExactTrades(Apply(cfg, b, e)) && Apply(cfg, b, e).c.tradeDay <= e.today
  {
    if !b.failed && GateReject(cfg, b.c, e.size) == None {
      TradesOnSnoc(b.tradeDays, e.today);
      if e.today > b.c.tradeDay {
        NoTradeAfter(b.tradeDays, b.c.tradeDay, e.today);
      }
      AddFits(if b.c.tradeDay != e.today then 0 else b.c.trades, 1);
    }
  }

  /** Over every such run the trade counter is exactly the number of trades of the day it belongs to. */
  lemma {:induction false} TradeCounterIsExact(cfg: Config, b: Book, es: seq<Event>, from: Day)
    requires ExactTrades(b) && Clocked(from, es) && b.c.tradeDay <= from && RestartsFind(cfg, b, es, TradesKept)
    ensures ExactTrades(ApplyAll(cfg, b, es))
    decreases |es|
  {
    if es == [] {
    } else if es[0].Enter? {
      EnterKeepsExact(cfg, b, es[0]);
      TradeCounterIsExact(cfg, Apply(cfg, b, es[0]), es[1..], es[0].today);
    } else {
      TradeCounterIsExact(cfg, Apply(cfg, b, es[0]), es[1..], from);
    }
  }

  datatype Loss = Loss(day: Day, lamports: u64)

  /** The counters after a list of losses, in order. */
  function AfterLosses(c: Counters, ls: seq<Loss>): Counters {
    if ls == [] then c
    else AfterLoss(AfterLosses(c, ls[..|ls| - 1]), ls[|ls| - 1].day, ls[|ls| - 1].lamports)
  }

  ghost function LossOn(ls: seq<Loss>, d: Day): nat {
    if ls == [] then 0
    else LossOn(ls[..|ls| - 1], d) + (if ls[|ls| - 1].day == d then ls[|ls| - 1].lamports else 0)
  }

  lemma {:induction false} NoLossAfter(ls: seq<Loss>, last: Day, d: Day)
    requires (forall i :: 0 <= i < |ls| ==> ls[i].day <= last) && d > last
    ensures LossOn(ls, d) == 0
  {
    if ls != [] {
      NoLossAfter(ls[..|ls| - 1], last, d);
    }
  }

  /** Between restarts, with a clock that does not run backwards, the loss counter is the total loss of
      the latest day with a loss, up to saturation. */
  lemma {:induction false} LossCounterIsTheDaysTotal(c: Counters, ls: seq<Loss>)
    requires c.loss == 0 && ls != [] && forall i, j :: 0 <= i < j < |ls| ==> ls[i].day <= ls[j].day
    ensures var day := ls[|ls| - 1].day;
            AfterLosses(c, ls) == c.(lossDay := day, loss := Min(LossOn(ls, day), U64_MAX))
  {
    var init, last := ls[..|ls| - 1], ls[|ls| - 1];
    if init != [] {
      LossCounterIsTheDaysTotal(c, init);
      if init[|init| - 1].day < last.day {
        NoLossAfter(init, init[|init| - 1].day, last.day);
      }
    } else {
      assert LossOn(init, last.day) == 0;
    }
  }

  /** When the counter is exact and the last written one is an earlier or the same one, a restart
      keeps the promise exactly when that is the current one. */
  lemma RestartKeepsDays(cfg: Config, b: Book)
    requires DaysWithinCap(cfg, b) && TradesOn(b.tradeDays, b.c.tradeDay) == b.c.trades > 0
    requires b.saved.day <= b.c.tradeDay && (b.saved.day == b.c.tradeDay ==> b.saved.trades <= b.c.trades)
    ensures DaysWithinCap(cfg, Apply(cfg, b, Restart)) <==> TradesKept(b)
  {
    var i := SomeTradeOn(b.tradeDays, b.c.tradeDay);
  }

  /** Over every gated run with a clock that does not run backwards, with any failing writes as long
      as every restart finds the trade counter written, no calendar day sees more trades than the
      cap. */
  lemma {:induction false} NoDayExceedsTheCap(cfg: Config, b: Book, es: seq<Event>, from: Day)
    requires DaysWithinCap(cfg, b) && Clocked(from, es) && b.c.tradeDay <= from && RestartsFind(cfg, b, es, TradesKept)
    ensures DaysWithinCap(cfg, ApplyAll(cfg, b, es))
    decreases |es|
  {
    if es == [] {
    } else if es[0].Enter? {
      EnterKeepsDays(cfg, b, es[0]);
      NoDayExceedsTheCap(cfg, Apply(cfg, b, es[0]), es[1..], es[0].today);
    } else {
      NoDayExceedsTheCap(cfg, Apply(cfg, b, es[0]), es[1..], from);
    }
  }

  /** Otherwise the cap is lifted: a failed write blocks entries only until the restart that forgets
      it. For every configuration that admits a first entry and every n there is a gated run with n
      trades on one day. */
  lemma {:induction false} FailedWritesLiftTheCap(cfg: Config, b: Book, n: nat, day: Day) returns (es: seq<Event>)
    requires cfg.dailyLossLimit > 0 && cfg.maxDailyTrades > 0 && cfg.maxOpenPositions > 0
    requires b == NOTHING_YET.(tradeDays := b.tradeDays)
    ensures ApplyAll(cfg, b, es).tradeDays == b.tradeDays + seq(n, _ => day)
    decreases n
  {
    if n == 0 {
      es := [];
    } else {
      var once := b.(tradeDays := b.tradeDays + [day]);
      var rest := FailedWritesLiftTheCap(cfg, once, n - 1, day);
      es := [Enter(0, day, false, false)] + ([Exit(0, false)] + ([Restart] + rest));
      ForgottenTrade(cfg, b, day, rest);
      assert b.tradeDays + [day] + seq(n - 1, _ => day) == b.tradeDays + seq(n, _ => day);
    }
  }

  lemma ForgottenTrade(cfg: Config, b: Book, day: Day, rest: seq<Event>)
    requires cfg.dailyLossLimit > 0 && cfg.maxDailyTrades > 0 && cfg.maxOpenPositions > 0
    requires b == NOTHING_YET.(tradeDays := b.tradeDays)
    ensures ApplyAll(cfg, b, [Enter(0, day, false, false)] + ([Exit(0, false)] + ([Restart] + rest))) ==
            ApplyAll(cfg, b.(tradeDays := b.tradeDays + [day]), rest)
  {
    var entered := Apply(cfg, b, Enter(0, day, false, false));
    var exited := Apply(cfg, entered, Exit(0, false));
    assert entered.opens == [0] && entered.saved == Save(FRESH);
    assert exited.opens == [] && exited.saved == Save(FRESH);
    assert Apply(cfg, exited, Restart) == b.(tradeDays := b.tradeDays + [day]);
    OneMore(cfg, b, Enter(0, day, false, false), [Exit(0, false)] + ([Restart] + rest));
    OneMore(cfg, entered, Exit(0, false), [Restart] + rest);
    OneMore(cfg, exited, Restart, rest);
  }

  /** The converse of the cap fails: a day with trades left is open for another one exactly when
      the counter, whatever day it belongs to, is below the cap. */
  lemma NewDayOpensExactlyBelowTheCap(cfg: Config, b: Book, size: u64, today: Day)
    requires size <= cfg.maxTradeSize && b.c.loss < cfg.dailyLossLimit && b.c.open < cfg.maxOpenPositions
    requires SatAdd64(b.c.exposure, size) <= cfg.maxExposure && !b.failed
    ensures Apply(cfg, b, Enter(size, today, true, true)).tradeDays == b.tradeDays + [today] <==>
            b.c.trades < cfg.maxDailyTrades
  {
  }
}
