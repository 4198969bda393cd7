/** The crash-safe live entry/exit protocol: three state files, the chain, and the memory of
    one process, as a step system in which the process may die between any two writes
    (main.rs, position.rs, risk.rs). Every file write is atomic; `ok` says whether it happened. */
module LiveProtocol {
  import opened Base
  import Confirm

  /** `pending_entry.json`: size of the entry and the output balance before it. */
  datatype Pending = Pending(size: nat, before: nat)

  /** The counters of `risk_state.json` that the protocol depends on. */
  datatype Counters = Counters(count: nat, exposure: nat, trades: nat)

  datatype Disk = Disk(pending: Option<Pending>, position: Option<nat>, risk: Counters)

  /** `size` and `before` belong to the entry being made; `live` is `live_position`. */
  datatype Memory = Memory(live: Option<nat>, risk: Counters, kill: bool, persistFailed: bool, size: nat, before: nat)

  /** The latest entry transaction. Dead: it failed or its blockhash expired. */
  datatype Tx = NoTx | Unsent | Alive | Landed | Dead

  datatype Chain = Chain(tx: Tx, tokens: nat)

  datatype Refusal = CountWithoutRecord | OrphanTokens | OtherRefusal

  datatype Pc =
    | Down | Refused(why: Refusal)
    | RecLoad | RecConfirm | RecLookup(confirmed: bool) | RecSave | RecTrade | RecOpen | RecClear
    | Match | Orphan
    | Loop
    | EntSubmit | EntRead | EntSave | EntTrade | EntOpen | EntClear | EntLoss
    | ExClose | ExClear

  /** `landed` and `recorded` count, over the whole history, the entries that landed and the
      `record_trade` calls; `counted` says whether the latest entry has been recorded. */
  datatype State = State(pc: Pc, mem: Memory, disk: Disk, chain: Chain, landed: nat, recorded: nat, counted: bool)

  datatype Action =
    // the environment
    | Crash | Land(amount: nat) | Die | Sold(left: nat) | EngageKill
    // startup
    | Start | Load(ok: bool) | ConfirmResult(confirmed: bool) | LookupNotFound(ok: bool) | LookupFound | LookupFailed
    | SavePosition(ok: bool) | RecordTrade(ok: bool) | RecordOpen(ok: bool) | ClearPending(ok: bool)
    | MatchPosition(sameConfig: bool, ok: bool) | CheckOrphan(readable: bool)
    // the loop
    | Stop | BeginEntry(entrySize: nat, ok: bool) | Send | SubmitOk | SubmitErr
    | BalanceUnreadable | ReadBalance(ok: bool)
    | RecordLoss(kill: bool, ok: bool) | SavePeak(ok: bool)
    | ExitDone(loss: bool, ok: bool) | RecordClose(ok: bool) | ClearPosition(ok: bool)

  const NO_COUNTERS: Counters := Counters(0, 0, 0)

  function Boot(disk: Disk): Memory {
    Memory(None, disk.risk, false, false, 0, 0)
  }

  const INIT: State :=
    State(Down, Boot(Disk(None, None, NO_COUNTERS)), Disk(None, None, NO_COUNTERS), Chain(NoTx, 0), 0, 0, false)

  /** `persist_state`: a failed write leaves the file and is remembered. */
  function Persist(s: State, risk: Counters, ok: bool): State {
    var mem := s.mem.(risk := risk, persistFailed := s.mem.persistFailed || !ok);
    s.(mem := mem, disk := if ok then s.disk.(risk := risk) else s.disk)
  }

  function Opened(r: Counters, size: nat): Counters {
    r.(count := r.count + 1, exposure := r.exposure + size)
  }

  function Closed(r: Counters, size: nat): Counters {
    r.(count := Max(r.count - 1, 0), exposure := Max(r.exposure - size, 0))
  }

  function WithoutPending(s: State, ok: bool): State {
    s.(disk := if ok then s.disk.(pending := None) else s.disk)
  }

  // ---------------------------------------------------------------- the steps; None is "not enabled"

  predicate IsEnvironment(a: Action) {
    a.Crash? || a.Land? || a.Die? || a.Sold? || a.EngageKill?
  }

  /** The process dies, or the chain moves: the entry lands or dies, the held tokens are sold;
      or one of the many triggers of the kill switch fires. */
  function EnvironmentStep(s: State, a: Action): Option<State> {
    match a
    case Crash => if s.pc.Down? || s.pc.Refused? then None else Some(s.(pc := Down))
    case Land(amount) =>
      if s.chain.tx != Alive || amount == 0 then None
      else Some(s.(chain := Chain(Landed, s.chain.tokens + amount), landed := s.landed + 1))
    case Die => if s.chain.tx != Alive then None else Some(s.(chain := s.chain.(tx := Dead)))
    case Sold(left) => if left > s.chain.tokens then None else Some(s.(chain := s.chain.(tokens := left)))
    case EngageKill => Some(s.(mem := s.mem.(kill := true)))
    case _ => None
  }

  /** `reconcile_pending_entry` up to the decision what to do with a pending record. */
  function ReconcileStep(s: State, a: Action): Option<State> {
    match (s.pc, a)
    case (RecLoad, Load(ok)) =>
      if s.disk.pending.None? then Some(s.(pc := Match))
      else if s.disk.position.Some? then
        Some(WithoutPending(s, ok).(pc := if ok then Match else Refused(OtherRefusal)))
      else Some(s.(pc := RecConfirm))
    case (RecConfirm, ConfirmResult(confirmed)) =>
      if confirmed && s.chain.tx != Landed then None else Some(s.(pc := RecLookup(confirmed)))
    case (RecLookup(confirmed), LookupNotFound(ok)) =>
      if confirmed then Some(s.(pc := Refused(OtherRefusal)))
      else Some(WithoutPending(s, ok).(pc := if ok then Match else Refused(OtherRefusal)))
    case (RecLookup(_), LookupFailed) => Some(s.(pc := Refused(OtherRefusal)))
    case (RecLookup(_), LookupFound) =>
      if s.disk.pending.None? || !(s.chain.tx == Landed || s.chain.tx == Dead) then None
      else if s.chain.tokens > s.disk.pending.value.before
      then Some(s.(pc := RecSave, mem := s.mem.(size := s.disk.pending.value.size)))
      else Some(s.(pc := RecClear))
    case _ => None
  }

  /** Booking: save the position, then the trade, then the open count, then drop the pending
      record; after reconciliation a failed save or clear refuses to start, in the loop it
      engages the kill switch or is ignored. */
  function BookingStep(s: State, a: Action): Option<State> {
    match (s.pc, a)
    case (RecSave, SavePosition(ok)) =>
      if ok then Some(s.(disk := s.disk.(position := Some(s.mem.size)), pc := RecTrade))
      else Some(s.(pc := Refused(OtherRefusal)))
    case (EntSave, SavePosition(ok)) =>
      if ok then Some(s.(disk := s.disk.(position := Some(s.mem.size)), pc := EntTrade))
      else Some(s.(mem := s.mem.(kill := true), pc := EntTrade))
    case (RecTrade, RecordTrade(ok)) =>
      var t := Persist(s, s.mem.risk.(trades := s.mem.risk.trades + 1), ok);
      Some(t.(recorded := s.recorded + 1, counted := true, pc := RecOpen))
    case (EntTrade, RecordTrade(ok)) =>
      var t := Persist(s, s.mem.risk.(trades := s.mem.risk.trades + 1), ok);
      Some(t.(recorded := s.recorded + 1, counted := true, pc := EntOpen))
    case (RecOpen, RecordOpen(ok)) => Some(Persist(s, Opened(s.mem.risk, s.mem.size), ok).(pc := RecClear))
    case (EntOpen, RecordOpen(ok)) => Some(Persist(s, Opened(s.mem.risk, s.mem.size), ok).(pc := EntClear))
    case (RecClear, ClearPending(ok)) => Some(WithoutPending(s, ok).(pc := if ok then Match else Refused(OtherRefusal)))
    case (EntClear, ClearPending(ok)) =>
      var t := WithoutPending(s, ok);
      Some(t.(mem := t.mem.(live := Some(s.mem.size)), pc := Loop))
    case _ => None
  }

  /** Starting the process, and the startup match on (position record, open count). */
  function StartupStep(s: State, a: Action): Option<State> {
    match (s.pc, a)
    case (Down, Start) => Some(s.(pc := RecLoad, mem := Boot(s.disk)))
    case (Refused(_), Start) => Some(s.(pc := RecLoad, mem := Boot(s.disk)))
    case (Match, MatchPosition(sameConfig, ok)) =>
      (match s.disk.position
       case Some(size) =>
         if !sameConfig then Some(s.(pc := Refused(OtherRefusal)))
         else
           var t := if s.mem.risk.count == 0 then Persist(s, Opened(s.mem.risk, size), ok) else s;
           Some(t.(mem := t.mem.(live := Some(size)), pc := Loop))
       case None =>
         if s.mem.risk.count > 0 then Some(s.(pc := Refused(CountWithoutRecord))) else Some(s.(pc := Orphan)))
    case (Orphan, CheckOrphan(readable)) =>
      if !readable then Some(s.(pc := Refused(OtherRefusal)))
      else if s.chain.tokens > 0 then Some(s.(pc := Refused(OrphanTokens)))
      else Some(s.(pc := Loop))
    case _ => None
  }

  /** A live entry up to the decision that it landed, that it is dead, or that nobody knows.
      The gate admits it only with the kill switch off, a persisted state and no open position. */
  function EntryStep(s: State, a: Action): Option<State> {
    match (s.pc, a)
    case (Loop, BeginEntry(size, ok)) =>
      if s.mem.live.Some? || s.mem.kill || s.mem.persistFailed || s.mem.risk.count > 0 then None
      else if !ok then Some(s)
      else
        Some(s.(disk := s.disk.(pending := Some(Pending(size, s.chain.tokens))),
                mem := s.mem.(size := size, before := s.chain.tokens),
                chain := s.chain.(tx := Unsent), counted := false, pc := EntSubmit))
    case (EntSubmit, Send) => if s.chain.tx == Unsent then Some(s.(chain := s.chain.(tx := Alive))) else None
    case (EntSubmit, SubmitOk) => if s.chain.tx == Landed then Some(s.(pc := EntSave)) else None
    case (EntSubmit, SubmitErr) => Some(s.(pc := EntRead))
    case (EntRead, BalanceUnreadable) => Some(s.(mem := s.mem.(kill := true), pc := EntLoss))
    case (EntRead, ReadBalance(ok)) =>
      if s.chain.tokens > s.mem.before then Some(s.(pc := EntSave)) else Some(WithoutPending(s, ok).(pc := EntLoss))
    case (EntLoss, RecordLoss(kill, ok)) =>
      var t := Persist(s, s.mem.risk, ok);
      Some(t.(mem := t.mem.(kill := t.mem.kill || kill), pc := Loop))
    case _ => None
  }

  /** Managing and closing the open position; `ExitDone` is a landed sell or an empty balance. The
      sell takes at most the recorded amount, so tokens may be left. */
  function ExitStep(s: State, a: Action): Option<State> {
    match (s.pc, a)
    case (Loop, Stop) => Some(s.(pc := Down))
    case (Loop, SavePeak(ok)) =>
      if s.mem.live.None? then None else Some(s.(disk := if ok then s.disk.(position := s.mem.live) else s.disk))
    case (Loop, ExitDone(loss, ok)) =>
      if s.mem.live.None? then None
      else Some((if loss then Persist(s, s.mem.risk, ok) else s).(pc := ExClose))
    case (ExClose, RecordClose(ok)) =>
      if s.mem.live.None? then None else Some(Persist(s, Closed(s.mem.risk, s.mem.live.value), ok).(pc := ExClear))
    case (ExClear, ClearPosition(ok)) =>
      var t := s.(disk := if ok then s.disk.(position := None) else s.disk);
      Some(t.(mem := t.mem.(live := None), pc := Loop))
    case _ => None
  }

  function Step(s: State, a: Action): Option<State> {
    match a
    case Crash => EnvironmentStep(s, a)
    case Land(_) => EnvironmentStep(s, a)
    case Die => EnvironmentStep(s, a)
    case Sold(_) => EnvironmentStep(s, a)
    case EngageKill => EnvironmentStep(s, a)
    case Load(_) => ReconcileStep(s, a)
    case ConfirmResult(_) => ReconcileStep(s, a)
    case LookupNotFound(_) => ReconcileStep(s, a)
    case LookupFound => ReconcileStep(s, a)
    case LookupFailed => ReconcileStep(s, a)
    case SavePosition(_) => BookingStep(s, a)
    case RecordTrade(_) => BookingStep(s, a)
    case RecordOpen(_) => BookingStep(s, a)
    case ClearPending(_) => BookingStep(s, a)
    case Start => StartupStep(s, a)
    case MatchPosition(_, _) => StartupStep(s, a)
    case CheckOrphan(_) => StartupStep(s, a)
    case BeginEntry(_, _) => EntryStep(s, a)
    case Send => EntryStep(s, a)
    case SubmitOk => EntryStep(s, a)
    case SubmitErr => EntryStep(s, a)
    case BalanceUnreadable => EntryStep(s, a)
    case ReadBalance(_) => EntryStep(s, a)
    case RecordLoss(_, _) => EntryStep(s, a)
    case _ => ExitStep(s, a)
  }

  /** One more action, if the previous ones were enabled. */
  function Bind(o: Option<State>, a: Action): Option<State> {
    match o
    case None => None
    case Some(t) => Step(t, a)
  }

  /** A run, latest step last; each step remembers the state it was taken in. */
  datatype Trace = Begin | Then(before: Trace, at: State, action: Action)

  /** `tr` leads from `s` to `t`. */
  predicate Leads(s: State, tr: Trace, t: State) {
    match tr
    case Begin => t == s
    case Then(before, at, a) => Leads(s, before, at) && Step(at, a) == Some(t)
  }

  // ---------------------------------------------------------------- what one step must not do

  /** The steps that lose an entry or a position, and no others: dropping the pending record of an
      entry that may still land or has landed, losing the position record of an entry, closing a
      position while tokens of it are left, and losing the close of a counted position or the
      removal of its record. Every other write may fail, and confirmation may answer anything. */
  predicate Sound(s: State, a: Action) {
    match (s.pc, a)
    // an Err with an unchanged balance; a failed removal keeps the record, but only the kill
    // switch then keeps the next entry out
    case (EntRead, ReadBalance(ok)) => s.chain.tokens <= s.mem.before && (ok || !s.mem.kill) ==> s.chain.tx != Alive
    // an Err and no such transaction on chain
    case (RecLookup(confirmed), LookupNotFound(ok)) => !confirmed && ok ==> s.chain.tx != Alive && s.chain.tokens == 0
    case (EntSave, SavePosition(ok)) => ok
    // the sell took everything; `SellsEverything` says when it does
    case (Loop, ExitDone(_, _)) => s.chain.tokens == 0
    case (ExClose, RecordClose(ok)) => ok || s.disk.risk.count == 0
    case (ExClear, ClearPosition(ok)) => ok
    case _ => true
  }

  predicate GoodRun(tr: Trace) {
    tr.Begin? || (GoodRun(tr.before) && Sound(tr.at, tr.action))
  }

  // ---------------------------------------------------------------- the invariant

  predicate CountsMatch(r: Counters, position: Option<nat>) {
    (r.count == 0 && r.exposure == 0) || (r.count == 1 && position == Some(r.exposure))
  }

  /** What holds on disk and chain in every state, running or not. */
  predicate DurableInv(s: State) {
    && CountsMatch(s.disk.risk, s.disk.position)
    && (s.disk.pending.Some? ==> s.disk.pending.value.before == 0)
    && (s.chain.tokens > 0 ==> s.chain.tx == Landed && (s.disk.pending.Some? || s.disk.position.Some?))
    && (s.chain.tx == Alive ==> s.disk.pending.Some? && s.disk.position.None?)
    && (s.disk.position.Some? ==> s.chain.tx == Landed)
    && (s.counted && s.chain.tokens > 0 ==> s.disk.position.Some?)
    && (s.chain.tx == Unsent || s.chain.tx == Alive ==> !s.counted)
    && s.recorded + (if s.chain.tx == Landed && !s.counted then 1 else 0) <= s.landed
    && s.pc != Refused(CountWithoutRecord) && s.pc != Refused(OrphanTokens)
  }

  /** Nothing is at stake: no record, no tokens, no transaction that could still land. */
  predicate Flat(s: State) {
    s.disk.position.None? && s.chain.tokens == 0 && s.chain.tx != Alive && s.mem.risk.count == 0
  }

  /** What the process additionally knows at each point. */
  predicate ProcessInv(s: State) {
    match s.pc
    case Down => true
    case Refused(_) => true
    case RecLoad => CountsMatch(s.mem.risk, s.disk.position)
    case RecConfirm => s.disk.pending.Some? && s.disk.position.None? && CountsMatch(s.mem.risk, None)
    case RecLookup(c) =>
      s.disk.pending.Some? && s.disk.position.None? && CountsMatch(s.mem.risk, None) && (c ==> s.chain.tx == Landed)
    case RecSave =>
      s.disk.pending.Some? && s.disk.position.None? && CountsMatch(s.mem.risk, None) && s.chain.tx == Landed &&
        !s.counted
    case RecTrade =>
      s.disk.position == Some(s.mem.size) && CountsMatch(s.mem.risk, None) && s.chain.tx == Landed && !s.counted
    case RecOpen => s.disk.position == Some(s.mem.size) && CountsMatch(s.mem.risk, None)
    case RecClear => CountsMatch(s.mem.risk, s.disk.position) && (s.disk.position.None? ==> Flat(s))
    case Match =>
      CountsMatch(s.mem.risk, s.disk.position) && (s.disk.position.None? ==> Flat(s)) && s.disk.pending.None?
    case Orphan => CountsMatch(s.mem.risk, None) && Flat(s)
    case Loop =>
      && s.mem.live == s.disk.position && CountsMatch(s.mem.risk, s.mem.live) &&
         (s.mem.live.Some? ==> s.mem.risk.count == 1)
      && (s.mem.live.None? && !s.mem.kill ==> Flat(s))
      && (s.mem.live.Some? && s.disk.pending.Some? ==> s.counted)
    case EntSubmit => Entering(s) && s.mem.before == 0
    case EntRead => Entering(s) && s.mem.before == 0
    case EntLoss =>
      s.mem.live.None? && s.disk.position.None? && CountsMatch(s.mem.risk, None) && (!s.mem.kill ==> Flat(s))
    case EntSave => Entering(s) && s.chain.tx == Landed
    case EntTrade =>
      s.mem.live.None? && s.disk.position == Some(s.mem.size) && CountsMatch(s.mem.risk, None) &&
        s.chain.tx == Landed && !s.counted
    case EntOpen =>
      s.mem.live.None? && s.disk.position == Some(s.mem.size) && CountsMatch(s.mem.risk, None) && s.counted
    case EntClear =>
      s.mem.live.None? && s.disk.position == Some(s.mem.size) && CountsMatch(s.mem.risk, s.disk.position) &&
        s.mem.risk.count == 1 && s.counted
    case ExClose =>
      s.mem.live.Some? && s.mem.live == s.disk.position && CountsMatch(s.mem.risk, s.mem.live) &&
        s.mem.risk.count == 1 && s.chain.tokens == 0
    case ExClear =>
      s.mem.live.Some? && s.mem.live == s.disk.position && CountsMatch(s.mem.risk, None) && s.disk.risk.count == 0 &&
        s.chain.tokens == 0
  }

  predicate Entering(s: State) {
    s.disk.pending == Some(Pending(s.mem.size, 0)) && s.disk.position.None? && s.mem.live.None? &&
      CountsMatch(s.mem.risk, None) && !s.counted
  }

  predicate StartingUp(pc: Pc) {
    pc.RecLoad? || pc.RecConfirm? || pc.RecLookup? || pc.RecSave? || pc.RecTrade? || pc.RecOpen? || pc.RecClear? ||
      pc.Match? || pc.Orphan?
  }

  predicate Inv(s: State) {
    DurableInv(s) && ProcessInv(s) && (StartingUp(s.pc) ==> s.mem.live.None?)
  }

  lemma EnvironmentKeepsInv(s: State, a: Action)
    requires Inv(s) && EnvironmentStep(s, a).Some?
    ensures Inv(EnvironmentStep(s, a).value)
  {
  }

  lemma ReconcileKeepsInv(s: State, a: Action)
    requires Inv(s) && ReconcileStep(s, a).Some?
    ensures Inv(ReconcileStep(s, a).value) <==> Sound(s, a)
  {
  }

  lemma BookingAtStartupKeepsInv(s: State, a: Action)
    requires Inv(s) && StartingUp(s.pc) && BookingStep(s, a).Some?
    ensures Inv(BookingStep(s, a).value) <==> Sound(s, a)
  {
  }

  lemma BookingInLoopKeepsInv(s: State, a: Action)
    requires Inv(s) && !StartingUp(s.pc) && BookingStep(s, a).Some?
    ensures Inv(BookingStep(s, a).value) <==> Sound(s, a)
  {
  }

  lemma BookingKeepsInv(s: State, a: Action)
    requires Inv(s) && BookingStep(s, a).Some?
    ensures Inv(BookingStep(s, a).value) <==> Sound(s, a)
  {
    if StartingUp(s.pc) {
      BookingAtStartupKeepsInv(s, a);
    } else {
      BookingInLoopKeepsInv(s, a);
    }
  }

  lemma StartupKeepsInv(s: State, a: Action)
    requires Inv(s) && StartupStep(s, a).Some?
    ensures Inv(StartupStep(s, a).value)
  {
  }

  lemma EntryKeepsInv(s: State, a: Action)
    requires Inv(s) && EntryStep(s, a).Some?
    ensures Inv(EntryStep(s, a).value) <==> Sound(s, a)
  {
  }

  lemma ExitKeepsInv(s: State, a: Action)
    requires Inv(s) && ExitStep(s, a).Some?
    ensures Inv(ExitStep(s, a).value) <==> Sound(s, a)
  {
  }

  /** Every action belongs to one of the six step functions. */
  lemma OneOf(s: State, a: Action)
    ensures Step(s, a) in {EnvironmentStep(s, a), ReconcileStep(s, a), BookingStep(s, a), StartupStep(s, a),
                           EntryStep(s, a), ExitStep(s, a)}
  {
  }

  /** Exactly the sound steps keep the invariant. */
  lemma StepKeepsInv(s: State, a: Action)
    requires Inv(s) && Step(s, a).Some?
    ensures Inv(Step(s, a).value) <==> Sound(s, a)
  {
    OneOf(s, a);
    if EnvironmentStep(s, a).Some? {
      EnvironmentKeepsInv(s, a);
    }
    if ReconcileStep(s, a).Some? {
      ReconcileKeepsInv(s, a);
    }
    if BookingStep(s, a).Some? {
      BookingKeepsInv(s, a);
    }
    if StartupStep(s, a).Some? {
      StartupKeepsInv(s, a);
    }
    if EntryStep(s, a).Some? {
      EntryKeepsInv(s, a);
    }
    if ExitStep(s, a).Some? {
      ExitKeepsInv(s, a);
    }
  }

  lemma {:induction false} RunKeepsInv(s: State, tr: Trace, t: State)
    requires Inv(s) && Leads(s, tr, t) && GoodRun(tr)
    ensures Inv(t)
  {
    match tr
    case Begin =>
    case Then(before, at, a) =>
      RunKeepsInv(s, before, at);
      StepKeepsInv(at, a);
  }

  // ---------------------------------------------------------------- what it means

  /** The promises of the protocol about one state. */
  ghost predicate Safe(s: State) {
    // the two refusals that need an operator's hand are never reached
    && s.pc != Refused(CountWithoutRecord) && s.pc != Refused(OrphanTokens)
    // tokens that were bought and not sold always have a record on disk
    && (s.chain.tokens > 0 ==> s.disk.pending.Some? || s.disk.position.Some?)
    // and once the entry has been recorded as a trade, the position record
    && (s.chain.tokens > 0 && s.counted ==> s.disk.position.Some?)
    // at most one position is ever counted, and then its record and its exposure are there
    && s.disk.risk.count <= 1
    && (s.disk.risk.count == 1 ==> s.disk.position == Some(s.disk.risk.exposure))
    // a trade is recorded at most once for every entry that landed: no more records than landings,
    // and never a second record of the same entry
    && s.recorded <= s.landed
    && (s.pc == RecTrade || s.pc == EntTrade ==> !s.counted && s.chain.tx == Landed)
    // at the loop head: held tokens are under management and booked exactly once, unless the
    // kill switch is on; and no entry is ever in doubt while new ones are possible
    && (s.pc == Loop ==>
          && s.mem.live == s.disk.position
          && s.mem.risk.count == (if s.mem.live.Some? then 1 else 0)
          && s.mem.risk.exposure == (if s.mem.live.Some? then s.mem.live.value else 0)
          && (!s.mem.kill ==> s.chain.tx != Alive || s.mem.live.Some?)
          && (!s.mem.kill && s.chain.tokens > 0 ==> s.mem.live.Some?))
  }

  /** Safety over every run: the process may crash between any two writes, any non-critical
      write may fail, the chain may move at any time. */
  lemma EveryRunIsSafe(tr: Trace, s: State)
    requires Leads(INIT, tr, s) && GoodRun(tr)
    ensures Safe(s)
  {
    RunKeepsInv(INIT, tr, s);
  }

  lemma InvIsSafe(s: State)
    requires Inv(s)
    ensures Safe(s)
  {
  }

  /** Whatever can still happen after `s`, as long as every step is sound, is safe. */
  ghost predicate SafeFromHere(s: State) {
    forall tr, t :: Leads(s, tr, t) && GoodRun(tr) ==> Safe(t)
  }

  /** The hypothesis of `EveryRunIsSafe` cannot be weakened, at any state of any run: a step is
      sound if and only if everything that sound steps can lead to after it is safe. */
  lemma SoundExactly(s: State, a: Action)
    requires Inv(s) && Step(s, a).Some?
    ensures Sound(s, a) <==> SafeFromHere(Step(s, a).value)
  {
    var t := Step(s, a).value;
    StepKeepsInv(s, a);
    if Sound(s, a) {
      forall tr, u | Leads(t, tr, u) && GoodRun(tr)
        ensures Safe(u)
      {
        RunKeepsInv(t, tr, u);
        InvIsSafe(u);
      }
    } else {
      var tr, u := UnsoundIsUnsafe(s, a);
    }
  }

  /** Extend a good run by one enabled, sound action. */
  lemma DoSound(s: State, tr: Trace, t: State, a: Action) returns (tr': Trace, t': State)
    requires Leads(s, tr, t) && GoodRun(tr) && Step(t, a).Some? && Sound(t, a)
    ensures t' == Step(t, a).value && Leads(s, tr', t') && GoodRun(tr') && Length(tr') == Length(tr) + 1
  {
    tr', t' := Then(tr, t, a), Step(t, a).value;
  }

  /** After a step that is not sound, an unsafe state is at most two sound steps away. */
  lemma UnsoundIsUnsafe(s: State, a: Action) returns (tr: Trace, u: State)
    requires Inv(s) && Step(s, a).Some? && !Sound(s, a)
    ensures Leads(Step(s, a).value, tr, u) && GoodRun(tr) && Length(tr) <= 2 && !Safe(u)
  {
    var t := Step(s, a).value;
    match s.pc
    case EntRead => tr, u := AfterUnsoundRead(s, a);
    case RecLookup(_) => tr, u := AfterUnsoundLookup(s, a);
    case EntSave => tr, u := AfterUnsoundSave(s, a);
    case Loop => tr, u := AfterUnsoundExit(s, a);
    case ExClose => tr, u := AfterUnsoundClose(s, a);
    case ExClear =>
      tr, u := Begin, t;
  }

  lemma AfterUnsoundClose(s: State, a: Action) returns (tr: Trace, u: State)
    requires Inv(s) && s.pc == ExClose && Step(s, a).Some? && !Sound(s, a)
    ensures Leads(Step(s, a).value, tr, u) && GoodRun(tr) && Length(tr) <= 2 && !Safe(u)
  {
    var t := Step(s, a).value;
    tr, u := DoSound(t, Begin, t, ClearPosition(true));
  }

  lemma AfterUnsoundExit(s: State, a: Action) returns (tr: Trace, u: State)
    requires Inv(s) && s.pc == Loop && Step(s, a).Some? && !Sound(s, a)
    ensures Leads(Step(s, a).value, tr, u) && GoodRun(tr) && Length(tr) <= 2 && !Safe(u)
  {
    var t := Step(s, a).value;
    ExitStarts(s, a);
    CloseThenClear(t, true, true);
    tr, u := DoSound(t, Begin, t, RecordClose(true));
    tr, u := DoSound(t, tr, u, ClearPosition(true));
  }

  lemma ExitStarts(s: State, a: Action)
    requires s.pc == Loop && a.ExitDone? && Step(s, a).Some?
    ensures var t := Step(s, a).value;
            t.pc == ExClose && t.mem.live == s.mem.live && t.chain == s.chain && t.counted == s.counted &&
            t.disk.pending == s.disk.pending && t.disk.position == s.disk.position && t.mem.live.Some?
  {
  }

  lemma AfterUnsoundRead(s: State, a: Action) returns (tr: Trace, u: State)
    requires Inv(s) && s.pc == EntRead && Step(s, a).Some? && !Sound(s, a)
    ensures Leads(Step(s, a).value, tr, u) && GoodRun(tr) && Length(tr) <= 2 && !Safe(u)
  {
    var t := Step(s, a).value;
    if a.ok {
      tr, u := DoSound(t, Begin, t, Land(1));
    } else {
      tr, u := DoSound(t, Begin, t, RecordLoss(false, true));
    }
  }

  lemma AfterUnsoundLookup(s: State, a: Action) returns (tr: Trace, u: State)
    requires Inv(s) && s.pc.RecLookup? && Step(s, a).Some? && !Sound(s, a)
    ensures Leads(Step(s, a).value, tr, u) && GoodRun(tr) && Length(tr) <= 2 && !Safe(u)
  {
    var t := Step(s, a).value;
    if s.chain.tokens > 0 {
      tr, u := Begin, t;
    } else {
      tr, u := DoSound(t, Begin, t, Land(1));
    }
  }

  lemma AfterUnsoundSave(s: State, a: Action) returns (tr: Trace, u: State)
    requires Inv(s) && s.pc == EntSave && Step(s, a).Some? && !Sound(s, a)
    ensures Leads(Step(s, a).value, tr, u) && GoodRun(tr) && Length(tr) <= 2 && !Safe(u)
  {
    var t := Step(s, a).value;
    tr, u := DoSound(t, Begin, t, RecordTrade(true));
    tr, u := DoSound(t, tr, u, RecordOpen(true));
  }

  // ---------------------------------------------------------------- counts and records, whatever the chain does

  /** The two writes that the agreement of count and record depends on: the position record of an
      entry (unless a stale record of the same size is there) and the close of a counted position. */
  predicate WritesSound(s: State, a: Action) {
    match (s.pc, a)
    case (EntSave, SavePosition(ok)) => ok || s.disk.position == Some(s.mem.size)
    case (ExClose, RecordClose(ok)) => ok || s.disk.risk.count == 0
    case _ => true
  }

  /** No position is counted, in memory or on disk. */
  predicate Uncounted(s: State) {
    s.mem.risk.count == 0 && s.mem.risk.exposure == 0 && s.disk.risk.count == 0
  }

  /** Count and record agree. Transaction, tokens and pending record play no part in it, and a stale
      position record is allowed. */
  predicate CountInv(s: State) {
    && CountsMatch(s.disk.risk, s.disk.position) && s.pc != Refused(CountWithoutRecord)
    && (StartingUp(s.pc) ==> s.mem.live.None?)
    && match s.pc
       case Down => true
       case Refused(_) => true
       case RecLoad => CountsMatch(s.mem.risk, s.disk.position)
       case RecClear => CountsMatch(s.mem.risk, s.disk.position)
       case Match => CountsMatch(s.mem.risk, s.disk.position)
       case RecConfirm => s.disk.position.None? && CountsMatch(s.mem.risk, None)
       case RecLookup(_) => s.disk.position.None? && CountsMatch(s.mem.risk, None)
       case RecSave => s.disk.position.None? && CountsMatch(s.mem.risk, None)
       case Orphan => s.disk.position.None? && CountsMatch(s.mem.risk, None)
       case RecTrade => s.disk.position == Some(s.mem.size) && CountsMatch(s.mem.risk, None)
       case RecOpen => s.disk.position == Some(s.mem.size) && CountsMatch(s.mem.risk, None)
       case Loop => if s.mem.live.Some? then Counted1(s, s.mem.live.value) else Uncounted(s)
       case EntTrade => s.mem.live.None? && Uncounted(s) && s.disk.position == Some(s.mem.size)
       case EntOpen => s.mem.live.None? && Uncounted(s) && s.disk.position == Some(s.mem.size)
       case EntClear => s.mem.live.None? && Counted1(s, s.mem.size)
       case ExClose => s.mem.live.Some? && Counted1(s, s.mem.live.value)
       case ExClear => s.mem.live.Some? && Uncounted(s)
       case _ => s.mem.live.None? && Uncounted(s)
  }

  /** The process counts one position, of the recorded size. */
  predicate Counted1(s: State, size: nat) {
    s.disk.position == Some(size) && s.mem.risk.count == 1 && s.mem.risk.exposure == size
  }

  /** The chain may be in any state, at any time. */
  lemma ChainPlaysNoPart(s: State, c: Chain)
    ensures CountInv(s) <==> CountInv(s.(chain := c))
  {
  }

  lemma StartKeepsCounts(s: State, a: Action)
    requires CountInv(s)
    ensures ReconcileStep(s, a).Some? ==> CountInv(ReconcileStep(s, a).value)
    ensures StartupStep(s, a).Some? ==> CountInv(StartupStep(s, a).value)
  {
  }

  lemma BookingKeepsCounts(s: State, a: Action)
    requires CountInv(s) && BookingStep(s, a).Some?
    ensures CountInv(BookingStep(s, a).value) <==> WritesSound(s, a)
  {
  }

  lemma LoopKeepsCounts(s: State, a: Action)
    requires CountInv(s)
    ensures EntryStep(s, a).Some? ==> CountInv(EntryStep(s, a).value)
    ensures ExitStep(s, a).Some? ==> (CountInv(ExitStep(s, a).value) <==> WritesSound(s, a))
  {
  }

  lemma EnvironmentKeepsCounts(s: State, a: Action)
    requires CountInv(s) && EnvironmentStep(s, a).Some?
    ensures CountInv(EnvironmentStep(s, a).value)
  {
  }

  /** Exactly the steps whose two writes are sound keep count and record in agreement. */
  lemma StepKeepsCounts(s: State, a: Action)
    requires CountInv(s) && Step(s, a).Some?
    ensures CountInv(Step(s, a).value) <==> WritesSound(s, a)
  {
    OneOf(s, a);
    StartKeepsCounts(s, a);
    LoopKeepsCounts(s, a);
    if BookingStep(s, a).Some? {
      BookingKeepsCounts(s, a);
    }
    if EnvironmentStep(s, a).Some? {
      EnvironmentKeepsCounts(s, a);
    }
  }

  predicate WrittenRun(tr: Trace) {
    tr.Begin? || (WrittenRun(tr.before) && WritesSound(tr.at, tr.action))
  }

  lemma {:induction false} RunKeepsCounts(s: State, tr: Trace, t: State)
    requires CountInv(s) && Leads(s, tr, t) && WrittenRun(tr)
    ensures CountInv(t)
  {
    match tr
    case Begin =>
    case Then(before, at, a) =>
      RunKeepsCounts(s, before, at);
      StepKeepsCounts(at, a);
  }

  /** What is promised about count and record. */
  ghost predicate CountSafe(s: State) {
    && s.disk.risk.count <= 1
    && (s.disk.risk.count == 1 ==> s.disk.position == Some(s.disk.risk.exposure))
    && s.pc != Refused(CountWithoutRecord)
  }

  /** In every run with crashes at any point in which the two writes succeed, whatever the chain
      does and answers: the persisted count is 0 or 1, a count of 1 has its position record and
      exposure, and the refusal for a count without a record is never reached. */
  lemma {:induction false} CountsAlwaysMatch(tr: Trace, s: State)
    requires Leads(INIT, tr, s) && WrittenRun(tr)
    ensures CountSafe(s)
  {
    RunKeepsCounts(INIT, tr, s);
    CountInvIsSafe(s);
  }

  lemma {:induction false} AllWrittenIsWritten(tr: Trace)
    requires AllWritten(tr)
    ensures WrittenRun(tr)
  {
    if !tr.Begin? {
      AllWrittenIsWritten(tr.before);
    }
  }

  /** In particular in every run in which no write fails. */
  lemma SuccessfulWritesSuffice(tr: Trace, s: State)
    requires Leads(INIT, tr, s) && AllWritten(tr)
    ensures CountSafe(s)
  {
    AllWrittenIsWritten(tr);
    CountsAlwaysMatch(tr, s);
  }

  lemma CountInvIsSafe(s: State)
    requires CountInv(s)
    ensures CountSafe(s)
  {
  }

  ghost predicate CountSafeFromHere(s: State) {
    forall tr, t :: Leads(s, tr, t) && WrittenRun(tr) ==> CountSafe(t)
  }

  /** Both writes are needed, at any state of any run: count and record stay safe for good if and
      only if the step is sound in this sense. */
  lemma WritesSoundExactly(s: State, a: Action)
    requires CountInv(s) && Step(s, a).Some?
    ensures WritesSound(s, a) <==> CountSafeFromHere(Step(s, a).value)
  {
    var t := Step(s, a).value;
    StepKeepsCounts(s, a);
    if WritesSound(s, a) {
      forall tr, u | Leads(t, tr, u) && WrittenRun(tr)
        ensures CountSafe(u)
      {
        RunKeepsCounts(t, tr, u);
        CountInvIsSafe(u);
      }
    } else {
      var tr, u := CountWithoutRecordFollows(s, a);
    }
  }

  /** Otherwise a persisted count without its record is at most two steps away. */
  lemma CountWithoutRecordFollows(s: State, a: Action) returns (tr: Trace, u: State)
    requires CountInv(s) && Step(s, a).Some? && !WritesSound(s, a)
    ensures Leads(Step(s, a).value, tr, u) && WrittenRun(tr) && Length(tr) <= 2
    ensures u.disk.risk.count == 1 && u.disk.position != Some(u.disk.risk.exposure)
  {
    var t := Step(s, a).value;
    if s.pc == EntSave {
      tr, u := CountedUnsaved(t);
    } else {
      tr, u := DoWritten(t, Begin, t, ClearPosition(true));
    }
  }

  lemma CountedUnsaved(s: State) returns (tr: Trace, t: State)
    requires s.pc == EntTrade && s.mem.risk.count == 0 && s.mem.risk.exposure == 0
    ensures Leads(s, tr, t) && WrittenRun(tr) && Length(tr) <= 2
    ensures t.disk.risk.count == 1 && t.disk.risk.exposure == s.mem.size && t.disk.position == s.disk.position
  {
    tr, t := DoWritten(s, Begin, s, RecordTrade(true));
    tr, t := DoWritten(s, tr, t, RecordOpen(true));
  }

  lemma DoWritten(s: State, tr: Trace, t: State, a: Action) returns (tr': Trace, t': State)
    requires Leads(s, tr, t) && WrittenRun(tr) && Step(t, a).Some? && WritesSound(t, a)
    ensures t' == Step(t, a).value && Leads(s, tr', t') && WrittenRun(tr') && Length(tr') == Length(tr) + 1
  {
    tr', t' := Then(tr, t, a), Step(t, a).value;
  }

  // ---------------------------------------------------------------- a pending record at the loop head

  predicate WritesOk(a: Action) {
    match a
    case Load(ok) => ok
    case LookupNotFound(ok) => ok
    case SavePosition(ok) => ok
    case RecordTrade(ok) => ok
    case RecordOpen(ok) => ok
    case ClearPending(ok) => ok
    case MatchPosition(_, ok) => ok
    case BeginEntry(_, ok) => ok
    case ReadBalance(ok) => ok
    case RecordLoss(_, ok) => ok
    case SavePeak(ok) => ok
    case ExitDone(_, ok) => ok
    case RecordClose(ok) => ok
    case ClearPosition(ok) => ok
    case _ => true
  }

  predicate PendingInv(s: State) {
    && (s.pc == Loop || s.pc == EntLoss || s.pc == ExClose || s.pc == ExClear ==> s.disk.pending.Some? ==> s.mem.kill)
    && (s.pc == Match || s.pc == Orphan ==> s.disk.pending.None?)
  }

  lemma StartKeepsPendingInv(s: State, a: Action)
    requires PendingInv(s) && WritesOk(a)
    ensures ReconcileStep(s, a).Some? ==> PendingInv(ReconcileStep(s, a).value)
    ensures StartupStep(s, a).Some? ==> PendingInv(StartupStep(s, a).value)
  {
  }

  lemma LoopKeepsPendingInv(s: State, a: Action)
    requires PendingInv(s) && WritesOk(a)
    ensures EntryStep(s, a).Some? ==> PendingInv(EntryStep(s, a).value)
    ensures ExitStep(s, a).Some? ==> PendingInv(ExitStep(s, a).value)
  {
  }

  lemma OtherKeepsPendingInv(s: State, a: Action)
    requires PendingInv(s) && WritesOk(a)
    ensures BookingStep(s, a).Some? ==> PendingInv(BookingStep(s, a).value)
    ensures EnvironmentStep(s, a).Some? ==> PendingInv(EnvironmentStep(s, a).value)
  {
  }

  lemma StepKeepsPendingInv(s: State, a: Action)
    requires PendingInv(s) && WritesOk(a) && Step(s, a).Some?
    ensures PendingInv(Step(s, a).value)
  {
    OneOf(s, a);
    StartKeepsPendingInv(s, a);
    LoopKeepsPendingInv(s, a);
    OtherKeepsPendingInv(s, a);
  }

  predicate AllWritten(tr: Trace) {
    tr.Begin? || (AllWritten(tr.before) && WritesOk(tr.action))
  }

  /** When no write fails, a pending record at the loop head always means that the kill switch
      is on: an entry of unknown outcome blocks further entries until the next start. This needs
      no assumption about the chain reads. */
  lemma {:induction false} PendingMeansKilled(s: State, tr: Trace, t: State)
    requires PendingInv(s) && Leads(s, tr, t) && AllWritten(tr)
    ensures PendingInv(t)
  {
    match tr
    case Begin =>
    case Then(before, at, a) =>
      PendingMeansKilled(s, before, at);
      StepKeepsPendingInv(at, a);
  }

  // ---------------------------------------------------------------- runs as proofs

  /** Extend a run by one enabled action. */
  lemma Do(s: State, tr: Trace, t: State, a: Action) returns (tr': Trace, t': State)
    requires Leads(s, tr, t) && Step(t, a).Some?
    ensures tr' == Then(tr, t, a) && t' == Step(t, a).value && Leads(s, tr', t')
  {
    tr', t' := Then(tr, t, a), Step(t, a).value;
  }

  function Concat(p: Trace, q: Trace): Trace {
    match q
    case Begin => p
    case Then(before, at, a) => Then(Concat(p, before), at, a)
  }

  lemma {:induction false} Join(s: State, p: Trace, t: State, q: Trace, u: State)
    requires Leads(s, p, t) && Leads(t, q, u)
    ensures Leads(s, Concat(p, q), u)
  {
    match q
    case Begin =>
    case Then(before, at, a) => Join(s, p, t, before, at);
  }

  // ---------------------------------------------------------------- recovery

  /** An action of an undisturbed start: the environment keeps still, every write succeeds, the
      lookup finds the transaction, the wallet is readable and the configuration is the old one.
      Confirmation may answer either way. */
  predicate Expected(s: State, a: Action) {
    && s.pc != Loop && !IsEnvironment(a) && WritesOk(a) && !a.LookupNotFound? && !a.LookupFailed?
    && (a.MatchPosition? ==> a.sameConfig) && (a.CheckOrphan? ==> a.readable)
  }

  /** A (possibly unfinished) undisturbed start of a process that is down. */
  predicate OneStart(tr: Trace) {
    tr.Begin? || (OneStart(tr.before) && Expected(tr.at, tr.action) && (tr.action.Start? ==> tr.before.Begin?))
  }

  function Length(tr: Trace): nat {
    match tr
    case Begin => 0
    case Then(before, _, _) => Length(before) + 1
  }

  /** A process that is not running, with an entry that has landed. */
  predicate Stopped(s: State) {
    && (s.pc.Down? || s.pc.Refused?) && s.chain.tx == Landed
    && (s.disk.pending.Some? ==> s.disk.pending.value.before == 0)
  }

  /** Reconciliation has to book: a pending record, no position record, and the tokens are there. */
  predicate Books(s: State) {
    s.disk.pending.Some? && s.disk.position.None? && s.chain.tokens > 0
  }

  /** The state at the startup match of a start from `s`. */
  function AtMatch(s: State): State {
    var m := s.(pc := Match, mem := Boot(s.disk));
    if Books(s) then
      var size := s.disk.pending.value.size;
      var r := Opened(s.disk.risk.(trades := s.disk.risk.trades + 1), size);
      m.(mem := m.mem.(risk := r, size := size), disk := Disk(None, Some(size), r), recorded := s.recorded + 1,
        counted := true)
    else m.(disk := s.disk.(pending := None))
  }

  /** Where a start from `s` ends. */
  function Outcome(s: State): State {
    var m := AtMatch(s);
    match m.disk.position
    case Some(size) =>
      var r := if m.mem.risk.count == 0 then Opened(m.mem.risk, size) else m.mem.risk;
      m.(pc := Loop, mem := m.mem.(risk := r, live := Some(size)), disk := m.disk.(risk := r))
    case None =>
      if m.mem.risk.count > 0 then m.(pc := Refused(CountWithoutRecord))
      else if m.chain.tokens > 0 then m.(pc := Refused(OrphanTokens))
      else m.(pc := Loop)
  }

  /** The state of a start from `s` at each point of the program. */
  predicate OnTheWay(s: State, t: State) {
    var booted := s.(pc := t.pc, mem := Boot(s.disk));
    var undecided := s.disk.pending.Some? && s.disk.position.None?;
    match t.pc
    case RecLoad => t == booted
    case RecConfirm => undecided && t == booted
    case RecLookup(_) => undecided && t == booted
    case RecSave => Books(s) && t == Sized(s, booted)
    case RecTrade => Books(s) && t == Saved(s, booted)
    case RecOpen => Books(s) && t == Traded(s, booted)
    case RecClear => undecided && t == (if Books(s) then Counted(s) else booted)
    case Match => t == AtMatch(s)
    case Orphan => t == AtMatch(s).(pc := Orphan) && t.disk.position.None? && t.mem.risk.count == 0
    case Loop => t == Outcome(s)
    case Refused(_) => t == Outcome(s)
    case _ => false
  }

  function Sized(s: State, booted: State): State
    requires s.disk.pending.Some?
  {
    booted.(mem := booted.mem.(size := s.disk.pending.value.size))
  }

  function Saved(s: State, booted: State): State
    requires s.disk.pending.Some?
  {
    Sized(s, booted).(disk := s.disk.(position := Some(s.disk.pending.value.size)))
  }

  function Traded(s: State, booted: State): State
    requires s.disk.pending.Some?
  {
    var r := s.disk.risk.(trades := s.disk.risk.trades + 1);
    var t := Saved(s, booted);
    t.(mem := t.mem.(risk := r), disk := t.disk.(risk := r), recorded := s.recorded + 1, counted := true)
  }

  function Counted(s: State): State {
    AtMatch(s).(pc := RecClear, disk := AtMatch(s).disk.(pending := s.disk.pending))
  }

  /** How many steps a start can have taken at most. */
  function Rank(pc: Pc): nat {
    match pc
    case RecLoad => 1
    case RecConfirm => 2
    case RecLookup(_) => 3
    case RecSave => 4
    case RecTrade => 5
    case RecOpen => 6
    case RecClear => 7
    case Match => 8
    case Orphan => 9
    case _ => 10
  }

  lemma ReconcileIsForced(s: State, t: State, a: Action)
    requires Stopped(s) && OnTheWay(s, t) && Expected(t, a) && ReconcileStep(t, a).Some?
    ensures OnTheWay(s, ReconcileStep(t, a).value) && Rank(ReconcileStep(t, a).value.pc) > Rank(t.pc)
  {
  }

  lemma BookingIsForced(s: State, t: State, a: Action)
    requires Stopped(s) && OnTheWay(s, t) && Expected(t, a) && BookingStep(t, a).Some?
    ensures OnTheWay(s, BookingStep(t, a).value) && Rank(BookingStep(t, a).value.pc) > Rank(t.pc)
  {
  }

  lemma MatchIsForced(s: State, t: State, a: Action)
    requires Stopped(s) && OnTheWay(s, t) && Expected(t, a) && !a.Start? && StartupStep(t, a).Some?
    ensures OnTheWay(s, StartupStep(t, a).value) && Rank(StartupStep(t, a).value.pc) > Rank(t.pc)
  {
  }

  lemma NothingElse(s: State, t: State, a: Action)
    requires OnTheWay(s, t) && Expected(t, a)
    ensures EntryStep(t, a) == None && ExitStep(t, a) == None && EnvironmentStep(t, a) == None
  {
  }

  lemma StepIsForced(s: State, t: State, a: Action)
    requires Stopped(s) && OnTheWay(s, t) && Expected(t, a) && !a.Start? && Step(t, a).Some?
    ensures OnTheWay(s, Step(t, a).value) && Rank(Step(t, a).value.pc) > Rank(t.pc)
  {
    OneOf(t, a);
    NothingElse(s, t, a);
    if ReconcileStep(t, a).Some? {
      ReconcileIsForced(s, t, a);
    }
    if BookingStep(t, a).Some? {
      BookingIsForced(s, t, a);
    }
    if StartupStep(t, a).Some? {
      MatchIsForced(s, t, a);
    }
  }

  /** Every start from `s`, whatever confirmation answers, goes through the same states, in at
      most ten steps. */
  lemma {:induction false} StartIsForced(s: State, tr: Trace, t: State)
    requires Stopped(s) && OneStart(tr) && Leads(s, tr, t)
    ensures if tr.Begin? then t == s else OnTheWay(s, t) && Length(tr) <= Rank(t.pc) <= 10
  {
    match tr
    case Begin =>
    case Then(before, at, a) =>
      StartIsForced(s, before, at);
      if !before.Begin? {
        StepIsForced(s, at, a);
      }
  }

  function NextAction(pc: Pc): Action {
    match pc
    case RecLoad => Load(true)
    case RecConfirm => ConfirmResult(false)
    case RecLookup(_) => LookupFound
    case RecSave => SavePosition(true)
    case RecTrade => RecordTrade(true)
    case RecOpen => RecordOpen(true)
    case RecClear => ClearPending(true)
    case Match => MatchPosition(true, true)
    case Orphan => CheckOrphan(true)
    case _ => Start
  }

  /** No start gets stuck before the loop head or a refusal. */
  lemma StartGoesOn(s: State, t: State)
    requires Stopped(s) && (t == s || (OnTheWay(s, t) && t.pc != Loop && !t.pc.Refused?))
    ensures Step(t, NextAction(t.pc)).Some? && Expected(t, NextAction(t.pc)) && (NextAction(t.pc).Start? ==> t == s)
  {
  }

  /** So every start can be brought to its end. */
  lemma {:induction false} StartEnds(s: State, tr: Trace, t: State) returns (tr': Trace)
    requires Stopped(s) && OneStart(tr) && Leads(s, tr, t)
    ensures OneStart(tr') && Leads(s, tr', Outcome(s)) && !tr'.Begin?
    decreases 11 - Length(tr)
  {
    StartIsForced(s, tr, t);
    if !tr.Begin? && (t.pc == Loop || t.pc.Refused?) {
      return tr;
    }
    StartGoesOn(s, t);
    var next, u := Do(s, tr, t, NextAction(t.pc));
    StartIsForced(s, next, u);
    tr' := StartEnds(s, next, u);
  }

  /** Whatever was interrupted, and however often: from every state a run can leave behind with
      unsold tokens, every undisturbed start, whatever confirmation answers, takes at most ten
      steps, never gets stuck, never refuses, and reaches the loop head only with the position
      booked exactly once, its exposure equal to its size, and no pending record. */
  lemma RecoveryBooks(s: State, tr: Trace, t: State)
    requires Inv(s) && s.chain.tokens > 0 && (s.pc.Down? || s.pc.Refused?)
    requires OneStart(tr) && Leads(s, tr, t)
    ensures Inv(t) && t.chain == s.chain && Length(tr) <= 10 && (tr.Begin? || !t.pc.Refused?)
    ensures t.pc != Loop ==> Step(t, NextAction(t.pc)).Some? && OneStart(Then(tr, t, NextAction(t.pc)))
    ensures t.pc == Loop ==>
              && t.disk.pending == None && t.mem.live.Some? && t.mem.live == t.disk.position
              && t.disk.risk == t.mem.risk && t.mem.risk.count == 1 && t.mem.risk.exposure == t.mem.live.value
              && t.mem.live == (if s.disk.position.Some? then s.disk.position else Some(s.disk.pending.value.size))
              && t.recorded == s.recorded + (if s.disk.position.Some? then 0 else 1)
  {
    StartIsForced(s, tr, t);
    OneStartIsGood(s, tr, t);
    RunKeepsInv(s, tr, t);
    OutcomeBooks(s);
    if t.pc != Loop {
      StartGoesOn(s, t);
    }
  }

  /** The booking half of reconciliation, from any state that a run can bring it to. */
  lemma BookPending(s: State)
    requires Inv(s) && s.pc == RecSave
    ensures var saved := Step(s, SavePosition(true));
            var booked := Bind(Bind(saved, RecordTrade(true)), RecordOpen(true));
            var t := Bind(booked, ClearPending(true));
            && t.Some? && t.value.pc == Match && t.value.chain == s.chain && t.value.disk.risk == t.value.mem.risk
            && t.value.disk.position == Some(s.mem.size) && t.value.disk.pending == None
            && t.value.mem.risk.count == 1 && t.value.mem.risk.exposure == s.mem.size
  {
    SaveAndTrade(s);
    OpenAndClear(Bind(Step(s, SavePosition(true)), RecordTrade(true)).value);
  }

  lemma SaveAndTrade(s: State)
    requires s.pc == RecSave
    ensures var r := s.mem.risk.(trades := s.mem.risk.trades + 1);
            Bind(Step(s, SavePosition(true)), RecordTrade(true)) ==
            Some(s.(mem := s.mem.(risk := r), disk := Disk(s.disk.pending, Some(s.mem.size), r), pc := RecOpen,
                    recorded := s.recorded + 1, counted := true))
  {
  }

  lemma OpenAndClear(s: State)
    requires s.pc == RecOpen
    ensures var r := Opened(s.mem.risk, s.mem.size);
            Bind(Step(s, RecordOpen(true)), ClearPending(true)) ==
            Some(s.(mem := s.mem.(risk := r), disk := Disk(None, s.disk.position, r), pc := Match))
  {
  }

  /** Resuming a position record, whether or not its open was counted before the crash. */
  lemma ResumePosition(s: State)
    requires Inv(s) && s.pc == Match && s.disk.position.Some? && s.disk.risk == s.mem.risk
    ensures var t := Step(s, MatchPosition(true, true));
            && t.Some? && t.value.pc == Loop && t.value.chain == s.chain && t.value.disk.pending == s.disk.pending
            && t.value.mem.live == t.value.disk.position == s.disk.position && t.value.disk.risk == t.value.mem.risk
            && t.value.mem.risk.count == 1 && t.value.mem.live == Some(t.value.mem.risk.exposure)
  {
  }

  lemma OutcomeBooks(s: State)
    requires Inv(s) && s.chain.tokens > 0
    ensures Outcome(s).pc == Loop
    ensures Outcome(s).mem.risk.count == 1 && Outcome(s).mem.live == Some(Outcome(s).mem.risk.exposure)
  {
  }

  lemma {:induction false} OneStartIsGood(s: State, tr: Trace, t: State)
    requires Stopped(s) && OneStart(tr) && Leads(s, tr, t)
    ensures GoodRun(tr)
  {
    match tr
    case Begin =>
    case Then(before, at, a) =>
      OneStartIsGood(s, before, at);
      StartIsForced(s, before, at);
  }

  // ---------------------------------------------------------------- every hypothesis is needed

  lemma StartUp() returns (tr: Trace, s: State)
    ensures Leads(INIT, tr, s) && s == INIT.(pc := Loop)
  {
    var p, m := Do(INIT, Begin, INIT, Start);
    p, m := Do(INIT, p, m, Load(true));
    var q;
    q, s := NothingToResume(m);
    Join(INIT, p, m, q, s);
    tr := Concat(p, q);
  }

  lemma NothingToResume(s: State) returns (tr: Trace, t: State)
    requires s.pc == Match && s.disk.position.None? && s.mem.risk.count == 0 && s.chain.tokens == 0
    ensures Leads(s, tr, t) && t == s.(pc := Loop)
  {
    tr, t := Begin, s;
    tr, t := Do(s, tr, t, MatchPosition(true, true));
    tr, t := Do(s, tr, t, CheckOrphan(true));
  }

  /** From an idle loop head, an entry is sent. */
  lemma SendEntry(s: State, size: nat) returns (tr: Trace, t: State)
    requires s.pc == Loop && s.chain.tokens == 0 && s.mem.live.None? && s.mem.risk.count == 0 && !s.mem.kill &&
             !s.mem.persistFailed
    ensures Leads(s, tr, t)
    ensures t == s.(pc := EntSubmit, mem := s.mem.(size := size, before := 0),
                    disk := s.disk.(pending := Some(Pending(size, 0))),
                    chain := Chain(Alive, 0), counted := false)
  {
    tr, t := Begin, s;
    tr, t := Do(s, tr, t, BeginEntry(size, true));
    tr, t := Do(s, tr, t, Send);
  }

  /** An entry of size 10 that lands with 5 tokens, about to be booked. */
  lemma FirstEntry() returns (tr: Trace, s: State)
    ensures Leads(INIT, tr, s)
    ensures s == State(EntSave, Memory(None, NO_COUNTERS, false, false, 10, 0),
                       Disk(Some(Pending(10, 0)), None, NO_COUNTERS),
                       Chain(Landed, 5), 1, 0, false)
  {
    var sent := SentFirst();
    tr, s := Do(sent, Begin, sent, Land(5));
    tr, s := Do(sent, tr, s, SubmitOk);
    var p := LeadsToSent();
    Join(INIT, p, sent, tr, s);
    tr := Concat(p, tr);
  }

  function SentFirst(): State {
    State(EntSubmit, Memory(None, NO_COUNTERS, false, false, 10, 0), Disk(Some(Pending(10, 0)), None, NO_COUNTERS),
      Chain(Alive, 0), 0, 0, false)
  }

  lemma LeadsToSent() returns (tr: Trace)
    ensures Leads(INIT, tr, SentFirst())
  {
    var p, idle := StartUp();
    var q, sent := SendEntry(idle, 10);
    Join(INIT, p, idle, q, sent);
    tr := Concat(p, q);
  }

  /** The booking steps of the loop, with the outcome of the position write. */
  lemma Book(s: State, saved: bool) returns (tr: Trace, t: State)
    requires s.pc == EntSave && s.mem.risk.count == 0
    ensures Leads(s, tr, t)
    ensures var r := Counters(1, s.mem.risk.exposure + s.mem.size, s.mem.risk.trades + 1);
            t == s.(pc := Loop, mem := s.mem.(live := Some(s.mem.size), risk := r, kill := s.mem.kill || !saved),
                    disk := Disk(None, if saved then Some(s.mem.size) else s.disk.position, r),
                    recorded := s.recorded + 1, counted := true)
  {
    var p, m := BookTrade(s, saved);
    var q;
    q, t := BookOpen(m);
    Join(s, p, m, q, t);
    tr := Concat(p, q);
  }

  lemma BookOpen(s: State) returns (tr: Trace, t: State)
    requires s.pc == EntOpen
    ensures Leads(s, tr, t)
    ensures var r := Opened(s.mem.risk, s.mem.size);
            t == s.(pc := Loop, mem := s.mem.(live := Some(s.mem.size), risk := r),
              disk := Disk(None, s.disk.position, r))
  {
    tr, t := Begin, s;
    tr, t := Do(s, tr, t, RecordOpen(true));
    tr, t := Do(s, tr, t, ClearPending(true));
  }

  lemma BookTrade(s: State, saved: bool) returns (tr: Trace, t: State)
    requires s.pc == EntSave
    ensures Leads(s, tr, t)
    ensures var r := s.mem.risk.(trades := s.mem.risk.trades + 1);
            t == s.(pc := EntOpen, mem := s.mem.(risk := r, kill := s.mem.kill || !saved),
                    disk := Disk(s.disk.pending, if saved then Some(s.mem.size) else s.disk.position, r),
                    recorded := s.recorded + 1, counted := true)
  {
    tr, t := Begin, s;
    tr, t := Do(s, tr, t, SavePosition(saved));
    tr, t := Do(s, tr, t, RecordTrade(true));
  }

  /** A sold position is closed, with the outcomes of the two writes. */
  lemma CloseSold(s: State, closed: bool, cleared: bool) returns (tr: Trace, t: State)
    requires s.pc == Loop && s.mem.live.Some?
    ensures Leads(s, tr, t)
    ensures var r := Closed(s.mem.risk, s.mem.live.value);
            t == s.(pc := Loop, mem := s.mem.(live := None, risk := r, persistFailed := s.mem.persistFailed || !closed),
                    disk := Disk(s.disk.pending, if cleared then None else s.disk.position,
                                 if closed then r else s.disk.risk),
                    chain := Chain(s.chain.tx, 0))
  {
    var m := s.(pc := ExClose, chain := Chain(s.chain.tx, 0));
    var p, t1 := Do(s, Begin, s, Sold(0));
    p, t1 := Do(s, p, t1, ExitDone(false, true));
    var q;
    q, t := WriteClose(m, closed, cleared);
    Join(s, p, m, q, t);
    tr := Concat(p, q);
  }

  lemma WriteClose(s: State, closed: bool, cleared: bool) returns (tr: Trace, t: State)
    requires s.pc == ExClose && s.mem.live.Some?
    ensures Leads(s, tr, t)
    ensures var r := Closed(s.mem.risk, s.mem.live.value);
            t == s.(pc := Loop, mem := s.mem.(live := None, risk := r, persistFailed := s.mem.persistFailed || !closed),
                    disk := Disk(s.disk.pending, if cleared then None else s.disk.position,
                                 if closed then r else s.disk.risk))
  {
    tr, t := Begin, s;
    tr, t := Do(s, tr, t, RecordClose(closed));
    tr, t := Do(s, tr, t, ClearPosition(cleared));
  }

  /** A crash and the start after it, up to the match, when no reconciliation is needed. */
  lemma Restart(s: State) returns (tr: Trace, t: State)
    requires !s.pc.Down? && !s.pc.Refused? && (s.disk.pending.Some? ==> s.disk.position.Some?)
    ensures Leads(s, tr, t) && t == s.(pc := Match, mem := Boot(s.disk), disk := s.disk.(pending := None))
  {
    tr, t := Begin, s;
    tr, t := Do(s, tr, t, Crash);
    tr, t := Do(s, tr, t, Start);
    tr, t := Do(s, tr, t, Load(true));
  }

  /** After a crash in `s`, the startup match. */
  lemma RestartAndMatch(s: State) returns (tr: Trace, t: State)
    requires !s.pc.Down? && !s.pc.Refused? && (s.disk.pending.Some? ==> s.disk.position.Some?)
    ensures Leads(s, tr, t)
    ensures Some(t) ==
            Step(s.(pc := Match, mem := Boot(s.disk), disk := s.disk.(pending := None)), MatchPosition(true, true))
  {
    var p, m := Restart(s);
    var q;
    q, t := Do(m, Begin, m, MatchPosition(true, true));
    Join(s, p, m, q, t);
    tr := Concat(p, q);
  }

  // ---- a failed position record

  /** Saving the position record of a landed entry fails; `n` of the three writes that follow
      have been made, with the given outcomes. */
  function AfterFailedSave(s: State, n: nat, trade: bool, open: bool, clear: bool): Option<State> {
    if n == 0 then Step(s, SavePosition(false))
    else
      Bind(AfterFailedSave(s, n - 1, trade, open, clear),
           if n == 1 then RecordTrade(trade) else if n == 2 then RecordOpen(open) else ClearPending(clear))
  }

  /** Then the process dies. */
  function FailedSave(s: State, n: nat, trade: bool, open: bool, clear: bool): Option<State> {
    Bind(AfterFailedSave(s, n, trade, open, clear), Crash)
  }

  /** Between the failed save of entry `s` and the crash, `n` writes later. */
  predicate Unsaved(s: State, t: State, n: nat, open: bool, clear: bool) {
    var counted := n >= 2 && open;
    && t.chain == s.chain && t.landed == s.landed && t.recorded == s.recorded + (if n >= 1 then 1 else 0)
    && t.mem.size == s.mem.size && (n >= 1 ==> t.counted)
    && (n >= 2 ==> t.mem.risk.count == 1 && t.mem.risk.exposure == s.mem.size)
    && t.disk.position == None && t.disk.pending == (if n >= 3 && clear then None else Some(Pending(s.mem.size, 0)))
    && t.disk.risk.count == (if counted then 1 else 0) && t.disk.risk.exposure == (if counted then s.mem.size else 0)
  }

  lemma {:induction false} AfterFailedSaveLeaves(s: State, n: nat, trade: bool, open: bool, clear: bool)
    requires Inv(s) && s.pc == EntSave && n <= 3
    ensures AfterFailedSave(s, n, trade, open, clear).Some?
    ensures var t := AfterFailedSave(s, n, trade, open, clear).value;
            && Unsaved(s, t, n, open, clear) && (n <= 1 ==> CountsMatch(t.mem.risk, None))
            && t.pc == (if n == 0 then EntTrade else if n == 1 then EntOpen else if n == 2 then EntClear else Loop)
            && (n == 3 ==> t.mem.live == Some(s.mem.size))
  {
    if n > 0 {
      AfterFailedSaveLeaves(s, n - 1, trade, open, clear);
      var t := AfterFailedSave(s, n - 1, trade, open, clear).value;
      if n == 1 {
        var u := TradeAfterFailedSave(s, t, trade, open, clear);
      } else if n == 2 {
        var u := OpenAfterFailedSave(s, t, open, clear);
      } else {
        var u := ClearAfterFailedSave(s, t, open, clear);
      }
    }
  }

  /** What such a crash leaves on disk. */
  lemma FailedSaveLeaves(s: State, n: nat, trade: bool, open: bool, clear: bool)
    requires Inv(s) && s.pc == EntSave && n <= 3
    ensures FailedSave(s, n, trade, open, clear).Some?
    ensures var t := FailedSave(s, n, trade, open, clear).value;
            t.pc == Down && Stopped(t) && Unsaved(s, t, n, open, clear)
  {
    AfterFailedSaveLeaves(s, n, trade, open, clear);
    CrashAt(AfterFailedSave(s, n, trade, open, clear).value);
  }

  lemma CrashAt(s: State)
    requires !s.pc.Down? && !s.pc.Refused?
    ensures Step(s, Crash) == Some(s.(pc := Down))
  {
  }

  lemma TradeAfterFailedSave(s: State, t: State, trade: bool, open: bool, clear: bool) returns (u: State)
    requires CountsMatch(t.mem.risk, None) && t.pc == EntTrade && Unsaved(s, t, 0, open, clear)
    ensures Step(t, RecordTrade(trade)) == Some(u) && u.pc == EntOpen && Unsaved(s, u, 1, open, clear)
    ensures CountsMatch(u.mem.risk, None)
  {
    u := Step(t, RecordTrade(trade)).value;
  }

  lemma OpenAfterFailedSave(s: State, t: State, open: bool, clear: bool) returns (u: State)
    requires CountsMatch(t.mem.risk, None) && t.pc == EntOpen && Unsaved(s, t, 1, open, clear)
    ensures Step(t, RecordOpen(open)) == Some(u) && u.pc == EntClear && Unsaved(s, u, 2, open, clear)
  {
    u := Step(t, RecordOpen(open)).value;
  }

  lemma ClearAfterFailedSave(s: State, t: State, open: bool, clear: bool) returns (u: State)
    requires t.pc == EntClear && Unsaved(s, t, 2, open, clear)
    ensures Step(t, ClearPending(clear)) == Some(u) && u.pc == Loop && Unsaved(s, u, 3, open, clear)
    ensures u.mem.live == Some(s.mem.size)
  {
    u := Step(t, ClearPending(clear)).value;
  }

  /** What every undisturbed next start does then, exactly. It needs the operator when the pending
      record was dropped (or the tokens are gone while the open was counted); it books a second
      time, at twice the exposure, when the open was counted but the pending record was not dropped;
      and it is clean only when neither write happened. */
  lemma FailedSaveDecides(s: State, n: nat, trade: bool, open: bool, clear: bool, tr: Trace, t: State)
    requires Inv(s) && s.pc == EntSave && n <= 3 && FailedSave(s, n, trade, open, clear).Some?
    requires OneStart(tr) && Leads(FailedSave(s, n, trade, open, clear).value, tr, t) && (t.pc == Loop || t.pc.Refused?)
    ensures var counted, dropped, held := n >= 2 && open, n >= 3 && clear, s.chain.tokens > 0;
            && (t.pc == Refused(CountWithoutRecord) <==> counted && (dropped || !held))
            && (t.pc == Refused(OrphanTokens) <==> !counted && dropped && held)
            && (t.pc == Loop && t.mem.risk.count == 2 <==> counted && !dropped && held)
            && (t.pc == Loop && t.mem.risk.count == 1 <==> !counted && !dropped && held)
            && (t.pc == Loop && t.mem.risk.count == 0 <==> !counted && !held)
            && (t.pc == Loop && held ==>
                  t.mem.live == Some(s.mem.size) && t.mem.risk.exposure == t.mem.risk.count * s.mem.size)
            && (t.pc.Refused? ==> t.disk.position.None? && t.disk.pending.None?)
            && t.chain == s.chain && t.landed == s.landed
            && t.recorded == s.recorded + (if n >= 1 then 1 else 0) + (if !dropped && held then 1 else 0)
  {
    var crashed := FailedSave(s, n, trade, open, clear).value;
    FailedSaveLeaves(s, n, trade, open, clear);
    StartIsForced(crashed, tr, t);
    OutcomeOf(crashed, t);
  }

  /** As long as the process lives it can still be healed: the next best price that is saved
      writes the missing record, and the invariant holds again whatever the other writes did. */
  lemma PeakHeals(s: State, trade: bool, open: bool, clear: bool)
    requires Inv(s) && s.pc == EntSave && AfterFailedSave(s, 3, trade, open, clear).Some?
    ensures var t := Step(AfterFailedSave(s, 3, trade, open, clear).value, SavePeak(true)); t.Some? && Inv(t.value)
  {
    AfterFailedSaveLeaves(s, 3, trade, open, clear);
    PeakWrites(AfterFailedSave(s, 3, trade, open, clear).value);
  }

  lemma PeakWrites(s: State)
    requires s.pc == Loop && s.mem.live.Some?
    ensures Step(s, SavePeak(true)) == Some(s.(disk := s.disk.(position := s.mem.live)))
  {
  }

  /** The end of a start without a position record, field by field. */
  lemma OutcomeOf(s: State, t: State)
    requires Stopped(s) && s.disk.position.None? && t == Outcome(s)
    ensures var r, held := s.disk.risk, s.chain.tokens > 0;
            if Books(s)
            then t.pc == Loop && t.mem.live == Some(s.disk.pending.value.size) && t.recorded == s.recorded + 1 &&
                 t.mem.risk.count == r.count + 1 && t.mem.risk.exposure == r.exposure + s.disk.pending.value.size
            else t.pc == (if r.count > 0 then Refused(CountWithoutRecord)
                          else if held then Refused(OrphanTokens) else Loop) &&
                 t.recorded == s.recorded && t.disk.position.None? && t.disk.pending.None? && t.mem.risk == r
    ensures t.chain == s.chain && t.landed == s.landed
  {
  }

  /** If the position record of any landed entry cannot be saved while the counters are written
      and the pending record is dropped, the next start ends in the refusal, without any record. */
  lemma LostPositionRecord(s: State) returns (tr: Trace, t: State)
    requires Inv(s) && s.pc == EntSave
    ensures Leads(s, tr, t) && t.chain == s.chain
    ensures t.pc == Refused(CountWithoutRecord) && t.disk.pending.None? && t.disk.position.None?
  {
    var p, m := Book(s, false);
    var q;
    q, t := RestartAndMatch(m);
    Join(s, p, m, q, t);
    tr := Concat(p, q);
  }

  /** If instead the process dies before the pending record is dropped, one landed entry ends up
      counted twice: two positions, twice the exposure, two trades. */
  lemma BookedTwice(s: State) returns (tr: Trace, t: State)
    requires Inv(s) && s.pc == EntSave && s.chain.tokens > 0
    ensures Leads(s, tr, t) && t.pc == Loop && t.landed == s.landed && t.recorded == s.recorded + 2
    ensures t.mem.risk.count == 2 && t.mem.risk.exposure == 2 * s.mem.size && t.mem.live == Some(s.mem.size)
  {
    var p, m := BookTrade(s, false);
    var q, crashed := OpenAndCrash(m);
    Join(s, p, m, q, crashed);
    var r := StartEnds(crashed, Begin, crashed);
    t := Outcome(crashed);
    OutcomeOf(crashed, t);
    Join(s, Concat(p, q), crashed, r, t);
    tr := Concat(Concat(p, q), r);
  }

  lemma OpenAndCrash(s: State) returns (tr: Trace, t: State)
    requires s.pc == EntOpen
    ensures Leads(s, tr, t)
    ensures var r := Opened(s.mem.risk, s.mem.size);
            t == s.(pc := Down, mem := s.mem.(risk := r), disk := s.disk.(risk := r))
  {
    tr, t := Do(s, Begin, s, RecordOpen(true));
    tr, t := Do(s, tr, t, Crash);
  }

  /** Such states are reached. */
  lemma AnEntryLands() returns (tr: Trace, s: State)
    ensures Leads(INIT, tr, s) && Inv(s) && s.pc == EntSave && s.chain.tokens > 0
  {
    tr, s := FirstEntry();
  }

  /** A first entry, booked, sold and closed, with the outcomes of the two closing writes. */
  lemma FirstRoundTrip(closed: bool, cleared: bool) returns (tr: Trace, s: State)
    ensures Leads(INIT, tr, s)
    ensures s == State(Loop, Memory(None, Counters(0, 0, 1), false, !closed, 10, 0),
                       Disk(None, if cleared then None else Some(10),
                            Counters(if closed then 0 else 1, if closed then 0 else 10, 1)),
                       Chain(Landed, 0), 1, 1, true)
  {
    var p, a := FirstEntry();
    var q, b := Book(a, true);
    var r;
    r, s := CloseSold(b, closed, cleared);
    Join(INIT, p, a, q, b);
    Join(INIT, Concat(p, q), b, r, s);
    tr := Concat(Concat(p, q), r);
  }

  // ---- a close or a removal that is lost

  /** A sold position is being closed; the process dies after `n` of the two writes, which have
      the given outcomes. */
  function DiesClosing(s: State, n: nat, closed: bool, cleared: bool): Option<State> {
    var one := if n >= 1 then Step(s, RecordClose(closed)) else Some(s);
    var two := if n >= 2 then Bind(one, ClearPosition(cleared)) else one;
    Bind(two, Crash)
  }

  lemma CloseThenClear(s: State, closed: bool, cleared: bool)
    requires s.pc == ExClose && s.mem.live.Some?
    ensures var r := Closed(s.mem.risk, s.mem.live.value);
            var one := s.(pc := ExClear, mem := s.mem.(risk := r, persistFailed := s.mem.persistFailed || !closed),
                          disk := if closed then s.disk.(risk := r) else s.disk);
            && Step(s, RecordClose(closed)) == Some(one)
            && Step(one, ClearPosition(cleared)) ==
               Some(one.(pc := Loop, mem := one.mem.(live := None),
                         disk := if cleared then one.disk.(position := None) else one.disk))
  {
  }

  lemma DiesClosingLeaves(s: State, n: nat, closed: bool, cleared: bool)
    requires Inv(s) && s.pc == ExClose
    ensures DiesClosing(s, n, closed, cleared).Some?
    ensures var t := DiesClosing(s, n, closed, cleared).value;
            && t.pc == Down && Stopped(t) && t.chain == s.chain && t.recorded == s.recorded
            && t.disk.pending == s.disk.pending
            && t.disk.position == (if n >= 2 && cleared then None else s.mem.live)
            && t.disk.risk.count == (if n >= 1 && closed then 0 else s.disk.risk.count)
  {
    CloseThenClear(s, closed, cleared);
    if n == 0 {
      CrashAt(s);
    } else {
      var one := Step(s, RecordClose(closed)).value;
      CrashAt(if n == 1 then one else Step(one, ClearPosition(cleared)).value);
    }
  }

  /** What every undisturbed next start does after that, exactly: it needs the operator when the
      record is gone while the open is still counted; it resumes a position that is no longer
      there, counted once, as long as the record is there; otherwise it starts clean. */
  lemma CloseDecides(s: State, n: nat, closed: bool, cleared: bool, tr: Trace, t: State)
    requires Inv(s) && s.pc == ExClose && DiesClosing(s, n, closed, cleared).Some?
    requires OneStart(tr) && Leads(DiesClosing(s, n, closed, cleared).value, tr, t) && (t.pc == Loop || t.pc.Refused?)
    ensures var gone, counted := n >= 2 && cleared, s.disk.risk.count == 1 && !(n >= 1 && closed);
            && (t.pc == Refused(CountWithoutRecord) <==> gone && counted)
            && (t.pc == Loop && t.mem.live == s.mem.live && t.mem.risk.count == 1 <==> !gone)
            && (t.pc == Loop && t.mem.live.None? && t.mem.risk.count == 0 <==> gone && !counted)
            && t.chain == s.chain && t.chain.tokens == 0 && t.recorded == s.recorded && t.disk.pending.None?
  {
    var stopped := DiesClosing(s, n, closed, cleared).value;
    DiesClosingLeaves(s, n, closed, cleared);
    StartIsForced(stopped, tr, t);
    if stopped.disk.position.None? {
      OutcomeOf(stopped, t);
    } else {
      RecordWins(stopped, t);
    }
  }

  /** A position is closed while tokens of it are left, and then the process dies. */
  function DiesAfterShortExit(s: State, loss: bool, ok: bool): Option<State> {
    Bind(Bind(Bind(Step(s, ExitDone(loss, ok)), RecordClose(true)), ClearPosition(true)), Crash)
  }

  lemma ShortExitLeaves(s: State, loss: bool, ok: bool)
    requires Inv(s) && s.pc == Loop && s.mem.live.Some? && s.chain.tokens > 0
    ensures DiesAfterShortExit(s, loss, ok).Some?
    ensures var t := DiesAfterShortExit(s, loss, ok).value;
            && t.pc == Down && Stopped(t) && t.chain == s.chain && t.disk.position.None?
            && t.disk.pending == s.disk.pending && t.disk.risk.count == 0 && t.recorded == s.recorded
  {
    var exit := Step(s, ExitDone(loss, ok)).value;
    ExitStarts(s, ExitDone(loss, ok));
    CloseThenClear(exit, true, true);
    CrashAt(Step(Step(exit, RecordClose(true)).value, ClearPosition(true)).value);
  }

  /** Every next start then refuses, because of the tokens without a record; or, if the pending
      record of the entry had not been removed, it books the entry and its trade once more. */
  lemma ShortExitDecides(s: State, loss: bool, ok: bool, tr: Trace, t: State)
    requires Inv(s) && s.pc == Loop && s.mem.live.Some? && s.chain.tokens > 0
    requires DiesAfterShortExit(s, loss, ok).Some? && OneStart(tr)
    requires Leads(DiesAfterShortExit(s, loss, ok).value, tr, t) && (t.pc == Loop || t.pc.Refused?)
    ensures t.pc == Refused(OrphanTokens) <==> s.disk.pending.None?
    ensures t.pc == Loop && t.recorded == s.recorded + 1 <==> s.disk.pending.Some?
    ensures t.chain == s.chain
  {
    ShortExitLeaves(s, loss, ok);
    StartIsForced(DiesAfterShortExit(s, loss, ok).value, tr, t);
    OutcomeOf(DiesAfterShortExit(s, loss, ok).value, t);
  }

  /** A position record on disk decides a start, whatever else is there: it is resumed, with its
      own size; a pending record is dropped unread and no trade is counted. */
  lemma RecordWins(s: State, t: State)
    requires Stopped(s) && s.disk.position.Some? && t == Outcome(s)
    ensures t.pc == Loop && t.mem.live == t.disk.position == s.disk.position && t.disk.pending.None?
    ensures t.chain == s.chain && t.recorded == s.recorded && t.landed == s.landed
    ensures t.mem.risk.count == (if s.disk.risk.count == 0 then 1 else s.disk.risk.count)
  {
  }

  /** So if the record of a closed position could not be removed, every later entry of whatever
      size that is interrupted after landing is managed under the old size and never counted as a
      trade, by every next start. */
  lemma StaleRecordHides(s: State, amount: nat, tr: Trace, t: State)
    requires s.pc == EntSubmit && s.chain == Chain(Alive, 0) && amount > 0
    requires s.disk.position.Some? && s.disk.pending.Some? && s.disk.pending.value.before == 0
    requires OneStart(tr) && Leads(DiesAfterLanding(s, amount), tr, t) && (t.pc == Loop || t.pc.Refused?)
    ensures Bind(Step(s, Land(amount)), Crash) == Some(DiesAfterLanding(s, amount))
    ensures t.pc == Loop && t.mem.live == s.disk.position && t.disk.pending.None?
    ensures t.chain.tokens == amount && t.landed == s.landed + 1 && t.recorded == s.recorded
  {
    LandThenCrash(s, amount);
    StartIsForced(DiesAfterLanding(s, amount), tr, t);
    RecordWins(DiesAfterLanding(s, amount), t);
  }

  function DiesAfterLanding(s: State, amount: nat): State {
    s.(pc := Down, chain := Chain(Landed, s.chain.tokens + amount), landed := s.landed + 1)
  }

  lemma LandThenCrash(s: State, amount: nat)
    requires s.pc == EntSubmit && s.chain.tx == Alive && amount > 0
    ensures Bind(Step(s, Land(amount)), Crash) == Some(DiesAfterLanding(s, amount))
  {
    assert Step(s, Land(amount)) == Some(DiesAfterLanding(s, amount).(pc := EntSubmit));
  }

  /** If the close cannot be persisted but the position record is removed, the next start finds
      a count without a record. */
  lemma LostClose() returns (tr: Trace, s: State)
    ensures Leads(INIT, tr, s) && s.pc == Refused(CountWithoutRecord)
  {
    var p, a := FirstRoundTrip(false, true);
    var q;
    q, s := RestartAndMatch(a);
    Join(INIT, p, a, q, s);
    tr := Concat(p, q);
  }

  /** If the closed position record cannot be removed, a later entry that is interrupted after
      landing is taken for the old one: managed with the old size and never counted as a trade. */
  lemma StalePositionRecord() returns (tr: Trace, s: State)
    ensures Leads(INIT, tr, s) && s.pc == Loop
    ensures s.chain.tokens == 7 && s.disk.pending.None? && s.mem.live == Some(10) && s.landed == 2 && s.recorded == 1
  {
    var p, a := FirstRoundTrip(true, false);
    var q, b := SendEntry(a, 20);
    var c := b.(chain := Chain(Landed, 7), landed := 2);
    var l, c' := Do(b, Begin, b, Land(7));
    var r;
    r, s := RestartAndMatch(c);
    Join(INIT, p, a, q, b);
    Join(INIT, Concat(p, q), b, l, c);
    Join(INIT, Concat(Concat(p, q), l), c, r, s);
    tr := Concat(Concat(Concat(p, q), l), r);
  }

  /** If an Err with an unchanged balance is taken as final while the transaction can still
      land, it lands without any record, and the next entry is not blocked. */
  lemma PrematureDrop() returns (tr: Trace, s: State)
    ensures Leads(INIT, tr, s) && s.pc == Loop && !s.mem.kill
    ensures s.chain.tokens > 0 && s.disk.pending.None? && s.disk.position.None?
  {
    var sent := SentFirst();
    var q, dropped := DropAlive(sent);
    var r;
    r, s := Do(dropped, Begin, dropped, Land(5));
    var p := LeadsToSent();
    Join(INIT, p, sent, q, dropped);
    Join(INIT, Concat(p, q), dropped, r, s);
    tr := Concat(Concat(p, q), r);
  }

  /** The comment "Definitely not landed", exactly: once the unchanged balance has been taken as
      final, the loop goes on in doubt if and only if the transaction can still land. */
  lemma DropInLoopDecides(s: State, kill: bool, ok: bool)
    requires Inv(s) && s.pc == EntRead && s.chain.tokens == 0
    ensures var t := Bind(Step(s, ReadBalance(true)), RecordLoss(kill, ok));
            && t.Some? && t.value.pc == Loop && t.value.disk.pending.None? && t.value.chain == s.chain
            && t.value.mem.kill == (s.mem.kill || kill)
            && (InDoubt(t.value) <==> s.chain.tx == Alive)
  {
    var read := s.(disk := s.disk.(pending := None), pc := EntLoss);
    assert Step(s, ReadBalance(true)) == Some(read);
  }

  lemma DropAlive(s: State) returns (tr: Trace, t: State)
    requires s.pc == EntSubmit && s.chain.tokens <= s.mem.before
    ensures Leads(s, tr, t) && t == s.(pc := Loop, disk := Disk(None, s.disk.position, s.mem.risk))
  {
    var p, m := ErrThenRead(s);
    var q;
    q, t := Do(m, Begin, m, RecordLoss(false, true));
    Join(s, p, m, q, t);
    tr := Concat(p, q);
  }

  lemma ErrThenRead(s: State) returns (tr: Trace, t: State)
    requires s.pc == EntSubmit && s.chain.tokens <= s.mem.before
    ensures Leads(s, tr, t) && t == s.(pc := EntLoss, disk := s.disk.(pending := None))
  {
    tr, t := Do(s, Begin, s, SubmitErr);
    tr, t := Do(s, tr, t, ReadBalance(true));
  }

  // ---- a pending record dropped at startup

  /** LIVE runs while an entry that nothing on disk remembers can still land. */
  predicate InDoubt(s: State) {
    s.pc == Loop && s.chain.tx == Alive && s.disk.pending.None? && s.disk.position.None? && s.mem.live.None?
  }

  /** The rest of a start that drops the pending record because the lookup gave nothing. */
  function DropAndStart(s: State, sameConfig: bool, ok: bool): Option<State> {
    Bind(Bind(Step(s, LookupNotFound(true)), MatchPosition(sameConfig, ok)), CheckOrphan(true))
  }

  /** Reconciliation takes a failed transaction lookup for "never landed". Exactly what follows:
      LIVE starts if and only if no tokens have arrived yet, and it starts in doubt if and only if,
      in addition, the transaction can still land; with tokens it refuses, but their record is gone. */
  lemma DroppingDecides(s: State, sameConfig: bool, ok: bool)
    requires Inv(s) && s.pc == RecLookup(false)
    ensures DropAndStart(s, sameConfig, ok).Some?
    ensures var t := DropAndStart(s, sameConfig, ok).value;
            && t.chain == s.chain && t.mem.kill == s.mem.kill && t.disk.pending.None? && t.disk.position.None?
            && (t.pc == Loop <==> s.chain.tokens == 0)
            && (t.pc == Refused(OrphanTokens) <==> s.chain.tokens > 0)
            && (InDoubt(t) <==> s.chain.tokens == 0 && s.chain.tx == Alive)
  {
    var dropped := Step(s, LookupNotFound(true)).value;
    assert dropped == s.(pc := Match, disk := s.disk.(pending := None));
    NoPositionNoCount(dropped, sameConfig, ok);
  }

  lemma NoPositionNoCount(s: State, sameConfig: bool, ok: bool)
    requires s.pc == Match && s.disk.position.None? && s.mem.risk.count == 0
    ensures Bind(Step(s, MatchPosition(sameConfig, ok)), CheckOrphan(true)) ==
            Some(s.(pc := if s.chain.tokens > 0 then Refused(OrphanTokens) else Loop))
  {
    assert Step(s, MatchPosition(sameConfig, ok)) == Some(s.(pc := Orphan));
  }

  /** LIVE starts in doubt, against the documentation: a crash right after sending, then a start
      at which neither confirmation nor lookup can be read. New entries are enabled. */
  lemma StartsInDoubt() returns (tr: Trace, s: State)
    ensures Leads(INIT, tr, s) && InDoubt(s) && !s.mem.kill && !s.mem.persistFailed && s.mem.risk.count == 0
  {
    var sent := SentFirst();
    var p := LeadsToSent();
    var q, down := Do(sent, Begin, sent, Crash);
    var r;
    r, s := UnreadableStart(down);
    Join(INIT, p, sent, q, down);
    Join(INIT, Concat(p, q), down, r, s);
    tr := Concat(Concat(p, q), r);
  }

  /** If it has landed by then, the pending record of the bought tokens is dropped. */
  lemma DroppedByReconciliation() returns (tr: Trace, s: State)
    ensures Leads(INIT, tr, s) && s.pc == Refused(OrphanTokens)
    ensures s.chain.tokens > 0 && s.disk.pending.None? && s.disk.position.None?
  {
    var sent := SentFirst();
    var p := LeadsToSent();
    var q, down := Do(sent, Begin, sent, Crash);
    q, down := Do(sent, q, down, Land(5));
    var r;
    r, s := UnreadableStart(down);
    Join(INIT, p, sent, q, down);
    Join(INIT, Concat(p, q), down, r, s);
    tr := Concat(Concat(p, q), r);
  }

  /** A start with a pending record while neither confirmation nor lookup can be read. */
  lemma UnreadableStart(s: State) returns (tr: Trace, t: State)
    requires s.pc == Down && s.disk == Disk(Some(Pending(10, 0)), None, NO_COUNTERS)
    ensures Leads(s, tr, t) && t.chain == s.chain && t.disk == Disk(None, None, NO_COUNTERS) && t.mem == Boot(s.disk)
    ensures t.pc == if s.chain.tokens > 0 then Refused(OrphanTokens) else Loop
  {
    var p, m := Do(s, Begin, s, Start);
    p, m := Do(s, p, m, Load(true));
    p, m := Do(s, p, m, ConfirmResult(false));
    var q;
    q, t := DropAndMatch(m);
    Join(s, p, m, q, t);
    tr := Concat(p, q);
  }

  lemma DropAndMatch(s: State) returns (tr: Trace, t: State)
    requires s.pc == RecLookup(false) && s.disk.position.None? && s.disk.risk == s.mem.risk == NO_COUNTERS
    ensures Leads(s, tr, t) && t.chain == s.chain && t.disk == Disk(None, None, NO_COUNTERS) && t.mem == s.mem
    ensures t.pc == if s.chain.tokens > 0 then Refused(OrphanTokens) else Loop
  {
    tr, t := Begin, s;
    tr, t := Do(s, tr, t, LookupNotFound(true));
    tr, t := Do(s, tr, t, MatchPosition(true, true));
    tr, t := Do(s, tr, t, CheckOrphan(true));
  }

  // ---------------------------------------------------------------- what confirmation contributes

  /** The state of the transaction at read time `now`, in the terms of this module. */
  function TxAt(c: Confirm.Chain, now: nat): Tx {
    if c.landing.Some? && c.landing.value <= now then if c.failed then Dead else Landed
    else if now < c.expiry then Alive
    else Dead
  }

  /** Confirmation came to an end that settles the matter: failed on chain, or expired with status
      reads that can be trusted, either because they show every landing or because the final look
      succeeded and did not find the transaction merely processed. */
  ghost predicate Settled(w: Confirm.World, o: Confirm.Outcome, c: Confirm.Chain) {
    || o.FailedOnChain?
    || (o.Expired? && Confirm.Shows(w, c))
    || (o.Expired? && Confirm.NeverDenies(w, c) && (w.status(o.at).Absent? || w.status(o.at).FailedStatus?))
  }

  /** After such an end the transaction is dead at every later time, so dropping its pending record
      is sound, in the loop and at startup. */
  lemma SettledDropIsSound(w: Confirm.World, timing: Confirm.Timing, horizon: nat, c: Confirm.Chain, now: nat,
      s: State, a: Action)
    requires Confirm.Advances(w, timing, horizon) && Confirm.Faithful(w, c)
    requires Settled(w, Confirm.ConfirmFrom(w, timing, 0, 0, horizon), c)
    requires now >= Confirm.ConfirmFrom(w, timing, 0, 0, horizon).at
    requires Inv(s) && s.chain.tx == TxAt(c, now)
    ensures s.chain.tx == Dead
    ensures a.ReadBalance? || a.LookupNotFound? ==> Sound(s, a)
  {
    Confirm.OutcomeMeaning(w, timing, 0, 0, horizon, c);
  }

  ghost predicate UnknownAndAlive(w: Confirm.World, c: Confirm.Chain) {
    && Confirm.Advances(w, Confirm.DEFAULT_TIMING, 1) && Confirm.Faithful(w, c) && Confirm.Shows(w, c)
    && var o := Confirm.ConfirmFrom(w, Confirm.DEFAULT_TIMING, 0, 0, 1); o.Unknown? && TxAt(c, o.at) == Alive
  }

  ghost predicate ExpiredAndLanded(w: Confirm.World, c: Confirm.Chain, look: Confirm.StatusRead) {
    && Confirm.Advances(w, Confirm.DEFAULT_TIMING, 1) && Confirm.Faithful(w, c) && Confirm.NeverDenies(w, c)
    && var o := Confirm.ConfirmFrom(w, Confirm.DEFAULT_TIMING, 0, 0, 1);
       o.Expired? && w.status(o.at) == look && TxAt(c, o.at) == Landed
  }

  /** The other ends leave it open: after "unknown" it may be alive, and after a final look that
      failed, or that found it merely processed, an "expired" transaction may have landed. */
  lemma OtherEndsLeaveItOpen(look: Confirm.StatusRead)
    requires look.Unread? || look.Processed?
    ensures exists w, c :: UnknownAndAlive(w, c)
    ensures exists w, c :: ExpiredAndLanded(w, c, look)
  {
    var w, c := Confirm.UnknownWhileValid();
    assert UnknownAndAlive(w, c);
    var w', c' := Confirm.BlindFinalLook(look);
    Confirm.OutcomeMeaning(w', Confirm.DEFAULT_TIMING, 0, 0, 1, c');
    assert ExpiredAndLanded(w', c', look);
  }

  // ---------------------------------------------------------------- what an exit sells

  /** The amount recorded for a position: what the balance shows to have arrived, or the guaranteed
      minimum of the swap when the balance cannot be read. */
  function RecordedAmount(after: Option<nat>, before: nat, minOutput: nat): nat {
    match after
    case Some(a) => Max(a - before, 0)
    case None => minOutput
  }

  /** What a sell leaves: it takes at most the recorded amount. */
  function LeftAfterSell(held: nat, recorded: nat): nat {
    held - Min(held, Max(recorded, 1))
  }

  /** The sell takes everything that arrived if and only if the balance could be read at the entry,
      or no more than the guaranteed minimum had arrived. */
  lemma SellsEverything(arrived: nat, before: nat, readable: bool, minOutput: nat)
    ensures var recorded := RecordedAmount(if readable then Some(before + arrived) else None, before, minOutput);
            LeftAfterSell(arrived, recorded) == 0 <==> readable || arrived <= Max(minOutput, 1)
  {
  }

  // ---------------------------------------------------------------- when LIVE starts, for any answers

  /** What a start answers wherever the program asks: a write outcome, or what it read. */
  type Answers = Pc -> Action

  /** A (possibly unfinished) start of a process that is down, with any answers and write outcomes,
      while the environment keeps still. */
  predicate AnyStart(tr: Trace) {
    tr.Begin? ||
    (AnyStart(tr.before) && tr.at.pc != Loop && !IsEnvironment(tr.action) && (tr.action.Start? ==> tr.before.Begin?))
  }

  /** A process that is not running. */
  predicate IsStopped(s: State) {
    s.pc.Down? || s.pc.Refused?
  }

  predicate Follows(tr: Trace, ans: Answers) {
    tr.Begin? || (Follows(tr.before, ans) && tr.action == ans(tr.at.pc))
  }

  datatype End = Live(position: Option<nat>) | Refuse(why: Refusal)

  /** With this position record and open count: another configuration refuses a record; without a
      record the count must be 0 and the wallet must be read and found empty. */
  function MatchEnd(ans: Answers, position: Option<nat>, count: nat, tokens: nat): End {
    match position
    case Some(size) =>
      if ans(Match).MatchPosition? && ans(Match).sameConfig then Live(Some(size)) else Refuse(OtherRefusal)
    case None =>
      if count > 0 then Refuse(CountWithoutRecord)
      else if ans(Orphan) != CheckOrphan(true) then Refuse(OtherRefusal)
      else if tokens > 0 then Refuse(OrphanTokens)
      else Live(None)
  }

  /** After removing the pending record: a removal that fails refuses. */
  function ClearedEnd(ans: Answers, position: Option<nat>, count: nat, tokens: nat): End {
    if ans(RecClear) != ClearPending(true) then Refuse(OtherRefusal) else MatchEnd(ans, position, count, tokens)
  }

  /** A pending record without a position record: a lookup that fails refuses, so does a confirmed
      transaction that cannot be found; one that is neither confirmed nor found is dropped; one that
      is found is booked if its tokens have arrived. */
  function LookupEnd(ans: Answers, confirmed: bool, p: Pending, count: nat, tokens: nat): End {
    match ans(RecLookup(confirmed))
    case LookupNotFound(ok) => if confirmed || !ok then Refuse(OtherRefusal) else MatchEnd(ans, None, count, tokens)
    case LookupFound =>
      if tokens <= p.before then ClearedEnd(ans, None, count, tokens)
      else if ans(RecSave) != SavePosition(true) then Refuse(OtherRefusal)
      else ClearedEnd(ans, Some(p.size), count + 1, tokens)
    case _ => Refuse(OtherRefusal)
  }

  /** Where a start ends, from the files, the wallet and the answers alone. */
  function Decision(disk: Disk, tokens: nat, ans: Answers): End {
    if disk.pending.None? then MatchEnd(ans, disk.position, disk.risk.count, tokens)
    else if disk.position.Some? then
      if ans(RecLoad) != Load(true) then Refuse(OtherRefusal)
      else MatchEnd(ans, disk.position, disk.risk.count, tokens)
    else LookupEnd(ans, ans(RecConfirm) == ConfirmResult(true), disk.pending.value, disk.risk.count, tokens)
  }

  /** What is still to be decided at each point of a start. */
  function RestOf(t: State, ans: Answers): End {
    match t.pc
    case RecLoad => Decision(t.disk, t.chain.tokens, ans)
    case RecConfirm =>
      if t.disk.pending.None? then Refuse(OtherRefusal)
      else LookupEnd(ans, ans(RecConfirm) == ConfirmResult(true), t.disk.pending.value, t.mem.risk.count,
        t.chain.tokens)
    case RecLookup(confirmed) =>
      if t.disk.pending.None? then Refuse(OtherRefusal)
      else LookupEnd(ans, confirmed, t.disk.pending.value, t.mem.risk.count, t.chain.tokens)
    case RecSave =>
      if ans(RecSave) != SavePosition(true) then Refuse(OtherRefusal)
      else ClearedEnd(ans, Some(t.mem.size), t.mem.risk.count + 1, t.chain.tokens)
    case RecTrade => ClearedEnd(ans, t.disk.position, t.mem.risk.count + 1, t.chain.tokens)
    case RecOpen => ClearedEnd(ans, t.disk.position, t.mem.risk.count + 1, t.chain.tokens)
    case RecClear => ClearedEnd(ans, t.disk.position, t.mem.risk.count, t.chain.tokens)
    case Match => MatchEnd(ans, t.disk.position, t.mem.risk.count, t.chain.tokens)
    case Orphan => MatchEnd(ans, None, 0, t.chain.tokens)
    case Refused(why) => Refuse(why)
    case _ => Live(t.mem.live)
  }

  /** What holds at each point of a start, whatever was answered. */
  predicate OnAnyWay(s: State, t: State) {
    && t.chain == s.chain && (t.pc == Loop || t.mem.live.None? || t.pc.Refused?)
    && (t.pc == RecLoad ==> t.disk == s.disk && t.mem.risk == s.disk.risk)
    && (t.pc == RecConfirm || t.pc.RecLookup? ==> t.disk.pending.Some? && t.disk.position.None?)
    && (t.pc == RecSave ==> t.disk.position.None?)
    && (t.pc == Match || t.pc == Orphan || t.pc == Loop ==> t.disk.pending.None?)
    && (t.pc == Orphan ==> t.disk.position.None? && t.mem.risk.count == 0)
    && (t.pc == Loop ==> t.mem.live == t.disk.position)
    && (StartingUp(t.pc) || t.pc == Loop || t.pc.Refused?)
  }

  lemma ReconcileDecides(s: State, t: State, ans: Answers)
    requires OnAnyWay(s, t) && ReconcileStep(t, ans(t.pc)).Some?
    ensures var u := ReconcileStep(t, ans(t.pc)).value;
            OnAnyWay(s, u) && RestOf(u, ans) == RestOf(t, ans) && Rank(u.pc) > Rank(t.pc)
  {
  }

  lemma BookingDecides(s: State, t: State, ans: Answers)
    requires OnAnyWay(s, t) && t.pc != Loop && BookingStep(t, ans(t.pc)).Some?
    ensures var u := BookingStep(t, ans(t.pc)).value;
            OnAnyWay(s, u) && RestOf(u, ans) == RestOf(t, ans) && Rank(u.pc) > Rank(t.pc)
  {
  }

  lemma MatchDecides(s: State, t: State, ans: Answers)
    requires OnAnyWay(s, t) && !ans(t.pc).Start? && StartupStep(t, ans(t.pc)).Some?
    ensures var u := StartupStep(t, ans(t.pc)).value;
            OnAnyWay(s, u) && RestOf(u, ans) == RestOf(t, ans) && Rank(u.pc) > Rank(t.pc)
  {
  }

  lemma AnswerDecides(s: State, t: State, ans: Answers)
    requires OnAnyWay(s, t) && t.pc != Loop && !IsEnvironment(ans(t.pc)) && !ans(t.pc).Start? &&
             Step(t, ans(t.pc)).Some?
    ensures var u := Step(t, ans(t.pc)).value;
            OnAnyWay(s, u) && RestOf(u, ans) == RestOf(t, ans) && Rank(u.pc) > Rank(t.pc)
  {
    var a := ans(t.pc);
    OneOf(t, a);
    assert EntryStep(t, a) == None && ExitStep(t, a) == None && EnvironmentStep(t, a) == None;
    if ReconcileStep(t, a).Some? {
      ReconcileDecides(s, t, ans);
    }
    if BookingStep(t, a).Some? {
      BookingDecides(s, t, ans);
    }
    if StartupStep(t, a).Some? {
      MatchDecides(s, t, ans);
    }
  }

  lemma {:induction false} StartIsDecided(s: State, tr: Trace, t: State, ans: Answers)
    requires IsStopped(s) && AnyStart(tr) && Follows(tr, ans) && Leads(s, tr, t) && !tr.Begin?
    ensures OnAnyWay(s, t) && RestOf(t, ans) == Decision(s.disk, s.chain.tokens, ans)
  {
    if tr.before.Begin? {
      assert t == s.(pc := RecLoad, mem := Boot(s.disk));
    } else {
      StartIsDecided(s, tr.before, tr.at, ans);
      AnswerDecides(s, tr.at, ans);
    }
  }

  /** The startup gate, over every start with any answers and write outcomes: it reaches the loop
      head, managing that position, exactly when the decision says so, and is refused for that reason
      otherwise. */
  lemma StartEndsAsDecided(s: State, tr: Trace, t: State, ans: Answers)
    requires IsStopped(s) && AnyStart(tr) && Follows(tr, ans) && Leads(s, tr, t) && !tr.Begin?
    requires t.pc == Loop || t.pc.Refused?
    ensures match Decision(s.disk, s.chain.tokens, ans)
            case Live(position) => t.pc == Loop && t.mem.live == t.disk.position == position && t.disk.pending.None?
            case Refuse(why) => t.pc == Refused(why)
  {
    StartIsDecided(s, tr, t, ans);
  }

  /** Every start has answers that it follows, so nothing is left out above. */
  lemma {:induction false} EveryStartFollows(s: State, tr: Trace, t: State) returns (ans: Answers)
    requires IsStopped(s) && AnyStart(tr) && Leads(s, tr, t)
    ensures Follows(tr, ans)
  {
    match tr
    case Begin => ans := _ => Start;
    case Then(before, at, a) =>
      var earlier := EveryStartFollows(s, before, at);
      ans := pc => if pc == at.pc then a else earlier(pc);
      if !before.Begin? {
        StaysOnTheWay(s, before, at);
        PointsDiffer(s, before, at, at.pc);
        SameAnswers(before, earlier, ans, at.pc);
      }
  }

  predicate Avoids(tr: Trace, pc: Pc) {
    tr.Begin? || (Avoids(tr.before, pc) && tr.at.pc != pc)
  }

  lemma {:induction false} SameAnswers(tr: Trace, ans: Answers, ans': Answers, pc: Pc)
    requires Follows(tr, ans) && Avoids(tr, pc) && forall q :: q != pc ==> ans'(q) == ans(q)
    ensures Follows(tr, ans')
  {
    if !tr.Begin? {
      SameAnswers(tr.before, ans, ans', pc);
    }
  }

  lemma {:induction false} StaysOnTheWay(s: State, tr: Trace, t: State)
    requires IsStopped(s) && AnyStart(tr) && Leads(s, tr, t) && !tr.Begin?
    ensures OnAnyWay(s, t) && (!tr.before.Begin? ==> OnAnyWay(s, tr.at) && Rank(tr.at.pc) < Rank(t.pc))
  {
    if tr.before.Begin? {
      assert t == s.(pc := RecLoad, mem := Boot(s.disk));
    } else {
      StaysOnTheWay(s, tr.before, tr.at);
      AnswerDecides(s, tr.at, _ => tr.action);
    }
  }

  /** A start is never twice at the same point. */
  lemma {:induction false} PointsDiffer(s: State, tr: Trace, t: State, pc: Pc)
    requires IsStopped(s) && AnyStart(tr) && Leads(s, tr, t) && (tr.Begin? || Rank(t.pc) <= Rank(pc)) && StartingUp(pc)
    ensures Avoids(tr, pc)
  {
    if !tr.Begin? {
      StaysOnTheWay(s, tr, t);
      PointsDiffer(s, tr.before, tr.at, pc);
    }
  }

  /** What it takes to reach the loop head: no pending record is left, and either there is a position
      record, made for this configuration, or there is none, the open count is 0 and the wallet was
      read and found empty. */
  lemma LiveOnlyIf(s: State, tr: Trace, t: State)
    requires IsStopped(s) && AnyStart(tr) && Leads(s, tr, t) && t.pc == Loop
    ensures t.chain == s.chain && t.disk.pending.None? && t.mem.live == t.disk.position
    ensures t.disk.position.Some? ==> tr.action.MatchPosition? && tr.action.sameConfig && t.mem.risk.count > 0
    ensures t.disk.position.None? ==>
              tr.action == CheckOrphan(true) && s.chain.tokens == 0 && t.mem.risk.count == 0 && s.disk.risk.count == 0
    ensures s.disk.position.Some? ==> t.disk.position == s.disk.position
    ensures s.disk.position.None? && t.disk.position.Some? ==>
              s.disk.pending.Some? && s.chain.tokens > s.disk.pending.value.before &&
              t.disk.position == Some(s.disk.pending.value.size)
  {
    LiveRecords(s, tr, t);
    LiveAnswers(s, tr, t);
  }

  lemma LiveRecords(s: State, tr: Trace, t: State)
    requires IsStopped(s) && AnyStart(tr) && Leads(s, tr, t) && t.pc == Loop
    ensures t.disk.pending.None? && t.mem.live == t.disk.position
    ensures t.disk.position.None? ==> s.disk.risk.count == 0
    ensures s.disk.position.Some? ==> t.disk.position == s.disk.position
    ensures s.disk.position.None? && t.disk.position.Some? ==>
              s.disk.pending.Some? && s.chain.tokens > s.disk.pending.value.before &&
              t.disk.position == Some(s.disk.pending.value.size)
  {
    var ans := EveryStartFollows(s, tr, t);
    StartEndsAsDecided(s, tr, t, ans);
    LiveMeans(s.disk, s.chain.tokens, ans);
  }

  lemma LiveAnswers(s: State, tr: Trace, t: State)
    requires IsStopped(s) && AnyStart(tr) && Leads(s, tr, t) && t.pc == Loop
    ensures t.chain == s.chain
    ensures if t.disk.position.Some? then tr.action.MatchPosition? && tr.action.sameConfig && t.mem.risk.count > 0
            else tr.action == CheckOrphan(true) && s.chain.tokens == 0 && t.mem.risk.count == 0
  {
    StaysOnTheWay(s, tr, t);
    LastPoint(s, tr.at, tr.action);
    LastAnswer(s, tr.at, tr.action);
  }

  lemma LiveMeans(disk: Disk, tokens: nat, ans: Answers)
    requires Decision(disk, tokens, ans).Live?
    ensures var position := Decision(disk, tokens, ans).position;
            && (disk.position.Some? ==> position == disk.position)
            && (disk.position.None? && position.Some? ==>
                  disk.pending.Some? && tokens > disk.pending.value.before && position == Some(disk.pending.value.size))
            && (position.None? ==> disk.risk.count == 0 && tokens == 0)
  {
  }

  lemma LastPoint(s: State, at: State, a: Action)
    requires OnAnyWay(s, at) && at.pc != Loop && !IsEnvironment(a) && !a.Start? && Step(at, a).Some?
    requires Step(at, a).value.pc == Loop
    ensures at.pc == Match || at.pc == Orphan
  {
  }

  lemma LastAnswer(s: State, at: State, a: Action)
    requires OnAnyWay(s, at) && !IsEnvironment(a) && Step(at, a).Some? && (at.pc == Match || at.pc == Orphan)
    requires Step(at, a).value.pc == Loop
    ensures var t := Step(at, a).value;
            if t.disk.position.Some? then a.MatchPosition? && a.sameConfig && t.mem.risk.count > 0
            else a == CheckOrphan(true) && s.chain.tokens == 0 && t.mem.risk.count == 0
  {
  }

  /** An answer that startup must not act on. */
  predicate Refusing(at: State, a: Action) {
    || a == Load(false) || a == LookupNotFound(false) || a == LookupFailed
    || (at.pc == RecLookup(true) && a.LookupNotFound?)
    || a == SavePosition(false) || a == ClearPending(false)
    || (a.MatchPosition? && !a.sameConfig) || a == CheckOrphan(false)
  }

  /** Such an answer is the last one of its start: startup refuses at once. */
  lemma RefusingRefuses(s: State, tr: Trace, t: State)
    requires IsStopped(s) && AnyStart(tr) && Leads(s, tr, t) && !tr.Begin? && Refusing(tr.at, tr.action)
    requires tr.action == Load(false) ==> s.disk.pending.Some? && s.disk.position.Some?
    requires tr.action.MatchPosition? ==> t.disk.position.Some?
    ensures t.pc.Refused?
  {
    if !tr.before.Begin? {
      StaysOnTheWay(s, tr, t);
      RefusesNow(s, tr.at, tr.action);
    }
  }

  lemma RefusesNow(s: State, at: State, a: Action)
    requires OnAnyWay(s, at) && at.pc != Loop && Refusing(at, a) && Step(at, a).Some?
    requires a == Load(false) ==> s.disk.pending.Some? && s.disk.position.Some?
    requires a.MatchPosition? ==> Step(at, a).value.disk.position.Some?
    ensures Step(at, a).value.pc.Refused?
  {
  }

  /** No start gets stuck: at every point before the loop head or a refusal, each answer is taken. */
  lemma AnswersAreTaken(s: State, t: State, ok: bool, good: bool)
    requires OnAnyWay(s, t) && t.pc != Loop && !t.pc.Refused?
    ensures match t.pc
            case RecLoad => Step(t, Load(ok)).Some?
            case RecConfirm => Step(t, ConfirmResult(false)).Some?
            case RecLookup(_) => Step(t, LookupNotFound(ok)).Some? && Step(t, LookupFailed).Some?
            case RecSave => Step(t, SavePosition(ok)).Some?
            case RecTrade => Step(t, RecordTrade(ok)).Some?
            case RecOpen => Step(t, RecordOpen(ok)).Some?
            case RecClear => Step(t, ClearPending(ok)).Some?
            case Match => Step(t, MatchPosition(good, ok)).Some?
            case Orphan => Step(t, CheckOrphan(good)).Some?
            case _ => false
  {
  }

  // ---------------------------------------------------------------- what stops new entries

  /** A write of the counters that did not happen. */
  predicate CountersUnwritten(s: State, a: Action) {
    || a == RecordTrade(false) || a == RecordOpen(false) || a == RecordClose(false)
    || (a.RecordLoss? && !a.ok) || (a.ExitDone? && a.loss && !a.ok)
    || (a.MatchPosition? && a.sameConfig && !a.ok && s.disk.position.Some? && s.mem.risk.count == 0)
  }

  /** What closes the gate for good: the kill switch, an unreadable balance after a send that failed,
      a position record that could not be saved, counters that could not be written. */
  predicate StopsEntries(s: State, a: Action) {
    || a.EngageKill? || a.BalanceUnreadable? || (a.RecordLoss? && a.kill)
    || (s.pc == EntSave && a == SavePosition(false)) || CountersUnwritten(s, a)
  }

  /** Whether, since the process was started, something closed the gate. */
  predicate GateClosed(tr: Trace) {
    tr.Then? && !tr.action.Start? && (GateClosed(tr.before) || StopsEntries(tr.at, tr.action))
  }

  lemma ClosesGate(s: State, a: Action)
    requires Step(s, a).Some? && !a.Start? && (s.mem.kill || s.mem.persistFailed || StopsEntries(s, a))
    ensures Step(s, a).value.mem.kill || Step(s, a).value.mem.persistFailed
  {
    OneOf(s, a);
  }

  lemma {:induction false} GateStaysClosed(s: State, tr: Trace, t: State)
    requires Leads(s, tr, t) && GateClosed(tr)
    ensures t.mem.kill || t.mem.persistFailed
  {
    if GateClosed(tr.before) {
      GateStaysClosed(s, tr.before, tr.at);
    }
    ClosesGate(tr.at, tr.action);
  }

  /** The gate stays closed until the next start, so no entry is begun. */
  lemma NoEntryOnceClosed(s: State, tr: Trace, t: State, size: nat, ok: bool)
    requires Leads(s, tr, t) && GateClosed(tr)
    ensures Step(t, BeginEntry(size, ok)) == None
  {
    GateStaysClosed(s, tr, t);
  }

  // ---------------------------------------------------------------- what the records say

  /** The size of the latest entry of a run. */
  function EntrySize(tr: Trace): nat {
    match tr
    case Begin => 0
    case Then(_, _, BeginEntry(size, true)) => size
    case Then(before, _, _) => EntrySize(before)
  }

  /** Every record on disk, the position in memory and the entry being made have this size. */
  predicate OfSize(s: State, size: nat) {
    && (s.disk.pending.Some? ==> s.disk.pending.value.size == size)
    && (s.disk.position.Some? ==> s.disk.position.value == size)
    && (s.mem.live.Some? && s.pc != Down && !s.pc.Refused? ==> s.mem.live.value == size)
    && (Sizing(s.pc) ==> s.mem.size == size)
  }

  predicate Sizing(pc: Pc) {
    pc.RecSave? || pc.RecTrade? || pc.RecOpen? || pc.EntSubmit? || pc.EntRead? || pc.EntSave? || pc.EntTrade? ||
    pc.EntOpen? || pc.EntClear?
  }

  lemma EntryHasSize(s: State, size: nat)
    requires Inv(s) && EntryStep(s, BeginEntry(size, true)).Some?
    ensures OfSize(EntryStep(s, BeginEntry(size, true)).value, size)
  {
  }

  lemma StartKeepsSize(s: State, a: Action, size: nat)
    requires OfSize(s, size) && (ReconcileStep(s, a).Some? || StartupStep(s, a).Some?)
    ensures ReconcileStep(s, a).Some? ==> OfSize(ReconcileStep(s, a).value, size)
    ensures StartupStep(s, a).Some? ==> OfSize(StartupStep(s, a).value, size)
  {
  }

  lemma BookingKeepsSize(s: State, a: Action, size: nat)
    requires OfSize(s, size) && BookingStep(s, a).Some?
    ensures OfSize(BookingStep(s, a).value, size)
  {
  }

  lemma LoopKeepsSize(s: State, a: Action, size: nat)
    requires OfSize(s, size) && (a.BeginEntry? ==> !a.ok)
    ensures EntryStep(s, a).Some? ==> OfSize(EntryStep(s, a).value, size)
    ensures ExitStep(s, a).Some? ==> OfSize(ExitStep(s, a).value, size)
    ensures EnvironmentStep(s, a).Some? ==> OfSize(EnvironmentStep(s, a).value, size)
  {
  }

  lemma OtherKeepsSize(s: State, a: Action, size: nat)
    requires OfSize(s, size) && Step(s, a).Some? && (a.BeginEntry? ==> !a.ok)
    ensures OfSize(Step(s, a).value, size)
  {
    OneOf(s, a);
    if ReconcileStep(s, a).Some? || StartupStep(s, a).Some? {
      StartKeepsSize(s, a, size);
    }
    if BookingStep(s, a).Some? {
      BookingKeepsSize(s, a, size);
    }
    LoopKeepsSize(s, a, size);
  }

  /** Whatever crashes and reconciles, every record always has the size the latest entry was begun
      with. */
  lemma {:induction false} RecordsHaveEntrySize(s: State, tr: Trace, t: State)
    requires s == INIT && Leads(s, tr, t) && GoodRun(tr)
    ensures OfSize(t, EntrySize(tr))
  {
    match tr
    case Begin =>
    case Then(before, at, a) =>
      RecordsHaveEntrySize(s, before, at);
      RunKeepsInv(s, before, at);
      if a.BeginEntry? && a.ok {
        EntryHasSize(at, a.entrySize);
      } else {
        OtherKeepsSize(at, a, EntrySize(before));
      }
  }

  /** No write of the counters failed. */
  predicate CountersWritten(tr: Trace) {
    tr.Begin? || (CountersWritten(tr.before) && !CountersUnwritten(tr.at, tr.action))
  }

  predicate CountsTrade(s: State, t: State) {
    t.mem.risk == t.disk.risk && t.disk.risk.trades - s.disk.risk.trades == t.recorded - s.recorded
  }

  lemma StartCountsTrades(s: State, a: Action)
    requires !CountersUnwritten(s, a) && s.mem.risk == s.disk.risk
    ensures ReconcileStep(s, a).Some? ==> CountsTrade(s, ReconcileStep(s, a).value)
    ensures StartupStep(s, a).Some? ==> CountsTrade(s, StartupStep(s, a).value)
    ensures EnvironmentStep(s, a).Some? ==> CountsTrade(s, EnvironmentStep(s, a).value)
  {
  }

  lemma BookingCountsTrades(s: State, a: Action)
    requires !CountersUnwritten(s, a) && s.mem.risk == s.disk.risk
    ensures BookingStep(s, a).Some? ==> CountsTrade(s, BookingStep(s, a).value)
  {
  }

  lemma LoopCountsTrades(s: State, a: Action)
    requires !CountersUnwritten(s, a) && s.mem.risk == s.disk.risk
    ensures EntryStep(s, a).Some? ==> CountsTrade(s, EntryStep(s, a).value)
    ensures ExitStep(s, a).Some? ==> CountsTrade(s, ExitStep(s, a).value)
  {
  }

  lemma StepCountsTrades(s: State, a: Action)
    requires Step(s, a).Some? && !CountersUnwritten(s, a) && s.mem.risk == s.disk.risk
    ensures CountsTrade(s, Step(s, a).value)
  {
    OneOf(s, a);
    StartCountsTrades(s, a);
    BookingCountsTrades(s, a);
    LoopCountsTrades(s, a);
  }

  /** While no write of the counters fails, memory and file agree, and the trade counter is the number
      of recorded trades, across all crashes. */
  lemma {:induction false} TradesAreRecorded(s: State, tr: Trace, t: State)
    requires s == INIT && Leads(s, tr, t) && CountersWritten(tr)
    ensures t.mem.risk == t.disk.risk && t.disk.risk.trades == t.recorded
  {
    match tr
    case Begin =>
    case Then(before, at, a) =>
      TradesAreRecorded(s, before, at);
      StepCountsTrades(at, a);
  }
}
