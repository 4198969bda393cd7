/** Submission and confirmation of a transaction against an unreliable RPC (retry.rs). */
module Confirm {
  import opened Base

  /** One `getSignatureStatuses` read: an RPC error, a successful "no such transaction", a
      transaction that is only processed so far, one confirmed or finalized, or one that failed
      on chain. `landed` makes None of the first three. */
  datatype StatusRead = Unread | Absent | Processed | ConfirmedAt(slot: nat) | FailedStatus

  datatype ValidityRead = Valid | Invalid | NoAnswer

  /** What every read would return. Reads happen one after the other: the n-th read of a run
      (of any kind, clock included) sees entry n. */
  datatype World = World(status: nat -> StatusRead, validity: nat -> ValidityRead, elapsed: nat -> nat)

  datatype Timing = Timing(deadline: nat, hardDeadline: nat, validityEvery: nat)

  const DEFAULT_TIMING: Timing := Timing(90_000, 180_000, 10)

  /** `at` is the read that decided. */
  datatype Outcome = Confirmed(slot: nat, at: nat) | FailedOnChain(at: nat) | Expired(at: nat) | Unknown(at: nat)

  /** From read `horizon` on, the clock is past both deadlines. */
  ghost predicate Advances(w: World, timing: Timing, horizon: nat) {
    forall t :: t >= horizon ==> w.elapsed(t) > timing.deadline && w.elapsed(t) > timing.hardDeadline
  }

  /** The reads of one poll, starting at read `t`: an outcome, or None to sleep and poll again.
      Read t is the status, t+1 the clock, t+2 the validity, t+3 the final look, t+4 the clock. */
  function Poll(w: World, timing: Timing, t: nat, polls: nat): Option<Outcome> {
    match w.status(t)
    case ConfirmedAt(slot) => Some(Confirmed(slot, t))
    case FailedStatus => Some(FailedOnChain(t))
    case _ =>
      var pastDeadline := w.elapsed(t + 1) > timing.deadline;
      if pastDeadline || polls % Max(timing.validityEvery, 1) == 0 then
        if w.validity(t + 2) == Invalid then
          match w.status(t + 3)
          case ConfirmedAt(slot) => Some(Confirmed(slot, t + 3))
          case _ => Some(Expired(t + 3))
        else if pastDeadline && w.elapsed(t + 4) > timing.hardDeadline then Some(Unknown(t + 4))
        else None
      else None
  }

  function ConfirmFrom(w: World, timing: Timing, t: nat, polls: nat, ghost horizon: nat): Outcome
    requires Advances(w, timing, horizon)
    decreases Max(horizon - t, 0)
  {
    match Poll(w, timing, t, polls + 1)
    case Some(o) => o
    case None => ConfirmFrom(w, timing, t + 5, polls + 1, horizon)
  }

  /** `confirm_transaction_with`: the loop ends because the clock advances. */
  method ConfirmTransaction(w: World, timing: Timing, ghost horizon: nat) returns (o: Outcome)
    requires Advances(w, timing, horizon)
    ensures o == ConfirmFrom(w, timing, 0, 0, horizon)
  {
    var t, polls := 0, 0;
    while true
      invariant ConfirmFrom(w, timing, t, polls, horizon) == ConfirmFrom(w, timing, 0, 0, horizon)
      decreases Max(horizon - t, 0)
    {
      var status := w.status(t);
      if status.ConfirmedAt? {
        return Confirmed(status.slot, t);
      } else if status.FailedStatus? {
        return FailedOnChain(t);
      }
      polls := polls + 1;
      var pastDeadline := w.elapsed(t + 1) > timing.deadline;
      if pastDeadline || polls % Max(timing.validityEvery, 1) == 0 {
        var valid := w.validity(t + 2);
        if valid == Invalid {
          var last := w.status(t + 3);
          if last.ConfirmedAt? {
            return Confirmed(last.slot, t + 3);
          }
          return Expired(t + 3);
        }
        if pastDeadline && w.elapsed(t + 4) > timing.hardDeadline {
          return Unknown(t + 4);
        }
      }
      t := t + 5;
    }
  }

  // ---------------------------------------------------------------- which poll ends the wait, and how

  /** A status that settles the matter. */
  predicate Decisive(status: StatusRead) {
    status.ConfirmedAt? || status.FailedStatus?
  }

  /** Poll k (from 0) finds the blockhash expired, which it looks up past the deadline and in every
      n-th poll. */
  predicate FindsExpired(w: World, timing: Timing, k: nat) {
    (w.elapsed(5 * k + 1) > timing.deadline || (k + 1) % Max(timing.validityEvery, 1) == 0) &&
    w.validity(5 * k + 2) == Invalid
  }

  predicate PastBothDeadlines(w: World, timing: Timing, k: nat) {
    w.elapsed(5 * k + 1) > timing.deadline && w.elapsed(5 * k + 4) > timing.hardDeadline
  }

  /** The three reasons for poll k to end the wait. */
  predicate Ends(w: World, timing: Timing, k: nat) {
    Decisive(w.status(5 * k)) || FindsExpired(w, timing, k) || PastBothDeadlines(w, timing, k)
  }

  /** The first poll with a reason ends the wait. A confirmed transaction is reported as confirmed, a
      failed one as failed, whatever the clock and the blockhash say; an expired blockhash comes
      before the deadlines, after one more look. */
  lemma {:induction false} FirstReasonEnds(w: World, timing: Timing, from: nat, horizon: nat) returns (k: nat)
    requires Advances(w, timing, horizon)
    ensures from <= k && Ends(w, timing, k) && forall j :: from <= j < k ==> !Ends(w, timing, j)
    ensures ConfirmFrom(w, timing, 5 * from, from, horizon) ==
            match w.status(5 * k)
            case ConfirmedAt(slot) => Confirmed(slot, 5 * k)
            case FailedStatus => FailedOnChain(5 * k)
            case _ =>
              if !FindsExpired(w, timing, k) then Unknown(5 * k + 4)
              else if w.status(5 * k + 3).ConfirmedAt? then Confirmed(w.status(5 * k + 3).slot, 5 * k + 3)
              else Expired(5 * k + 3)
    decreases Max(horizon - 5 * from, 0)
  {
    if Ends(w, timing, from) {
      k := from;
    } else {
      assert 5 * from + 5 == 5 * (from + 1);
      k := FirstReasonEnds(w, timing, from + 1, horizon);
    }
  }

  /** The first decisive status is the answer, unless an earlier poll ended the wait. */
  lemma DecisiveIsReported(w: World, timing: Timing, horizon: nat, k: nat)
    requires Advances(w, timing, horizon) && Decisive(w.status(5 * k)) && forall j :: 0 <= j < k ==> !Ends(w, timing, j)
    ensures ConfirmFrom(w, timing, 0, 0, horizon) ==
            if w.status(5 * k).ConfirmedAt? then Confirmed(w.status(5 * k).slot, 5 * k) else FailedOnChain(5 * k)
  {
    var first := FirstReasonEnds(w, timing, 0, horizon);
    assert Ends(w, timing, k);
    assert first == k;
  }

  /** An "expired" or "unknown" means that no poll up to it has read a decisive status, and an
      "expired" that the last look did not find the transaction confirmed. */
  lemma NothingOverlooked(w: World, timing: Timing, horizon: nat, k: nat)
    requires Advances(w, timing, horizon)
    ensures var o := ConfirmFrom(w, timing, 0, 0, horizon);
            && ((o.Expired? || o.Unknown?) && 5 * k <= o.at ==> !Decisive(w.status(5 * k)))
            && (o.Expired? ==> o.at > 0 && w.validity(o.at - 1) == Invalid && !w.status(o.at).ConfirmedAt?)
  {
    var last := FirstReasonEnds(w, timing, 0, horizon);
    assert k < last ==> !Ends(w, timing, k);
  }

  // ---------------------------------------------------------------- what the outcome says about the chain

  /** What really happens to the transaction, in read time: when it lands (if ever), whether it
      fails there, and when its blockhash stops being valid for good. */
  datatype Chain = Chain(landing: Option<nat>, failed: bool, expiry: nat)

  /** It changes balances at some time, now or later. */
  predicate TakesEffect(c: Chain) {
    c.landing.Some? && !c.failed
  }

  /** A transaction lands only while its blockhash is valid, and no read lies. */
  ghost predicate Faithful(w: World, c: Chain) {
    && (c.landing.Some? ==> c.landing.value < c.expiry)
    && (forall t :: w.validity(t) == Invalid ==> c.expiry <= t)
    && (forall t: nat :: w.validity(t) == Valid ==> t < c.expiry)
    && (forall t :: w.status(t).ConfirmedAt? ==> c.landing.Some? && c.landing.value <= t && !c.failed)
    && (forall t :: w.status(t).FailedStatus? ==> c.landing.Some? && c.landing.value <= t && c.failed)
  }

  /** Status reads show every landing that has happened, confirmed or failed. */
  ghost predicate Shows(w: World, c: Chain) {
    forall t :: c.landing.Some? && c.landing.value <= t ==> w.status(t).ConfirmedAt? || w.status(t).FailedStatus?
  }

  /** Less: reads may fail and may lag behind at processed commitment, but a successful read
      never says "no such transaction" after the landing. */
  ghost predicate NeverDenies(w: World, c: Chain) {
    forall t :: c.landing.Some? && c.landing.value <= t ==> w.status(t) != Absent
  }

  /** The status read `at` does not show a landing that has already happened. */
  ghost predicate Missed(w: World, c: Chain, at: nat) {
    TakesEffect(c) && c.landing.value <= at && !w.status(at).ConfirmedAt? && !w.status(at).FailedStatus?
  }

  lemma {:induction false} OutcomeMeaning(w: World, timing: Timing, t: nat, polls: nat, horizon: nat, c: Chain)
    requires Advances(w, timing, horizon) && Faithful(w, c)
    ensures match ConfirmFrom(w, timing, t, polls, horizon)
            case Confirmed(_, _) => TakesEffect(c)
            case FailedOnChain(at) => c.landing.Some? && c.landing.value <= at && c.failed
            case Expired(at) => c.expiry <= at && (TakesEffect(c) ==> Missed(w, c, at))
            case Unknown(at) => w.elapsed(at) > timing.hardDeadline
    decreases Max(horizon - t, 0)
  {
    if Poll(w, timing, t, polls + 1).None? {
      OutcomeMeaning(w, timing, t + 5, polls + 1, horizon, c);
    }
  }

  /** Ok means landed; failed means without effect; "expired" means that no continuation ever
      sees the transaction take effect, provided the status reads show what has landed;
      "unknown" is only reported past the hard deadline. */
  lemma OutcomeIsTrue(w: World, timing: Timing, horizon: nat, c: Chain)
    requires Advances(w, timing, horizon) && Faithful(w, c) && Shows(w, c)
    ensures var o := ConfirmFrom(w, timing, 0, 0, horizon);
            && (o.Confirmed? ==> TakesEffect(c))
            && (o.FailedOnChain? || o.Expired? ==> !TakesEffect(c))
            && (o.Unknown? ==> w.elapsed(o.at) > timing.hardDeadline)
  {
    OutcomeMeaning(w, timing, 0, 0, horizon, c);
  }

  /** A landing is never overlooked by a poll that reads the status after it: "expired" and "unknown"
      are only decided by a poll that began before the landing. */
  lemma LandingIsReported(w: World, timing: Timing, horizon: nat, c: Chain, k: nat)
    requires Advances(w, timing, horizon) && Faithful(w, c) && Shows(w, c)
    requires c.landing.Some? && c.landing.value <= 5 * k
    ensures var o := ConfirmFrom(w, timing, 0, 0, horizon);
            && ((o.Expired? || o.Unknown?) ==> o.at < 5 * k)
            && (o.at >= 5 * k ==> if c.failed then o.FailedOnChain? else o.Confirmed?)
  {
    NothingOverlooked(w, timing, horizon, k);
    OutcomeMeaning(w, timing, 0, 0, horizon, c);
  }

  /** Whatever happened, an "expired" verdict whose final look was a `look` is right. */
  ghost predicate ExpiredIsRightAfter(look: StatusRead) {
    forall w: World, timing: Timing, horizon: nat, c: Chain ::
      Advances(w, timing, horizon) && Faithful(w, c) && NeverDenies(w, c) &&
      ConfirmFrom(w, timing, 0, 0, horizon).Expired? && w.status(ConfirmFrom(w, timing, 0, 0, horizon).at) == look ==>
        !TakesEffect(c)
  }

  /** The caller can tell from the final look: an "expired" verdict is always right if and only if
      that read succeeded and did not find the transaction merely processed. */
  lemma ExpiredIsRight(look: StatusRead)
    ensures ExpiredIsRightAfter(look) <==> look != Unread && look != Processed
  {
    if look == Unread || look == Processed {
      var w, c := BlindFinalLook(look);
      assert ConfirmFrom(w, DEFAULT_TIMING, 0, 0, 1).Expired?;
    } else {
      forall w: World, timing: Timing, horizon: nat, c: Chain |
        Advances(w, timing, horizon) && Faithful(w, c) && NeverDenies(w, c) &&
        ConfirmFrom(w, timing, 0, 0, horizon).Expired? && w.status(ConfirmFrom(w, timing, 0, 0, horizon).at) == look
        ensures !TakesEffect(c)
      {
        OutcomeMeaning(w, timing, 0, 0, horizon, c);
      }
    }
  }

  /** A landed transaction whose final look fails, or still finds it at processed commitment, is
      reported as never landed. */
  lemma BlindFinalLook(look: StatusRead) returns (w: World, c: Chain)
    requires look == Unread || look == Processed
    ensures Advances(w, DEFAULT_TIMING, 1) && Faithful(w, c) && NeverDenies(w, c) && TakesEffect(c)
    ensures var o := ConfirmFrom(w, DEFAULT_TIMING, 0, 0, 1); o.Expired? && w.status(o.at) == look
  {
    w := World(t => look, t => if t >= 2 then Invalid else Valid, t => if t == 0 then 0 else 200_000);
    c := Chain(Some(1), false, 2);
  }

  /** "Unknown" can be reported while the blockhash is still valid, against the documentation, and
      the transaction takes effect afterwards. */
  lemma UnknownWhileValid() returns (w: World, c: Chain)
    ensures Advances(w, DEFAULT_TIMING, 1) && Faithful(w, c) && Shows(w, c)
    ensures var o := ConfirmFrom(w, DEFAULT_TIMING, 0, 0, 1);
            o.Unknown? && o.at < c.expiry && TakesEffect(c) && o.at < c.landing.value
  {
    w := World(t => if t < 50 then Absent else ConfirmedAt(1), t => if t < 100 then Valid else NoAnswer,
               t => if t == 0 then 0 else 200_000);
    c := Chain(Some(50), false, 100);
  }

  // ---------------------------------------------------------------- when the outcome stays unknown

  /** The validity of the blockhash can always be read. */
  ghost predicate Readable(w: World, c: Chain) {
    forall t: nat :: w.validity(t) == (if t < c.expiry then Valid else Invalid)
  }

  /** Poll `k` runs past both deadlines while the blockhash is still valid. */
  predicate OvertakenAt(w: World, timing: Timing, c: Chain, k: nat) {
    && w.elapsed(5 * k + 1) > timing.deadline && w.elapsed(5 * k + 4) > timing.hardDeadline
    && 5 * k + 2 < c.expiry
  }

  /** Every "unknown" was decided by such a poll, on a blockhash that was valid when it was read. */
  lemma {:induction false} UnknownMeansStillValid(w: World, timing: Timing, k: nat, horizon: nat, c: Chain)
    returns (j: nat)
    requires Advances(w, timing, horizon) && Readable(w, c) && ConfirmFrom(w, timing, 5 * k, k, horizon).Unknown?
    ensures OvertakenAt(w, timing, c, j) && ConfirmFrom(w, timing, 5 * k, k, horizon) == Unknown(5 * j + 4)
    decreases Max(horizon - 5 * k, 0)
  {
    if Poll(w, timing, 5 * k, k + 1).Some? {
      j := k;
    } else {
      assert 5 * k + 5 == 5 * (k + 1);
      j := UnknownMeansStillValid(w, timing, k + 1, horizon, c);
    }
  }

  lemma {:induction false} SilenceIsUnknown(w: World, timing: Timing, k: nat, j: nat, horizon: nat, c: Chain)
    requires Advances(w, timing, horizon) && Readable(w, c) && (forall t :: w.status(t) == Absent)
    requires k <= j && OvertakenAt(w, timing, c, j)
    ensures ConfirmFrom(w, timing, 5 * k, k, horizon).Unknown?
    decreases j - k
  {
    if Poll(w, timing, 5 * k, k + 1).None? {
      assert k < j;
      assert 5 * k + 5 == 5 * (k + 1);
      SilenceIsUnknown(w, timing, k + 1, j, horizon, c);
    }
  }

  /** The promise "never unknown while the blockhash is valid", exactly: with a readable validity,
      some sequence of status reads ends in "unknown" if and only if some poll finds the clock past
      both deadlines before the blockhash has expired; without one, no status reads can. */
  lemma UnknownExactlyWhen(w: World, timing: Timing, horizon: nat, c: Chain)
    requires Advances(w, timing, horizon) && Readable(w, c)
    ensures (exists status :: ConfirmFrom(w.(status := status), timing, 0, 0, horizon).Unknown?) <==>
            exists k: nat :: OvertakenAt(w, timing, c, k)
  {
    if status :| ConfirmFrom(w.(status := status), timing, 0, 0, horizon).Unknown? {
      var k := UnknownMeansStillValid(w.(status := status), timing, 0, horizon, c);
      assert OvertakenAt(w, timing, c, k);
    }
    if k: nat :| OvertakenAt(w, timing, c, k) {
      var silent := w.(status := _ => Absent);
      SilenceIsUnknown(silent, timing, 0, k, horizon, c);
      assert ConfirmFrom(w.(status := silent.status), timing, 0, 0, horizon).Unknown?;
    }
  }

  // ---------------------------------------------------------------- sending

  datatype SendOutcome = Settled(o: Outcome) | SendFailed

  const MAX_RETRIES: nat := 3

  /** `send_with_retry`: the first accepted send is confirmed, whatever the confirmation says;
      three refused sends give up without asking the chain. */
  method SendWithRetry(accepted: nat -> bool, w: World, timing: Timing, ghost horizon: nat)
    returns (r: SendOutcome, attempt: nat)
    requires Advances(w, timing, horizon)
    ensures attempt <= MAX_RETRIES && forall i :: 0 <= i < attempt ==> !accepted(i)
    ensures r == SendFailed <==> attempt == MAX_RETRIES
    ensures r != SendFailed ==> accepted(attempt) && r == Settled(ConfirmFrom(w, timing, 0, 0, horizon))
  {
    attempt := 0;
    while true
      invariant attempt < MAX_RETRIES && forall i :: 0 <= i < attempt ==> !accepted(i)
      decreases MAX_RETRIES - attempt
    {
      if accepted(attempt) {
        var o := ConfirmTransaction(w, timing, horizon);
        return Settled(o), attempt;
      }
      attempt := attempt + 1;
      if attempt >= MAX_RETRIES {
        return SendFailed, attempt;
      }
    }
  }
}
