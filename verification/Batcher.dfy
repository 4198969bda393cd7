/** Adaptive batching of account fetches (rpc_util.rs). */
module Batcher {
  import opened Base

  const MAX_MULTIPLE_ACCOUNTS: nat := 100

  datatype FetchError = TooLarge | OtherError(code: int)

  /** Any provider: its answer may depend on the keys and on how many requests came before. */
  type Fetcher<T> = (seq<nat>, nat) -> Result<seq<Option<T>>, FetchError>

  datatype BatchError = Refused(e: FetchError) | WrongCount(got: nat, expected: nat)

  /** One answered request: its number, the keys asked for and the entries returned. */
  datatype Answer<T> = Answer(n: nat, keys: seq<nat>, entries: seq<Option<T>>)

  /** The fetcher's own, complete answer to a request of a legal size. */
  ghost predicate Genuine<T>(fetch: Fetcher<T>, a: Answer<T>) {
    0 < |a.keys| == |a.entries| <= MAX_MULTIPLE_ACCOUNTS && fetch(a.keys, a.n) == Ok(a.entries)
  }

  function Clamp(x: nat): nat {
    Max(1, Min(x, MAX_MULTIPLE_ACCOUNTS))
  }

  ghost function AllKeys<T>(log: seq<Answer<T>>): seq<nat> {
    if log == [] then [] else AllKeys(log[..|log| - 1]) + log[|log| - 1].keys
  }

  ghost function AllEntries<T>(log: seq<Answer<T>>): seq<Option<T>> {
    if log == [] then [] else AllEntries(log[..|log| - 1]) + log[|log| - 1].entries
  }

  lemma LogSnoc<T>(log: seq<Answer<T>>, a: Answer<T>)
    ensures AllKeys(log + [a]) == AllKeys(log) + a.keys && AllEntries(log + [a]) == AllEntries(log) + a.entries
  {
    assert (log + [a])[..|log|] == log;
  }

  /** `log` holds genuine answers from the first `requests` requests, for exactly `keys`, in order. */
  ghost predicate Served<T>(fetch: Fetcher<T>, log: seq<Answer<T>>, keys: seq<nat>, out: seq<Option<T>>,
      requests: nat) {
    AllKeys(log) == keys && AllEntries(log) == out && |out| == |keys| && AllGenuine(fetch, log, requests)
  }

  ghost predicate AllGenuine<T>(fetch: Fetcher<T>, log: seq<Answer<T>>, requests: nat) {
    log == [] ||
    (AllGenuine(fetch, log[..|log| - 1], requests) && Genuine(fetch, log[|log| - 1]) && log[|log| - 1].n < requests)
  }

  lemma {:induction false} GenuineAt<T>(fetch: Fetcher<T>, log: seq<Answer<T>>, requests: nat)
    requires AllGenuine(fetch, log, requests)
    ensures forall k :: 0 <= k < |log| ==> Genuine(fetch, log[k]) && log[k].n < requests
    ensures AllGenuine(fetch, log, requests + 1)
  {
    if log != [] {
      var before := log[..|log| - 1];
      GenuineAt(fetch, before, requests);
      forall k | 0 <= k < |log|
        ensures Genuine(fetch, log[k]) && log[k].n < requests
      {
        assert k < |log| - 1 ==> log[k] == before[k];
      }
    }
  }

  lemma ServedNext<T>(fetch: Fetcher<T>, log: seq<Answer<T>>, keys: seq<nat>, i: nat, out: seq<Option<T>>, n: nat,
      a: Answer<T>)
    requires i + |a.keys| <= |keys| && keys[..i] + a.keys == keys[..i + |a.keys|]
    requires Served(fetch, log, keys[..i], out, n) && Genuine(fetch, a) && a.n == n
    ensures Served(fetch, log + [a], keys[..i + |a.keys|], out + a.entries, n + 1)
  {
    LogSnoc(log, a);
    GenuineAt(fetch, log, n);
    assert (log + [a])[..|log|] == log;
  }

  lemma ServedSoFar<T>(fetch: Fetcher<T>, log: seq<Answer<T>>, keys: seq<nat>, i: nat, out: seq<Option<T>>, n: nat)
    requires i <= |keys| && Served(fetch, log, keys[..i], out, n)
    ensures Served(fetch, log, keys[..i], out, n + 1) && |AllKeys(log)| == i
  {
    GenuineAt(fetch, log, n);
  }

  /** A refused batch of more than one key halves the learned size, for good. */
  lemma Halved(size: nat, learned: nat)
    requires 1 < size <= Clamp(learned)
    ensures size / 2 < learned && Halvings(Clamp(size / 2)) < Halvings(Clamp(learned))
  {
    HalvingsMono(size, Clamp(learned));
    assert Clamp(size / 2) == size / 2;
  }

  /** How often a size can be halved before it is 1. */
  ghost function Halvings(size: nat): nat {
    if size <= 1 then 0 else 1 + Halvings(size / 2)
  }

  lemma {:induction false} HalvingsMono(a: nat, b: nat)
    requires a <= b
    ensures Halvings(a) <= Halvings(b)
    decreases b
  {
    if a > 1 {
      HalvingsMono(a / 2, b / 2);
    }
  }

  lemma SixHalvings(size: nat)
    requires size <= MAX_MULTIPLE_ACCOUNTS
    ensures Halvings(size) <= 6
  {
    HalvingsMono(size, 100);
    assert Halvings(100) == 1 + Halvings(50);
    assert Halvings(25) == 1 + Halvings(12);
    assert Halvings(6) == 2;
  }

  /** The learned batch size, shared by all calls. */
  class Learned {
    var size: nat
    constructor ()
      ensures size == MAX_MULTIPLE_ACCOUNTS
    {
      size := MAX_MULTIPLE_ACCOUNTS;
    }
  }

  /** The error is what this fetcher answered to the next batch, after the `done` keys served so far. */
  ghost predicate IsAnswer<T>(fetch: Fetcher<T>, keys: seq<nat>, done: nat, learned: nat, n: nat, error: BatchError) {
    done < |keys| &&
    var chunk := Batch(keys, done, learned);
    match error
    case Refused(e) => fetch(chunk, n) == Err(e) && (e.TooLarge? ==> |chunk| == 1)
    case WrongCount(got, expected) => fetch(chunk, n).Ok? && got == |fetch(chunk, n).value| != |chunk| == expected
  }

  /** The next batch, after the first `done` keys. */
  function Batch(keys: seq<nat>, done: nat, learned: nat): (r: seq<nat>)
    requires done < |keys|
    ensures 0 < |r| <= MAX_MULTIPLE_ACCOUNTS && |r| == Min(Clamp(learned), |keys| - done)
    ensures done + |r| <= |keys| && keys[..done] + r == keys[..done + |r|]
  {
    keys[done..done + Min(Clamp(learned), |keys| - done)]
  }

  /** How one request ended. */
  datatype Reply<T> = Entries(entries: seq<Option<T>>) | Halve | GiveUp(error: BatchError)

  /** One request for the next batch. */
  method Request<T>(keys: seq<nat>, i: nat, learned: nat, fetch: Fetcher<T>, n: nat) returns (reply: Reply<T>)
    requires i < |keys|
    ensures match reply
            case Entries(entries) => Genuine(fetch, Answer(n, Batch(keys, i, learned), entries))
            case Halve => |Batch(keys, i, learned)| > 1 && fetch(Batch(keys, i, learned), n) == Err(TooLarge)
            case GiveUp(error) => IsAnswer(fetch, keys, i, learned, n, error)
  {
    var chunk := Batch(keys, i, learned);
    var answer := fetch(chunk, n);
    match answer
    case Ok(entries) =>
      if |entries| != |chunk| {
        return GiveUp(WrongCount(|entries|, |chunk|));
      }
      return Entries(entries);
    case Err(e) =>
      if e.TooLarge? && |chunk| > 1 {
        return Halve;
      }
      return GiveUp(Refused(e));
  }

  /** Every batch but the last has the full size. */
  ghost predicate FullBatches<T>(log: seq<Answer<T>>, size: nat) {
    forall k :: 0 <= k < |log| - 1 ==> |log[k].keys| == size
  }

  ghost predicate LastIsFull<T>(log: seq<Answer<T>>, size: nat) {
    log != [] ==> |log[|log| - 1].keys| == size
  }

  lemma FullNext<T>(log: seq<Answer<T>>, a: Answer<T>, size: nat)
    requires FullBatches(log, size) && LastIsFull(log, size)
    ensures FullBatches(log + [a], size)
  {
  }

  /** `fetch_in_batches`, for any fetcher and any learned size. An Ok result is the in-order
      concatenation of the fetcher's own answers, one entry per key; the learned size never
      grows, and at most six requests of a call are refused and retried. */
  method FetchInBatches<T>(keys: seq<nat>, learned: Learned, fetch: Fetcher<T>)
    returns (r: Result<seq<Option<T>>, BatchError>, requests: nat, refusals: nat, ghost log: seq<Answer<T>>)
    modifies learned
    ensures r.Ok? ==> |r.value| == |keys| && AllKeys(log) == keys && AllEntries(log) == r.value
    ensures forall i :: 0 <= i < |log| ==> Genuine(fetch, log[i]) && log[i].n < requests
    ensures learned.size <= old(learned.size)
    ensures refusals <= 6 && requests <= |log| + refusals + (if r.Ok? then 0 else 1)
    ensures r.Err? ==> requests > 0 && IsAnswer(fetch, keys, |AllKeys(log)|, learned.size, requests - 1, r.error)
    ensures refusals == 0 ==> learned.size == old(learned.size) && FullBatches(log, Clamp(old(learned.size)))
  {
    var out: seq<Option<T>> := [];
    var i := 0;
    requests, refusals, log := 0, 0, [];
    ghost var budget := Halvings(Clamp(learned.size));
    SixHalvings(Clamp(learned.size));
    while i < |keys|
      invariant 0 <= i <= |keys| && Served(fetch, log, keys[..i], out, requests)
      invariant learned.size <= old(learned.size)
      invariant refusals == 0 ==>
                  learned.size == old(learned.size) && FullBatches(log, Clamp(learned.size)) &&
                  (i < |keys| ==> LastIsFull(log, Clamp(learned.size)))
      invariant refusals + Halvings(Clamp(learned.size)) <= budget && requests == |log| + refusals
      decreases |keys| - i, learned.size
    {
      var size := |Batch(keys, i, learned.size)|;
      var reply := Request(keys, i, learned.size, fetch, requests);
      ServedSoFar(fetch, log, keys, i, out, requests);
      requests := requests + 1;
      match reply
      case Entries(entries) =>
        ghost var a := Answer(requests - 1, Batch(keys, i, learned.size), entries);
        ServedNext(fetch, log, keys, i, out, requests - 1, a);
        if refusals == 0 {
          FullNext(log, a, Clamp(learned.size));
        }
        log := log + [a];
        out := out + entries;
        i := i + size;
      case Halve =>
        Halved(size, learned.size);
        learned.size := size / 2;
        refusals := refusals + 1;
      case GiveUp(error) =>
        GenuineAt(fetch, log, requests);
        return Err(error), requests, refusals, log;
    }
    assert keys[..|keys|] == keys;
    GenuineAt(fetch, log, requests);
    return Ok(out), requests, refusals, log;
  }
}
