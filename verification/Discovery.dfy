/** Bounded memories of the pool discovery supervisor (pool_discovery.rs). */
module Discovery {
  import opened Base

  type Pubkey = nat
  type Signature = nat

  /** Two acceptances of one key are separated by at least `cap` others. */
  ghost predicate Separated<T(!new)>(accepted: seq<T>, cap: nat) {
    forall i, j :: 0 <= i < j < |accepted| && accepted[i] == accepted[j] ==> j - i > cap
  }

  lemma SeparatedSnoc<T(!new)>(accepted: seq<T>, cap: nat, key: T)
    requires Separated(accepted, cap) && key !in Last(accepted, cap)
    ensures Separated(accepted + [key], cap)
  {
    var last, off := Last(accepted, cap), Max(|accepted| - cap, 0);
    assert forall p :: off <= p < |accepted| ==> accepted[p] == last[p - off] && accepted[p] in last;
  }

  /** The last cap + 1 accepted keys are distinct. */
  lemma WindowDistinct<T(!new)>(accepted: seq<T>, cap: nat)
    requires Separated(accepted, cap)
    ensures NoDuplicates(Last(accepted, cap + 1))
  {
  }

  lemma LastSnoc<T(!new)>(s: seq<T>, cap: nat, key: T)
    requires cap >= 1
    ensures Last(s + [key], cap + 1) == Last(s, cap) + [key]
    ensures var full := Last(s, cap) + [key]; Last(s + [key], cap) == (if |full| > cap then full[1..] else full)
  {
  }

  lemma DropOldest<T(!new)>(s: seq<T>)
    requires s != [] && NoDuplicates(s)
    ensures (set x | x in s) - {s[0]} == (set x | x in s[1..]) && NoDuplicates(s[1..])
  {
  }

  /** `BoundedSet`, and with cap 100 000 the `seen` memory of `WatchList::remember`. */
  class BoundedSet {
    const cap: nat
    var keys: set<Pubkey>
    var order: seq<Pubkey>

    /** Every accepted key, in order. */
    ghost var accepted: seq<Pubkey>

    ghost predicate Valid()
      reads this
    {
      && cap >= 1 && order == Last(accepted, cap) && keys == (set k | k in order) && Separated(accepted, cap)
    }

    constructor (cap: nat)
      ensures Valid() && accepted == [] && this.cap == Max(cap, 1)
    {
      this.cap := Max(cap, 1);
      keys, order, accepted := {}, [], [];
    }

    /** `insert`: false and unchanged for one of the last `cap` accepted keys, otherwise the key
        is accepted and the oldest forgotten. */
    method Insert(key: Pubkey) returns (added: bool)
      requires Valid()
      modifies this
      ensures Valid() && added == (key !in Last(old(accepted), cap))
      ensures accepted == if added then old(accepted) + [key] else old(accepted)
    {
      if key in keys {
        return false;
      }
      SeparatedSnoc(accepted, cap, key);
      LastSnoc(accepted, cap, key);
      accepted := accepted + [key];
      WindowDistinct(accepted, cap);
      keys := keys + {key};
      order := order + [key];
      Forget();
      return true;
    }

    /** The eviction loop of `insert`. */
    method Forget()
      requires NoDuplicates(order) && |order| <= cap + 1 && keys == (set k | k in order)
      modifies this`keys, this`order
      ensures order == (if |old(order)| > cap then old(order)[1..] else old(order)) && keys == (set k | k in order)
    {
      while |order| > cap
        invariant NoDuplicates(order) && keys == (set k | k in order)
        invariant order == old(order) || (order == old(order)[1..] && |old(order)| == cap + 1)
        decreases |order|
      {
        DropOldest(order);
        keys := keys - {order[0]};
        order := order[1..];
      }
    }
  }

  const MAX_ATTEMPTS: nat := 5
  const MAX_LEN: nat := 500

  /** `PendingSignatures`: a signature is popped, then put back with `Retry` or settled with `Done`. */
  class PendingSignatures {
    var attempts: map<Signature, nat>
    var order: seq<Signature>

    /** Signatures popped and not yet put back or settled, and the pops of each tracked
        signature since it was last queued by `Push`. */
    ghost var inFlight: set<Signature>
    ghost var pops: map<Signature, nat>

    ghost predicate Valid()
      reads this
    {
      && NoDuplicates(order)
      && (forall s :: s in attempts <==> s in order || s in inFlight)
      && (forall s :: s in order ==> s !in inFlight)
      && pops.Keys == attempts.Keys
      && (forall s :: s in attempts ==>
            attempts[s] < MAX_ATTEMPTS && pops[s] == attempts[s] + (if s in inFlight then 1 else 0))
    }

    constructor ()
      ensures Valid() && order == [] && attempts == map[] && inFlight == {}
    {
      attempts, order, inFlight, pops := map[], [], {}, map[];
    }

    /** `push`; returns whether the oldest queued signature was lost. */
    method Push(sig: Signature) returns (evicted: bool)
      requires Valid()
      modifies this
      ensures Valid() && inFlight == old(inFlight)
      ensures sig in old(attempts) ==> !evicted && order == old(order) && attempts == old(attempts)
      ensures sig !in old(attempts) ==>
                evicted == (|old(order)| >= MAX_LEN) &&
                order == (if evicted then old(order)[1..] else old(order)) + [sig] &&
                attempts[sig] == 0 && pops[sig] == 0
      ensures forall s :: s in attempts && s != sig ==>
              s in old(attempts) && attempts[s] == old(attempts)[s] && pops[s] == old(pops)[s]
    {
      if sig in attempts {
        return false;
      }
      evicted := |order| >= MAX_LEN;
      if evicted {
        EvictOldest();
      }
      assert sig !in order;
      attempts := attempts[sig := 0];
      pops := pops[sig := 0];
      order := order + [sig];
    }

    /** The eviction of `push`. */
    method EvictOldest()
      requires Valid() && order != []
      modifies this`order, this`attempts, this`pops
      ensures Valid() && order == old(order)[1..]
      ensures attempts == old(attempts) - {old(order)[0]} && pops == old(pops) - {old(order)[0]}
    {
      var oldest := order[0];
      assert oldest in order;
      order := order[1..];
      attempts := attempts - {oldest};
      pops := pops - {oldest};
      assert forall s :: s in old(order) <==> s == oldest || s in order;
    }

    /** `pop`: the fifth pop of a stay is the last one there can be. */
    method Pop() returns (sig: Option<Signature>)
      requires Valid()
      modifies this
      ensures Valid() && attempts == old(attempts)
      ensures old(order) == [] ==> sig == None && order == [] && inFlight == old(inFlight) && pops == old(pops)
      ensures old(order) != [] ==>
                sig == Some(old(order)[0]) && order == old(order)[1..] && inFlight == old(inFlight) + {sig.value} &&
                pops == old(pops)[sig.value := old(pops)[sig.value] + 1] && pops[sig.value] <= MAX_ATTEMPTS
    {
      if order == [] {
        return None;
      }
      var s := order[0];
      assert s in order;
      order := order[1..];
      inFlight := inFlight + {s};
      pops := pops[s := pops[s] + 1];
      assert forall x :: x in old(order) <==> x == s || x in order;
      return Some(s);
    }

    /** `retry` of a popped signature: false, and forgotten, exactly after its fifth pop. */
    method Retry(sig: Signature) returns (kept: bool)
      requires Valid() && sig in inFlight
      modifies this
      ensures Valid() && inFlight == old(inFlight) - {sig}
      ensures sig in old(pops) && kept == (old(pops)[sig] < MAX_ATTEMPTS)
      ensures kept ==>
              order == old(order) + [sig] && pops == old(pops) &&
              attempts == old(attempts)[sig := old(attempts)[sig] + 1]
      ensures !kept ==> order == old(order) && attempts == old(attempts) - {sig} && pops == old(pops) - {sig}
    {
      var n := (if sig in attempts then attempts[sig] else 0) + 1;
      inFlight := inFlight - {sig};
      if n >= MAX_ATTEMPTS {
        attempts := attempts - {sig};
        pops := pops - {sig};
        return false;
      }
      attempts := attempts[sig := n];
      order := order + [sig];
      return true;
    }

    /** `done` with a popped signature. */
    method Done(sig: Signature)
      requires Valid() && sig in inFlight
      modifies this
      ensures Valid() && inFlight == old(inFlight) - {sig} && order == old(order) && attempts == old(attempts) - {sig}
    {
      attempts := attempts - {sig};
      pops := pops - {sig};
      inFlight := inFlight - {sig};
    }
  }

  const DAY_MS: nat := 86_400_000

  /** `DailyCap`, with every recorded start in a ghost log. */
  class DailyCap {
    var day: int
    var count: nat
    ghost var starts: seq<nat>

    /** With a clock that never runs backwards, the counter is the number of starts on `day`. */
    ghost predicate Valid()
      reads this
    {
      && (forall i :: 0 <= i < |starts| ==> starts[i] / DAY_MS <= day)
      && count == StartsOn(starts, day)
    }

    constructor ()
      ensures Valid() && starts == []
    {
      day, count, starts := 0, 0, [];
    }

    method Roll(nowMs: nat)
      requires Valid() && nowMs / DAY_MS >= day
      modifies this`day, this`count
      ensures Valid() && day == nowMs / DAY_MS
    {
      var today := nowMs / DAY_MS;
      if today != day {
        day := today;
        count := 0;
        NoLaterStarts(starts, today);
      }
    }

    /** `reached`: the number of starts on the day of `nowMs` is at or above the cap. */
    method Reached(nowMs: nat, max: nat) returns (r: bool)
      requires Valid() && nowMs / DAY_MS >= day
      modifies this`day, this`count
      ensures Valid() && day == nowMs / DAY_MS && r == (StartsOn(starts, nowMs / DAY_MS) >= max)
    {
      Roll(nowMs);
      return count >= max;
    }

    method Record(nowMs: nat)
      requires Valid() && nowMs / DAY_MS >= day
      modifies this
      ensures Valid() && day == nowMs / DAY_MS && starts == old(starts) + [nowMs]
    {
      Roll(nowMs);
      count := count + 1;
      starts := starts + [nowMs];
      assert starts[..|starts| - 1] == old(starts);
    }

    /** A start gated by `reached` keeps every UTC day at or below the cap. */
    method GatedStart(nowMs: nat, max: nat) returns (started: bool)
      requires Valid() && nowMs / DAY_MS >= day
      requires forall d :: StartsOn(starts, d) <= max
      modifies this
      ensures Valid() && forall d :: StartsOn(starts, d) <= max
      ensures started == (old(StartsOn(starts, nowMs / DAY_MS)) < max)
      ensures starts == if started then old(starts) + [nowMs] else old(starts)
    {
      var full := Reached(nowMs, max);
      if !full {
        Record(nowMs);
        assert starts[..|starts| - 1] == old(starts);
      }
      return !full;
    }
  }

  ghost function StartsOn(starts: seq<nat>, d: int): nat {
    if starts == [] then 0
    else StartsOn(starts[..|starts| - 1], d) + (if starts[|starts| - 1] / DAY_MS == d then 1 else 0)
  }

  lemma {:induction false} NoLaterStarts(starts: seq<nat>, d: int)
    requires forall i :: 0 <= i < |starts| ==> starts[i] / DAY_MS < d
    ensures StartsOn(starts, d) == 0
  {
    if starts != [] {
      NoLaterStarts(starts[..|starts| - 1], d);
    }
  }
}
