/** The sliding latency window (latency.rs). */
module Latency {
  import opened Base
  import opened SlotRing

  const WINDOW: nat := 1024

  function LatencyOf(e: Event): u64 {
    Max(e.ingestTs - e.publishTs, 0)
  }

  function Sum(s: seq<u64>): nat {
    if s == [] then 0 else Sum(s[..|s| - 1]) + s[|s| - 1]
  }

  lemma {:induction false} SumBound(s: seq<u64>)
    ensures Sum(s) <= |s| * U64_MAX
  {
    if s != [] {
      SumBound(s[..|s| - 1]);
    }
  }

  lemma {:induction false} SumHead(s: seq<u64>)
    requires s != []
    ensures Sum(s) == s[0] + Sum(s[1..])
  {
    if |s| > 1 {
      SumHead(s[..|s| - 1]);
      assert s[..|s| - 1][1..] == s[1..][..|s| - 2];
    }
  }

  lemma SumAtLeastHead(s: seq<u64>)
    requires s != []
    ensures Sum(s) >= s[0]
  {
    SumHead(s);
  }

  /** Sliding the window: the oldest value leaves once the window is full. */
  lemma SumSlide(h: seq<u64>, x: u64)
    ensures Sum(Last(h + [x], WINDOW)) ==
            Sum(Last(h, WINDOW)) + x - (if |h| >= WINDOW then h[|h| - WINDOW] else 0)
  {
    var w := Last(h, WINDOW);
    assert (w + [x])[..|w|] == w;
    if |h| < WINDOW {
      assert Last(h + [x], WINDOW) == w + [x];
    } else {
      SumHead(w + [x]);
      assert Last(h + [x], WINDOW) == (w + [x])[1..];
    }
  }

  /** The buffer holds the last min(n, 1024) observations, each at its index modulo 1024. */
  ghost predicate Windowed(buffer: seq<u64>, h: seq<u64>) {
    && |buffer| == WINDOW
    && forall i :: 0 <= i < |h| && |h| - WINDOW <= i ==> buffer[i % WINDOW] == h[i]
  }

  lemma WindowSlide(buffer: seq<u64>, h: seq<u64>, x: u64)
    requires Windowed(buffer, h)
    ensures Windowed(buffer[|h| % WINDOW := x], h + [x])
    ensures |h| >= WINDOW ==> buffer[|h| % WINDOW] == h[|h| - WINDOW]
  {
    if |h| >= WINDOW {
      assert (|h| - WINDOW) % WINDOW == |h| % WINDOW;
    }
  }

  ghost function CountAbove(s: seq<u64>, threshold: u64): nat {
    if s == [] then 0 else CountAbove(s[..|s| - 1], threshold) + (if s[|s| - 1] > threshold then 1 else 0)
  }

  ghost predicate IsMax(m: u64, s: seq<u64>) {
    (forall x :: x in s ==> x <= m) && (m in s || (s == [] && m == 0))
  }

  ghost predicate IsMin(m: u64, s: seq<u64>) {
    (forall x :: x in s ==> m <= x) && (m in s || (s == [] && m == U64_MAX))
  }

  lemma ExtremesSnoc(h: seq<u64>, x: u64, min: u64, max: u64)
    requires IsMax(max, h) && IsMin(min, h)
    ensures IsMax(Max(max, x), h + [x]) && IsMin(Min(min, x), h + [x])
  {
    assert (h + [x])[|h|] == x;
    assert forall y :: y in h + [x] <==> y in h || y == x;
  }

  lemma CountAboveSnoc(h: seq<u64>, x: u64, threshold: u64)
    ensures CountAbove(h + [x], threshold) == CountAbove(h, threshold) + (if x > threshold then 1 else 0)
  {
    assert (h + [x])[..|h|] == h;
  }

  datatype Snapshot = Snapshot(minNs: u64, maxNs: u64, avgNs: u64, totalEvents: nat, staleCount: nat)

  class LatencyMonitor {
    const buffer: array<u64>
    const threshold: u64
    var count: nat
    var index: nat
    var total: nat
    var stale: nat
    var min: u64
    var max: u64
    var sum: u128

    /** Every latency observed. */
    ghost var history: seq<u64>

    ghost predicate Valid()
      reads this, buffer
    {
      && buffer.Length == WINDOW
      && total == |history| && count == Min(|history|, WINDOW) && index == |history| % WINDOW
      && Windowed(buffer[..], history)
      && sum == Sum(Last(history, WINDOW))
      && stale == CountAbove(history, threshold)
      && IsMax(max, history) && IsMin(min, history)
    }

    constructor (threshold: u64)
      ensures Valid() && fresh(buffer) && history == [] && this.threshold == threshold
    {
      buffer := new u64[WINDOW](_ => 0);
      this.threshold := threshold;
      count, index, total, stale, min, max, sum := 0, 0, 0, 0, U64_MAX, 0, 0;
      history := [];
    }

    method Observe(e: Event)
      requires Valid()
      modifies this, buffer
      ensures Valid() && |history| == |old(history)| + 1 && history[..|old(history)|] == old(history)
      ensures var delay := history[|old(history)|];
              if e.publishTs <= e.ingestTs then e.publishTs + delay == e.ingestTs else delay == 0
      ensures history == old(history) + [LatencyOf(e)]
    {
      var latency := LatencyOf(e);
      ghost var h := history;
      CountAboveSnoc(h, latency, threshold);
      total := total + 1;
      if latency > threshold {
        stale := stale + 1;
      }
      SlideWindow(latency);
      TrackExtremes(latency);
      history := h + [latency];
    }

    /** The last part of `observe`. */
    method TrackExtremes(latency: u64)
      requires IsMax(max, history) && IsMin(min, history)
      modifies this`min, this`max
      ensures IsMax(max, history + [latency]) && IsMin(min, history + [latency])
    {
      ExtremesSnoc(history, latency, min, max);
      if latency < min {
        min := latency;
      }
      if latency > max {
        max := latency;
      }
    }

    /** The part of `observe` that replaces the oldest value and adjusts the running sum. */
    method SlideWindow(latency: u64)
      requires buffer.Length == WINDOW && Windowed(buffer[..], history)
      requires count == Min(|history|, WINDOW) && index == |history| % WINDOW && sum == Sum(Last(history, WINDOW))
      modifies this`count, this`index, this`sum, buffer
      ensures Windowed(buffer[..], history + [latency])
      ensures count == Min(|history| + 1, WINDOW) && index == (|history| + 1) % WINDOW
      ensures sum == Sum(Last(history + [latency], WINDOW))
    {
      WindowSlide(buffer[..], history, latency);
      SumSlide(history, latency);
      SumBound(Last(history + [latency], WINDOW));
      if count < WINDOW {
        count := count + 1;
      } else {
        SumAtLeastHead(Last(history, WINDOW));
        sum := Max(sum - buffer[index], 0);
      }
      ghost var before := buffer[..];
      buffer[index] := latency;
      assert buffer[..] == before[index := latency];
      NextIndex(|history|);
      index := (index + 1) % WINDOW;
      sum := sum + latency;
    }

    /** The reported average is the average of exactly the last min(n, 1024) observations: the
        saturating subtraction never saturates and the u64 cast never truncates. The minimum
        reads as 0 when nothing below u64::MAX was seen. */
    method Read() returns (s: Snapshot)
      requires Valid()
      ensures var w := Last(history, WINDOW);
              s.avgNs == (if w == [] then 0 else Sum(w) / |w|)
      ensures s.totalEvents == |history| && s.staleCount == CountAbove(history, threshold)
      ensures IsMax(s.maxNs, history)
      ensures (IsMin(s.minNs, history) && s.minNs < U64_MAX) ||
              (s.minNs == 0 && forall x :: x in history ==> x == U64_MAX)
    {
      SumBound(Last(history, WINDOW));
      var avg := Average(sum, count);
      return Snapshot(if min == U64_MAX then 0 else min, max, avg, total, stale);
    }
  }

  /** The `as u64` of the average never truncates. */
  function Average(sum: nat, count: nat): (a: u64)
    requires sum <= count * U64_MAX
    ensures a == if count > 0 then sum / count else 0
  {
    if count == 0 then 0
    else
      var q := sum / count;
      AverageFits(sum, count, q);
      q
  }

  lemma AverageFits(sum: nat, count: nat, q: nat)
    requires count > 0 && sum <= count * U64_MAX && q == sum / count
    ensures q <= U64_MAX
  {
    assert sum == q * count + sum % count;
    if q > U64_MAX {
      MulLe(U64_MAX + 1, q, count);
    }
  }

  lemma NextIndex(n: nat)
    ensures (n % WINDOW + 1) % WINDOW == (n + 1) % WINDOW
  {
  }
}
