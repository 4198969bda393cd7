/** The market data pipeline: source -> dedup -> ring -> latency -> consumer (pipeline.rs). */
module Pipeline {
  import opened Base
  import opened WideMath
  import opened SlotRing
  import opened RingBuffer
  import opened Latency
  import opened Dedup

  datatype SourcePoll = Idle | Polled(event: Event) | Closed

  /** A source as a script of polls; when it is used up the source reports Closed. */
  class Source {
    var script: seq<SourcePoll>

    constructor (script: seq<SourcePoll>)
      ensures this.script == script
    {
      this.script := script;
    }

    method Poll() returns (p: SourcePoll)
      modifies this
      ensures old(script) == [] ==> p == Closed && script == []
      ensures old(script) != [] ==> p == old(script)[0] && script == old(script)[1..]
    {
      if script == [] {
        return Closed;
      }
      p, script := script[0], script[1..];
    }
  }

  /** The events a consumer of the source will see: everything before the first Closed. */
  function Events(script: seq<SourcePoll>): seq<Event> {
    if script == [] || script[0].Closed? then []
    else (if script[0].Polled? then [script[0].event] else []) + Events(script[1..])
  }

  function Latencies(es: seq<Event>): (r: seq<u64>)
    ensures |r| == |es|
  {
    if es == [] then [] else Latencies(es[..|es| - 1]) + [LatencyOf(es[|es| - 1])]
  }

  ghost predicate SlotsIncrease(es: seq<Event>) {
    forall i, j :: 0 <= i < j < |es| ==> es[i].slot < es[j].slot
  }

  function Empty(capacity: nat, next: nat): Ring {
    Ring(seq(capacity, _ => None), next)
  }

  // ---------------------------------------------------------------- one event through an empty ring

  lemma Congruent(next: nat, s: nat, c: nat) returns (q: nat)
    requires c > 0 && next <= s
    ensures next <= q < next + c && q <= s && q % c == s % c
  {
    var k, t := (s - next) / c, (s - next) % c;
    q := next + t;
    assert s == q + k * c;
    assert k * c >= 0 by { MulLe(0, k, c); }
    ModShift(q, k, c);
  }

  lemma ModShift(q: nat, k: nat, c: nat)
    requires c > 0
    ensures (q + k * c) % c == q % c
  {
    DivMod(q, c);
    assert (q / c + k) * c == q / c * c + k * c;
    DivModUnique(q + k * c, c, q / c + k, q % c);
  }

  /** An event at or ahead of `next` passes an empty ring at its own watermark, however far
      ahead it is, and leaves the ring empty behind it. */
  lemma PassThrough(r: Ring, e: Event)
    requires |r.cells| >= 2 && r == Empty(|r.cells|, r.next) && r.next <= e.slot
    ensures PopSpec(PushSpec(r, e), e.slot) == (Some(e), Empty(|r.cells|, e.slot + 1))
    ensures PopSpec(Empty(|r.cells|, e.slot + 1), e.slot) == (None, Empty(|r.cells|, e.slot + 1))
  {
    var c := |r.cells|;
    var r1 := PushSpec(r, e);
    var q := Congruent(r.next, e.slot, c);
    assert r1.Placed() && r1.NoStale();
    PopFindsFirst(r1, e.slot);
    var p := First(r1.cells, r1.next, c);
    assert CellAt(r1.cells, q) == Some(e);
    assert p <= q;
    assert CellAt(r1.cells, p) == Some(e);
    assert r1.cells[p % c := None] == Empty(c, 0).cells;
    assert Empty(c, e.slot + 1).Placed();
  }

  /** A pop takes an event out of the ring. */
  lemma PopShrinks(r: Ring, w: nat)
    requires r.Placed()
    ensures PopSpec(r, w).1.Placed()
    ensures PopSpec(r, w).0.Some? ==> Count(PopSpec(r, w).1.cells) < Count(r.cells)
  {
    ScanBasics(r, w, |r.cells|);
    var (o, r') := PopSpec(r, w);
    if o.Some? {
      CountFewer(r.cells, r'.cells, o.value.slot % |r.cells|);
    }
  }

  lemma {:induction false} CountAtMost(a: Cells, b: Cells)
    requires |a| == |b| && forall i :: 0 <= i < |a| && b[i].Some? ==> a[i].Some?
    ensures Count(b) <= Count(a)
  {
    if a != [] {
      CountAtMost(a[..|a| - 1], b[..|a| - 1]);
    }
  }

  lemma {:induction false} CountFewer(a: Cells, b: Cells, k: nat)
    requires |a| == |b| && forall i :: 0 <= i < |a| && b[i].Some? ==> a[i].Some?
    requires k < |a| && a[k].Some? && b[k].None?
    ensures Count(b) < Count(a)
  {
    var last := |a| - 1;
    if k == last {
      CountAtMost(a[..last], b[..last]);
    } else {
      CountFewer(a[..last], b[..last], k);
    }
  }

  /** Everything `r` has ready at watermark `w`, popped in order until nothing comes, and the
      ring that is left. */
  ghost function Ready(r: Ring, w: nat): (result: (seq<Event>, Ring))
    requires r.Placed()
    ensures result.1.Placed()
    decreases Count(r.cells)
  {
    PopShrinks(r, w);
    var (o, r1) := PopSpec(r, w);
    if o.None? then ([], r1)
    else
      var (rest, last) := Ready(r1, w);
      ([o.value] + rest, last)
  }

  ghost predicate EarliestFirst(es: seq<Event>) {
    forall i, j :: 0 <= i < j < |es| ==> es[i].slot < es[j].slot
  }

  /** What is released at watermark `w` from the buffered events `m`: exactly those up to `w`,
      earliest first; exactly the later ones stay. */
  ghost predicate UpTo(m: map<int, Event>, w: nat, ready: seq<Event>, m': map<int, Event>) {
    && EarliestFirst(ready)
    && (forall i :: 0 <= i < |ready| ==> ready[i].slot <= w && Holds(m, ready[i]))
    && (forall s :: s in m && s <= w ==> m[s] in ready)
    && (forall s :: s in m' <==> s in m && s > w)
    && (forall s :: s in m' ==> m'[s] == m[s])
  }

  ghost predicate Holds(m: map<int, Event>, e: Event) {
    e.slot as int in m && m[e.slot as int] == e
  }

  lemma {:induction false} ReadyIsUpTo(r: Ring, w: nat)
    requires r.Placed() && r.InWindow()
    ensures var (ready, r') := Ready(r, w); r'.InWindow() && UpTo(r.Contents(), w, ready, r'.Contents())
    decreases Count(r.cells)
  {
    PopShrinks(r, w);
    PopRemovesLeast(r, w);
    var (o, r1) := PopSpec(r, w);
    if o.Some? {
      ReadyIsUpTo(r1, w);
      LeastThenUpTo(r.Contents(), w, o.value, Ready(r1, w).0, Ready(r1, w).1.Contents());
    }
  }

  lemma LeastThenUpTo(m: map<int, Event>, w: nat, e: Event, rest: seq<Event>, m': map<int, Event>)
    requires IsLeast(m, e.slot) && e.slot <= w && Holds(m, e) && UpTo(m - {e.slot as int}, w, rest, m')
    ensures UpTo(m, w, [e] + rest, m')
  {
    var ready := [e] + rest;
    forall j | 0 <= j < |rest|
      ensures e.slot < rest[j].slot && Holds(m, rest[j])
    {
      assert Holds(m - {e.slot as int}, rest[j]);
    }
    forall s | s in m && s <= w
      ensures m[s] in ready
    {
      if s != e.slot {
        assert s in m - {e.slot as int};
      } else {
        assert ready[0] == e;
      }
    }
  }

  /** One fresh event on a ring in the window: inside the window it is released itself, last, after
      every buffered event of an earlier slot, and later ones stay; behind the window nothing is
      released. */
  lemma FeedsUpToItself(accepted: seq<Event>, r: Ring, e: Event)
    requires r.Placed() && r.InWindow() && Fresh(accepted, e)
    ensures PushSpec(r, e).Placed()
    ensures r.next <= e.slot < r.next + |r.cells| ==>
              var (ready, accepted', r') := FeedOne(accepted, r, e);
              && r'.InWindow() && UpTo(r.Contents()[e.slot as int := e], e.slot, ready, r'.Contents())
              && accepted' == accepted + [e]
              && ready != [] && ready[|ready| - 1] == e
    ensures e.slot < r.next ==> FeedOne(accepted, r, e) == ([], accepted + [e], PushSpec(r, e))
  {
    PushStaysPlaced(r, e);
    if r.next <= e.slot < r.next + |r.cells| {
      PushIsMapUpdate(r, e);
      ReadyIsUpTo(PushSpec(r, e), e.slot);
      var (ready, r') := Ready(PushSpec(r, e), e.slot);
      LastOfReady(PushSpec(r, e).Contents(), e, ready, r'.Contents());
    } else if e.slot < r.next {
      assert PopSpec(PushSpec(r, e), e.slot) == (None, PushSpec(r, e));
      NoneReady(PushSpec(r, e), e.slot);
    }
  }

  lemma LastOfReady(m: map<int, Event>, e: Event, ready: seq<Event>, m': map<int, Event>)
    requires UpTo(m, e.slot, ready, m') && Holds(m, e)
    ensures ready != [] && ready[|ready| - 1] == e
  {
    assert e in ready;
    var i :| 0 <= i < |ready| && ready[i] == e;
    assert ready[|ready| - 1].slot <= e.slot;
    assert i == |ready| - 1;
  }

  /** What the pipeline does with one event: a fresh one is pushed and everything ready at its slot
      comes out. */
  ghost function FeedOne(accepted: seq<Event>, r: Ring, e: Event): (result: (seq<Event>, seq<Event>, Ring))
    requires r.Placed()
    ensures result.2.Placed()
  {
    if Fresh(accepted, e) then
      PushStaysPlaced(r, e);
      var (ready, r') := Ready(PushSpec(r, e), e.slot);
      (ready, accepted + [e], r')
    else ([], accepted, r)
  }

  lemma FeedOneCases(accepted: seq<Event>, r: Ring, e: Event, isNew: bool)
    requires r.Placed() && isNew == Fresh(accepted, e)
    ensures PushSpec(r, e).Placed()
    ensures FeedOne(accepted, r, e) ==
            if isNew then (Ready(PushSpec(r, e), e.slot).0, accepted + [e], Ready(PushSpec(r, e), e.slot).1)
            else ([], accepted, r)
  {
    PushStaysPlaced(r, e);
  }

  /** What the whole pipeline releases for the events `es`, the events it then has accepted and the
      ring it leaves. */
  ghost function Feed(accepted: seq<Event>, r: Ring, es: seq<Event>): (seq<Event>, seq<Event>, Ring)
    requires r.Placed()
    decreases |es|
  {
    if es == [] then ([], accepted, r)
    else
      var (ready, accepted1, r1) := FeedOne(accepted, r, es[0]);
      var (rest, accepted', r') := Feed(accepted1, r1, es[1..]);
      (ready + rest, accepted', r')
  }

  lemma PushStaysPlaced(r: Ring, e: Event)
    requires r.Placed()
    ensures PushSpec(r, e).Placed()
  {
  }

  lemma LatenciesSnoc(out: seq<Event>, e: Event)
    ensures Latencies(out + [e]) == Latencies(out) + [LatencyOf(e)]
  {
    assert (out + [e])[..|out|] == out;
  }

  class MarketDataPipeline {
    const dedup: Deduplicator
    const ring: SlotRingBuffer
    const latency: LatencyMonitor
    var totalPolled: nat
    var consumed: nat

    /** Every event polled, and every event handed to the consumer, in order. */
    ghost var seen: seq<Event>
    ghost var out: seq<Event>

    /** With the ring's own conservation law: every polled event was filtered, handed out, is
        still buffered or is counted as lost, and exactly the handed-out events were observed. */
    ghost predicate Valid()
      reads this, dedup, ring, ring.slots, latency, latency.buffer
    {
      && ring.slots as object != latency.buffer
      && dedup.Valid() && ring.Valid() && latency.Valid()
      && totalPolled == |seen| && consumed == ring.released == |out|
      && dedup.filtered + ring.pushed == |seen|
      && latency.history == Latencies(out)
    }

    constructor (ringSlots: nat, staleThreshold: u64)
      requires ringSlots <= 0x8000_0000_0000_0000
      ensures Valid() && fresh(dedup) && fresh(ring) && fresh(ring.slots) && fresh(latency) && fresh(latency.buffer)
      ensures seen == [] && out == [] && dedup.accepted == [] && ring.Model() == Empty(ring.capacity, 0)
    {
      dedup := new Deduplicator();
      ring := new SlotRingBuffer(ringSlots);
      latency := new LatencyMonitor(staleThreshold);
      totalPolled, consumed, seen, out := 0, 0, [], [];
    }

    /** Hand an event that has left the ring to the latency monitor and the consumer. */
    method Consume(e: Event)
      requires ring.slots as object != latency.buffer && latency.Valid() && latency.history == Latencies(out)
      modifies this`consumed, this`out, latency, latency.buffer
      ensures latency.Valid() && latency.history == Latencies(out)
      ensures consumed == old(consumed) + 1 && out == old(out) + [e]
    {
      LatenciesSnoc(out, e);
      latency.Observe(e);
      consumed := consumed + 1;
      out := out + [e];
    }

    /** One `pop_ready` whose event, if any, is consumed. */
    method ReleaseOne(watermark: u64) returns (r: Option<Event>)
      requires Valid() && watermark < U64_MAX
      modifies this`consumed, this`out, ring`nextExpected, ring`released, ring`discarded, ring.slots, latency,
        latency.buffer
      ensures Valid() && (r, ring.Model()) == PopSpec(old(ring.Model()), watermark)
      ensures out == old(out) + (if r.Some? then [r.value] else [])
      ensures r.Some? ==> Count(ring.slots[..]) < old(Count(ring.slots[..]))
    {
      r := ring.PopReady(watermark);
      if r.Some? {
        Consume(r.value);
      }
    }

    /** The inner loop of `run_to_completion`: everything up to the watermark. */
    method ReleaseReady(watermark: u64) returns (ready: seq<Event>)
      requires Valid() && watermark < U64_MAX
      modifies this`consumed, this`out, ring`nextExpected, ring`released, ring`discarded, ring.slots, latency,
        latency.buffer
      ensures Valid() && out == old(out) + ready
      ensures (ready, ring.Model()) == Ready(old(ring.Model()), watermark)
    {
      ready := [];
      ghost var all := Ready(ring.Model(), watermark);
      Nothing(all.0);
      while true
        invariant Valid() && out == old(out) + ready
        invariant all.0 == ready + Ready(ring.Model(), watermark).0 && all.1 == Ready(ring.Model(), watermark).1
        decreases Count(ring.slots[..])
      {
        ghost var rest := Ready(ring.Model(), watermark).0;
        var r := ReleaseOne(watermark);
        if r.None? {
          Nothing(ready);
          return;
        }
        Assoc(ready, [r.value], rest[1..]);
        Assoc(old(out), ready, [r.value]);
        assert rest == [r.value] + rest[1..];
        ready := ready + [r.value];
      }
    }

    /** Count an event, and put it into the ring unless it is a duplicate. */
    method Offer(e: Event) returns (isNew: bool)
      requires Valid() && e.slot + ring.capacity <= U64_MAX
      modifies this`totalPolled, this`seen, dedup, ring`pushed, ring`overwritten, ring`rejected, ring.slots
      ensures Valid() && seen == old(seen) + [e] && PushSpec(old(ring.Model()), e).Placed() &&
              isNew == Fresh(old(dedup.accepted), e)
      ensures dedup.accepted == (if isNew then old(dedup.accepted) + [e] else old(dedup.accepted))
      ensures ring.Model() == (if isNew then PushSpec(old(ring.Model()), e) else old(ring.Model()))
    {
      totalPolled, seen := totalPolled + 1, seen + [e];
      isNew := dedup.IsNew(e);
      assert ring.Valid() && latency.Valid();
      PushStaysPlaced(ring.Model(), e);
      if isNew {
        ring.Push(e);
        assert dedup.Valid() && latency.Valid();
      }
    }

    /** The poll-loop body of `run_to_completion` for one event. */
    method Process(e: Event) returns (ready: seq<Event>)
      requires Valid() && e.slot + ring.capacity <= U64_MAX
      modifies this, dedup, ring, ring.slots, latency, latency.buffer
      ensures Valid() && seen == old(seen) + [e] && out == old(out) + ready
      ensures (ready, dedup.accepted, ring.Model()) == old(FeedOne(dedup.accepted, ring.Model(), e))
    {
      ghost var accepted, model := dedup.accepted, ring.Model();
      ready := [];
      var isNew := Offer(e);
      FeedOneCases(accepted, model, e, isNew);
      if isNew {
        ready := ReleaseReady(e.slot);
      } else {
        Nothing(out);
      }
    }

    method ConsumeAll(events: seq<Event>)
      requires ring.slots as object != latency.buffer && latency.Valid() && latency.history == Latencies(out)
      modifies this`consumed, this`out, latency, latency.buffer
      ensures latency.Valid() && latency.history == Latencies(out)
      ensures consumed == old(consumed) + |events| && out == old(out) + events
    {
      for i := 0 to |events|
        invariant latency.Valid() && latency.history == Latencies(out)
        invariant consumed == old(consumed) + i && out == old(out) + events[..i]
      {
        Consume(events[i]);
        Snoc(old(out), events, i);
      }
      assert events[..|events|] == events;
    }

    /** The tail of `run_to_completion`: drain the ring in slot order. */
    method Flush() returns (rest: seq<Event>)
      requires Valid()
      modifies this`consumed, this`out, ring`released, ring.slots, latency, latency.buffer
      ensures Valid() && ring.Model() == Empty(ring.capacity, old(ring.nextExpected)) && out == old(out) + rest
      ensures rest == SortBySlot(Buffered(old(ring.slots[..])))
      ensures SlotSorted(rest) && multiset(rest) == multiset(Buffered(old(ring.slots[..])))
    {
      ghost var sorted := SortBySlot(Buffered(ring.slots[..]));
      rest := ring.Drain();
      assert rest == sorted;
      ConsumeAll(rest);
    }

    /** One poll of the source: Idle leaves everything as it is, an event is processed. */
    method PollOnce(source: Source) returns (closed: bool, ready: seq<Event>)
      requires Valid() && RoomFor(Events(source.script), ring.capacity)
      modifies this, dedup, ring, ring.slots, latency, latency.buffer, source
      ensures Valid() && out == old(out) + ready
      ensures closed ==> Events(old(source.script)) == [] && seen == old(seen) && ready == [] &&
                         dedup.accepted == old(dedup.accepted) && ring.Model() == old(ring.Model())
      ensures !closed ==>
                && |source.script| < |old(source.script)| && RoomFor(Events(source.script), ring.capacity)
                && seen + Events(source.script) == old(seen) + Events(old(source.script))
                && Continues(old(Feed(dedup.accepted, ring.Model(), Events(source.script))), ready,
                             Feed(dedup.accepted, ring.Model(), Events(source.script)))
    {
      ghost var script, accepted, model := source.script, dedup.accepted, ring.Model();
      var poll := source.Poll();
      assert ring.Model() == model && dedup.accepted == accepted;
      AfterPoll(script);
      closed, ready := poll.Closed?, [];
      if poll.Polled? {
        FeedStep(accepted, model, Events(script));
        Assoc(seen, [poll.event], Events(script[1..]));
        ready := Process(poll.event);
      } else {
        Nothing(out);
        Nothing(Feed(accepted, model, Events(script)).0);
      }
    }

    /** The poll loop of `run_to_completion`, for every source: it releases what the specification
        says, whatever order the events come in. */
    method PollAll(source: Source) returns (result: seq<Event>)
      requires Valid() && RoomFor(Events(source.script), ring.capacity)
      modifies this, dedup, ring, ring.slots, latency, latency.buffer, source
      ensures Valid() && seen == old(seen) + Events(old(source.script)) && out == old(out) + result
      ensures (result, dedup.accepted, ring.Model()) ==
              old(Feed(dedup.accepted, ring.Model(), Events(source.script)))
    {
      ghost var feed, all := Feed(dedup.accepted, ring.Model(), Events(source.script)), Events(source.script);
      result := [];
      Nothing(out);
      Nothing(feed.0);
      while true
        invariant Valid() && RoomFor(Events(source.script), ring.capacity)
        invariant seen + Events(source.script) == old(seen) + all && out == old(out) + result
        invariant Continues(feed, result, Feed(dedup.accepted, ring.Model(), Events(source.script)))
        decreases |source.script|
      {
        ghost var rest := Feed(dedup.accepted, ring.Model(), Events(source.script));
        ghost var before := seen;
        var closed, ready := PollOnce(source);
        if closed {
          Nothing(before);
          Nothing(result);
          return;
        }
        Assoc(old(out), result, ready);
        Assoc(result, ready, Feed(dedup.accepted, ring.Model(), Events(source.script)).0);
        result := result + ready;
      }
    }

    /** `run_to_completion`, for every source: what the specification releases, then the events that
        are still buffered, in slot order. */
    method RunToCompletion(source: Source) returns (result: seq<Event>)
      requires Valid() && RoomFor(Events(source.script), ring.capacity)
      modifies this, dedup, ring, ring.slots, latency, latency.buffer, source
      ensures Valid() && ring.Model() == Empty(ring.capacity, ring.nextExpected)
      ensures seen == old(seen) + Events(old(source.script)) && out == old(out) + result
      ensures var (released, accepted, left) := old(Feed(dedup.accepted, ring.Model(), Events(source.script)));
              result == released + SortBySlot(Buffered(left.cells)) && dedup.accepted == accepted
      ensures FreshPipeline(old(dedup.accepted), old(ring.Model())) && SlotsIncrease(Events(old(source.script))) ==>
                result == Events(old(source.script))
    {
      if FreshPipeline(dedup.accepted, ring.Model()) && SlotsIncrease(Events(source.script)) {
        InOrderIsIdentity(ring.capacity, Events(source.script));
      }
      result := PollAll(source);
      var rest := Flush();
      Assoc(old(out), result, rest);
      result := result + rest;
    }
  }

  /** `feed` is `done` followed by what `rest` still has to release. */
  ghost predicate Continues(feed: (seq<Event>, seq<Event>, Ring), done: seq<Event>,
      rest: (seq<Event>, seq<Event>, Ring)) {
    feed.0 == done + rest.0 && feed.1 == rest.1 && feed.2 == rest.2
  }

  lemma FeedStep(accepted: seq<Event>, r: Ring, es: seq<Event>)
    requires r.Placed() && es != []
    ensures var (ready, accepted1, r1) := FeedOne(accepted, r, es[0]);
            Continues(Feed(accepted, r, es), ready, Feed(accepted1, r1, es[1..]))
  {
  }

  /** What a poll means for the events to come. */
  lemma AfterPoll(script: seq<SourcePoll>)
    ensures script == [] || script[0].Closed? ==> Events(script) == []
    ensures script != [] && script[0].Idle? ==> Events(script[1..]) == Events(script)
    ensures script != [] && script[0].Polled? ==>
              Events(script) == [script[0].event] + Events(script[1..]) && Events(script)[1..] == Events(script[1..])
  {
  }

  /** No slot is so large that the ring's u64 arithmetic would wrap. */
  ghost predicate RoomFor(es: seq<Event>, capacity: nat) {
    forall i :: 0 <= i < |es| ==> es[i].slot + capacity <= U64_MAX
  }

  lemma Assoc(a: seq<Event>, b: seq<Event>, c: seq<Event>)
    ensures (a + b) + c == a + (b + c)
  {
  }

  lemma Snoc(a: seq<Event>, b: seq<Event>, i: nat)
    requires i < |b|
    ensures a + b[..i] + [b[i]] == a + b[..i + 1]
  {
  }

  lemma Nothing(a: seq<Event>)
    ensures a + [] == a && [] + a == a
  {
  }

  ghost predicate FreshPipeline(accepted: seq<Event>, r: Ring) {
    accepted == [] && r == Empty(|r.cells|, 0)
  }

  lemma {:induction false} StaysInOrder(accepted: seq<Event>, r: Ring, es: seq<Event>)
    requires |r.cells| >= 2 && r == Empty(|r.cells|, r.next) && SlotsIncrease(accepted + es)
    requires es != [] ==> r.next <= es[0].slot
    ensures var (released, accepted', r') := Feed(accepted, r, es);
            released == es && accepted' == accepted + es && r' == Empty(|r.cells|, r'.next)
    decreases |es|
  {
    if es == [] {
    } else {
      var e, empty := es[0], Empty(|r.cells|, es[0].slot + 1);
      NewestIsFresh(accepted, es);
      PassThroughReady(r, e);
      FeedStep(accepted, r, es);
      assert accepted + es == (accepted + [e]) + es[1..] && es == [e] + es[1..];
      if |es| > 1 {
        NextIsLater(accepted, es);
      }
      StaysInOrder(accepted + [e], empty, es[1..]);
    }
  }

  lemma NewestIsFresh(accepted: seq<Event>, es: seq<Event>)
    requires SlotsIncrease(accepted + es) && es != []
    ensures Fresh(accepted, es[0])
  {
    assert (accepted + es)[|accepted|] == es[0];
    assert forall i :: 0 <= i < |accepted| ==> (accepted + es)[i] == accepted[i];
  }

  lemma NextIsLater(accepted: seq<Event>, es: seq<Event>)
    requires SlotsIncrease(accepted + es) && |es| > 1
    ensures es[0].slot + 1 <= es[1].slot
  {
    assert (accepted + es)[|accepted|] == es[0] && (accepted + es)[|accepted| + 1] == es[1];
  }

  /** The full result for strictly increasing slots on a fresh pipeline is the event list itself:
      nothing filtered, nothing kept back, nothing out of order. */
  lemma InOrderIsIdentity(capacity: nat, es: seq<Event>)
    requires capacity >= 2 && SlotsIncrease(es)
    ensures Empty(capacity, 0).Placed()
    ensures var (released, accepted, left) := Feed([], Empty(capacity, 0), es);
            released + SortBySlot(Buffered(left.cells)) == es && accepted == es
  {
    FedInOrder(Empty(capacity, 0), es);
    NothingBuffered(capacity, Feed([], Empty(capacity, 0), es).2.next);
    Nothing(es);
  }

  lemma FedInOrder(r: Ring, es: seq<Event>)
    requires |r.cells| >= 2 && r == Empty(|r.cells|, 0) && SlotsIncrease(es)
    ensures var (released, accepted, left) := Feed([], r, es);
            released == es && accepted == es && left == Empty(|r.cells|, left.next)
  {
    Nothing(es);
    StaysInOrder([], r, es);
  }

  lemma NothingBuffered(capacity: nat, next: nat)
    ensures SortBySlot(Buffered(Empty(capacity, next).cells)) == []
  {
    CountZero(Empty(capacity, next).cells);
  }

  lemma PassThroughReady(r: Ring, e: Event)
    requires |r.cells| >= 2 && r == Empty(|r.cells|, r.next) && r.next <= e.slot
    ensures PushSpec(r, e).Placed() && Ready(PushSpec(r, e), e.slot) == ([e], Empty(|r.cells|, e.slot + 1))
  {
    var empty := Empty(|r.cells|, e.slot + 1);
    PassThrough(r, e);
    PushStaysPlaced(r, e);
    NoneReady(empty, e.slot);
    OneReady(PushSpec(r, e), e.slot, e, empty);
  }

  lemma NoneReady(r: Ring, w: nat)
    requires r.Placed() && PopSpec(r, w) == (None, r)
    ensures Ready(r, w) == ([], r)
  {
  }

  lemma OneReady(r: Ring, w: nat, e: Event, r': Ring)
    requires r.Placed() && r'.Placed() && PopSpec(r, w) == (Some(e), r') && Ready(r', w) == ([], r')
    ensures Ready(r, w) == ([e], r')
  {
    assert [e] + Ready(r', w).0 == [e];
  }
}
