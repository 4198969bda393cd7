/** The ring buffer of ring.rs, updated in place, with ghost counters that account for every
    pushed event. */
module RingBuffer {
  import opened Base
  import opened SlotRing
  import opened WideMath

  function Count(cells: Cells): nat {
    if cells == [] then 0 else Count(cells[..|cells| - 1]) + (if cells[|cells| - 1].Some? then 1 else 0)
  }

  lemma {:induction false} CountUpdate(cells: Cells, i: nat, v: Option<Event>)
    requires i < |cells|
    ensures Count(cells[i := v]) + (if cells[i].Some? then 1 else 0) == Count(cells) + (if v.Some? then 1 else 0)
  {
    var last := |cells| - 1;
    if i < last {
      CountUpdate(cells[..last], i, v);
      assert cells[i := v][..last] == cells[..last][i := v];
    } else {
      assert cells[i := v][..last] == cells[..last];
    }
  }

  lemma {:induction false} CountZero(cells: Cells)
    ensures Count(cells) == 0 <==> forall i :: 0 <= i < |cells| ==> cells[i].None?
  {
    if cells != [] {
      CountZero(cells[..|cells| - 1]);
      assert cells == cells[..|cells| - 1] + [cells[|cells| - 1]];
    }
  }

  ghost predicate IsPowerOfTwo(n: nat) {
    exists k: nat :: n == Pow2(k)
  }

  /** `next_power_of_two`: the least power of two that is at least `n`, counting up from `p`. */
  function NextPowerOfTwo(n: nat, p: nat): (r: nat)
    requires IsPowerOfTwo(p) && (p == 1 || p < 2 * n)
    ensures IsPowerOfTwo(r) && r >= n && r >= p && (r == p || r < 2 * n)
    decreases n - p
  {
    Doubled(p);
    if p >= n then p else NextPowerOfTwo(n, 2 * p)
  }

  lemma Doubled(p: nat)
    requires IsPowerOfTwo(p)
    ensures p > 0 && IsPowerOfTwo(2 * p)
  {
    var k: nat :| p == Pow2(k);
    assert Pow2(k + 1) == 2 * p;
  }

  /** The buffered events in slot order (`sort_by_key`). */
  function Insert(e: Event, s: seq<Event>): (r: seq<Event>)
    ensures multiset(r) == multiset(s) + multiset{e}
  {
    if s == [] || e.slot < s[0].slot then [e] + s
    else
      assert s == [s[0]] + s[1..];
      [s[0]] + Insert(e, s[1..])
  }

  function SortBySlot(s: seq<Event>): (r: seq<Event>)
    ensures multiset(r) == multiset(s)
  {
    if s == [] then []
    else
      assert s == s[..|s| - 1] + [s[|s| - 1]];
      Insert(s[|s| - 1], SortBySlot(s[..|s| - 1]))
  }

  ghost predicate SlotSorted(s: seq<Event>) {
    forall i, j :: 0 <= i < j < |s| ==> s[i].slot <= s[j].slot
  }

  lemma {:induction false} InsertSorted(e: Event, s: seq<Event>)
    requires SlotSorted(s)
    ensures SlotSorted(Insert(e, s))
  {
    if s == [] || e.slot < s[0].slot {
    } else {
      InsertSorted(e, s[1..]);
      var rest := Insert(e, s[1..]);
      forall j | 0 <= j < |rest|
        ensures s[0].slot <= rest[j].slot
      {
        assert rest[j] in multiset(rest);
        assert rest[j] == e || rest[j] in s[1..];
      }
    }
  }

  lemma {:induction false} SortBySlotSorted(s: seq<Event>)
    ensures SlotSorted(SortBySlot(s))
  {
    if s == [] {
    } else {
      SortBySlotSorted(s[..|s| - 1]);
      InsertSorted(s[|s| - 1], SortBySlot(s[..|s| - 1]));
    }
  }

  /** All events still buffered, in cell order. */
  function Buffered(cells: Cells): (r: seq<Event>)
    ensures |r| == Count(cells)
  {
    if cells == [] then []
    else
      Buffered(cells[..|cells| - 1]) + (if cells[|cells| - 1].Some? then [cells[|cells| - 1].value] else [])
  }

  lemma BufferedSnoc(cells: Cells, i: nat)
    requires i < |cells|
    ensures Buffered(cells[..i + 1]) == Buffered(cells[..i]) + (if cells[i].Some? then [cells[i].value] else [])
  {
    assert cells[..i + 1][..i] == cells[..i];
  }

  /** `cells` with the first `n` taken out. */
  function Cleared(cells: Cells, n: nat): Cells {
    seq(|cells|, i requires 0 <= i < |cells| => if i < n then None else cells[i])
  }

  lemma ClearedNext(cells: Cells, i: nat)
    requires i < |cells|
    ensures Cleared(cells, i)[i] == cells[i] && Cleared(cells, i)[i := None] == Cleared(cells, i + 1)
    ensures cells[i].None? ==> Cleared(cells, i + 1) == Cleared(cells, i)
  {
  }

  class SlotRingBuffer {
    const capacity: nat
    const slots: array<Option<Event>>
    var nextExpected: u64
    var released: nat

    ghost var pushed: nat
    ghost var overwritten: nat
    ghost var rejected: nat
    ghost var discarded: nat

    ghost function Model(): Ring
      reads this, slots
    {
      Ring(slots[..], nextExpected)
    }

    /** Placement, room for u64 arithmetic on every buffered slot, and the conservation law:
        every pushed event was released, is buffered, or is accounted for as lost. */
    ghost predicate Valid()
      reads this, slots
    {
      && 2 <= capacity == slots.Length <= U64_MAX
      && Model().Placed()
      && (forall i :: 0 <= i < slots.Length && slots[i].Some? ==> slots[i].value.slot + capacity <= U64_MAX)
      && pushed == released + Count(slots[..]) + overwritten + rejected + discarded
    }

    constructor (requested: nat)
      requires requested <= 0x8000_0000_0000_0000
      ensures Valid() && fresh(slots)
      ensures IsPowerOfTwo(capacity) && Max(requested, 2) <= capacity < 2 * Max(requested, 2)
      ensures Model() == Ring(seq(capacity, _ => None), 0) && released == 0 && pushed == 0
      ensures overwritten == 0 && rejected == 0 && discarded == 0
    {
      assert IsPowerOfTwo(1) by { assert Pow2(0) == 1; }
      var cap := NextPowerOfTwo(Max(requested, 2), 1);
      capacity := cap;
      slots := new Option<Event>[cap](_ => None);
      nextExpected, released := 0, 0;
      pushed, overwritten, rejected, discarded := 0, 0, 0, 0;
      new;
      assert slots[..] == seq(capacity, _ => None);
      CountZero(slots[..]);
    }

    /** `push`; `slot + capacity` must fit a u64, as in the source. */
    method Push(e: Event)
      requires Valid() && e.slot + capacity <= U64_MAX
      modifies this`pushed, this`overwritten, this`rejected, slots
      ensures Valid() && Model() == PushSpec(old(Model()), e) && pushed == old(pushed) + 1
      ensures var tooOld := nextExpected > 0 && e.slot + capacity <= nextExpected;
              && rejected == old(rejected) + (if tooOld then 1 else 0)
              && overwritten == old(overwritten) + (if !tooOld && old(slots[e.slot % capacity]).Some? then 1 else 0)
    {
      pushed := pushed + 1;
      if nextExpected > 0 && e.slot + capacity <= nextExpected {
        rejected := rejected + 1;
        return;
      }
      var idx := e.slot % capacity;
      CountUpdate(slots[..], idx, Some(e));
      if slots[idx].Some? {
        overwritten := overwritten + 1;
      }
      slots[idx] := Some(e);
      assert slots[..] == old(slots[..])[idx := Some(e)];
    }

    /** `slots[idx].take()` of an event that is handed out. */
    method Release(idx: nat) returns (event: Event)
      requires Valid() && idx < slots.Length && slots[idx].Some?
      modifies this`released, slots
      ensures Valid() && event == old(slots[idx]).value && released == old(released) + 1
      ensures slots[..] == old(slots[..])[idx := None]
    {
      event := slots[idx].value;
      CountUpdate(slots[..], idx, None);
      slots[idx] := None;
      released := released + 1;
      assert slots[..] == old(slots[..])[idx := None];
    }

    /** `slots[idx].take()` of a stale event. */
    method Discard(idx: nat)
      requires Valid() && idx < slots.Length && slots[idx].Some?
      modifies this`discarded, slots
      ensures Valid() && discarded == old(discarded) + 1
      ensures slots[..] == old(slots[..])[idx := None]
    {
      CountUpdate(slots[..], idx, None);
      slots[idx] := None;
      discarded := discarded + 1;
      assert slots[..] == old(slots[..])[idx := None];
    }

    /** The loop body of `pop_ready`. */
    method PopStep() returns (r: Option<Event>)
      requires Valid() && nextExpected < U64_MAX
      modifies this`nextExpected, this`released, this`discarded, slots
      ensures Valid() && (r, Model()) == ScanStep(old(Model()))
      ensures released == old(released) + (if r.Some? then 1 else 0) && discarded >= old(discarded)
    {
      var idx := nextExpected % capacity;
      if slots[idx].Some? {
        if slots[idx].value.slot < nextExpected {
          Discard(idx);
          return None;
        }
        var event := Release(idx);
        nextExpected := Max(nextExpected, event.slot) + 1;
        return Some(event);
      }
      nextExpected := nextExpected + 1;
      return None;
    }

    /** `pop_ready`: the loop meets the scan specification and terminates although discarding
        a stale event does not advance `nextExpected`. */
    method PopReady(watermark: u64) returns (r: Option<Event>)
      requires Valid() && watermark < U64_MAX
      modifies this`nextExpected, this`released, this`discarded, slots
      ensures Valid() && (r, Model()) == PopSpec(old(Model()), watermark)
      ensures released == old(released) + (if r.Some? then 1 else 0) && discarded >= old(discarded)
    {
      var iterations := 0;
      while nextExpected <= watermark && iterations < capacity
        invariant Valid() && iterations <= capacity && released == old(released) && discarded >= old(discarded)
        invariant Scan(Model(), watermark, capacity - iterations) == PopSpec(old(Model()), watermark)
        decreases capacity - iterations
      {
        r := PopStep();
        if r.Some? {
          return;
        }
        iterations := iterations + 1;
      }
      return None;
    }

    /** `take` of one cell, in a scan that has cleared those before it. */
    method TakeCell(i: nat, ghost initial: Cells) returns (e: Option<Event>)
      requires Valid() && i < slots.Length == |initial| && slots[..] == Cleared(initial, i)
      modifies this`released, slots
      ensures Valid() && e == initial[i] && slots[..] == Cleared(initial, i + 1)
      ensures released == old(released) + (if e.Some? then 1 else 0)
    {
      ClearedNext(initial, i);
      e := slots[i];
      if e.Some? {
        var event := Release(i);
      }
    }

    /** The scan of `drain`: every cell is taken, in cell order. */
    method TakeAll() returns (taken: seq<Event>)
      requires Valid()
      modifies this`released, slots
      ensures Valid() && slots[..] == seq(capacity, _ => None)
      ensures taken == Buffered(old(slots[..])) && released == old(released) + |taken|
    {
      taken := [];
      ghost var initial := slots[..];
      assert initial == Cleared(initial, 0);
      for i := 0 to slots.Length
        invariant Valid() && slots[..] == Cleared(initial, i)
        invariant taken == Buffered(initial[..i]) && released == old(released) + |taken|
      {
        BufferedSnoc(initial, i);
        var e := TakeCell(i, initial);
        if e.Some? {
          taken := taken + [e.value];
        }
      }
      assert initial[..slots.Length] == initial;
      assert Cleared(initial, capacity) == seq(capacity, _ => None);
    }

    /** `drain`: everything still buffered, in slot order; the second pass of the source's outer
        loop finds an empty buffer. `nextExpected` is left alone. */
    method Drain() returns (result: seq<Event>)
      requires Valid()
      modifies this`released, slots
      ensures Valid() && Model() == Ring(seq(capacity, _ => None), old(nextExpected))
      ensures result == SortBySlot(Buffered(old(slots[..])))
      ensures SlotSorted(result) && multiset(result) == multiset(Buffered(old(slots[..])))
      ensures released == old(released) + |result|
    {
      var taken := TakeAll();
      SortBySlotSorted(taken);
      result := SortBySlot(taken);
      assert |result| == |multiset(result)| == |multiset(taken)| == |taken|;
    }
  }
}
