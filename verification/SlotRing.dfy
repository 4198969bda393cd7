/** The slot reordering ring buffer (ring.rs): a value-level specification of its operations,
    the properties of every run of them, and the buffer itself. */
module SlotRing {
  import opened Base

  datatype Event = Event(marketId: u64, slot: u64, seqNo: u64, publishTs: u64, ingestTs: u64, kind: int)

  type Cells = seq<Option<Event>>

  /** The ring as a value: its cells and the next expected slot. */
  datatype Ring = Ring(cells: Cells, next: nat) {
    /** Every buffered event sits at index slot % capacity. */
    ghost predicate Placed() {
      |cells| >= 2 && forall i :: 0 <= i < |cells| && cells[i].Some? ==> cells[i].value.slot % |cells| == i
    }

    /** The buffered events as a map from slot to event. */
    ghost function Contents(): map<int, Event>
      requires Placed()
    {
      map i | 0 <= i < |cells| && cells[i].Some? :: cells[i].value.slot := cells[i].value
    }

    /** No buffered event is behind the next expected slot. */
    ghost predicate NoStale() {
      forall i :: 0 <= i < |cells| && cells[i].Some? ==> next <= cells[i].value.slot
    }

    /** The condition under which the ring is a slot-ordered map. */
    ghost predicate InWindow() {
      forall i :: 0 <= i < |cells| && cells[i].Some? ==> next <= cells[i].value.slot < next + |cells|
    }
  }

  // ---------------------------------------------------------------- specification

  function PushSpec(r: Ring, e: Event): Ring
    requires |r.cells| > 0
  {
    if r.next > 0 && e.slot + |r.cells| <= r.next then r else r.(cells := r.cells[e.slot % |r.cells| := Some(e)])
  }

  /** One iteration of the scan of `pop_ready`. Skipping an empty cell advances; discarding a
      stale event does not. */
  function ScanStep(r: Ring): (Option<Event>, Ring)
    requires |r.cells| > 0
  {
    var i := r.next % |r.cells|;
    match r.cells[i]
    case None => (None, r.(next := r.next + 1))
    case Some(e) =>
      var taken := r.(cells := r.cells[i := None]);
      if e.slot < r.next then (None, taken) else (Some(e), taken.(next := Max(r.next, e.slot) + 1))
  }

  /** At most `steps` iterations, while the next slot is not beyond the watermark. */
  function Scan(r: Ring, w: nat, steps: nat): (Option<Event>, Ring)
    requires |r.cells| > 0
    decreases steps
  {
    if steps == 0 || r.next > w then (None, r)
    else
      var (o, r') := ScanStep(r);
      if o.Some? then (o, r') else Scan(r', w, steps - 1)
  }

  function PopSpec(r: Ring, w: nat): (Option<Event>, Ring)
    requires |r.cells| > 0
  {
    Scan(r, w, |r.cells|)
  }

  // ---------------------------------------------------------------- every state

  /** Popping never invents an event, keeps the placement and moves `next` forward, past
      whatever it returns. */
  lemma {:induction false} ScanBasics(r: Ring, w: nat, steps: nat)
    requires r.Placed()
    ensures var (o, r') := Scan(r, w, steps);
            && r'.Placed() && |r'.cells| == |r.cells| && r'.next >= r.next
            && (forall i :: 0 <= i < |r.cells| && r'.cells[i].Some? ==> r'.cells[i] == r.cells[i])
            && (o.Some? ==> o.value.slot >= r.next && r'.next == o.value.slot + 1 &&
                            r.cells[o.value.slot % |r.cells|] == o && r'.cells[o.value.slot % |r.cells|] == None)
    decreases steps
  {
    if steps != 0 && r.next <= w {
      var i := r.next % |r.cells|;
      match r.cells[i]
      case None => ScanBasics(r.(next := r.next + 1), w, steps - 1);
      case Some(e) =>
        if e.slot < r.next {
          ScanBasics(r.(cells := r.cells[i := None]), w, steps - 1);
        }
    }
  }

  datatype Op = Push(e: Event) | Pop(w: nat)

  /** The slots popped by a sequence of operations, and the ring they leave. */
  function Run(r: Ring, ops: seq<Op>): (seq<int>, Ring)
    requires r.Placed()
    decreases |ops|
  {
    if ops == [] then ([], r)
    else
      match ops[0]
      case Push(e) => Run(PushSpec(r, e), ops[1..])
      case Pop(w) =>
        ScanBasics(r, w, |r.cells|);
        var (o, r') := PopSpec(r, w);
        var (rest, last) := Run(r', ops[1..]);
        ((if o.Some? then [o.value.slot as int] else []) + rest, last)
  }

  ghost predicate StrictlyIncreasing(s: seq<int>) {
    forall i, j :: 0 <= i < j < |s| ==> s[i] < s[j]
  }

  /** Whatever is pushed and with whatever watermarks, popped slots only ever increase. */
  lemma {:induction false} PoppedIncrease(r: Ring, ops: seq<Op>)
    requires r.Placed()
    ensures var popped := Run(r, ops).0;
            StrictlyIncreasing(popped) && forall s :: s in popped ==> s >= r.next
    decreases |ops|
  {
    if ops == [] {
    } else {
      match ops[0]
      case Push(e) => PoppedIncrease(PushSpec(r, e), ops[1..]);
      case Pop(w) =>
        ScanBasics(r, w, |r.cells|);
        var (o, r') := PopSpec(r, w);
        PoppedIncrease(r', ops[1..]);
        var rest := Run(r', ops[1..]).0;
        assert forall j :: 0 <= j < |rest| ==> rest[j] in rest;
    }
  }

  // ---------------------------------------------------------------- no stale events: the scan finds the first cell

  lemma ModInjective(a: int, b: int, c: int)
    requires c > 0 && a % c == b % c && -c < a - b < c
    ensures a == b
  {
    var k := a / c - b / c;
    assert a - b == k * c;
    if k > 0 {
      MulLe(1, k, c);
    } else if k < 0 {
      MulLe(k, -1, c);
    }
  }

  function CellAt(cells: Cells, p: nat): Option<Event>
    requires |cells| > 0
  {
    cells[p % |cells|]
  }

  /** The first position at or after `from` whose cell is occupied, within `steps`. */
  function First(cells: Cells, from: nat, steps: nat): (p: nat)
    requires |cells| > 0
    ensures from <= p <= from + steps
    ensures forall q :: from <= q < p ==> CellAt(cells, q).None?
    ensures p < from + steps ==> CellAt(cells, p).Some?
    decreases steps
  {
    if steps == 0 || CellAt(cells, from).Some? then from else First(cells, from + 1, steps - 1)
  }

  /** Without stale events the scan returns the first occupied cell at or before the watermark
      and leaves every other cell alone. */
  lemma {:induction false} ScanFindsFirst(r: Ring, w: nat, steps: nat)
    requires r.Placed() && steps <= |r.cells|
    requires forall q :: r.next <= q < r.next + steps && CellAt(r.cells, q).Some? ==> CellAt(r.cells, q).value.slot >= q
    ensures var p := First(r.cells, r.next, steps);
            if p < r.next + steps && p <= w
            then Scan(r, w, steps) ==
              (CellAt(r.cells, p), Ring(r.cells[p % |r.cells| := None], CellAt(r.cells, p).value.slot + 1))
            else Scan(r, w, steps) == (None, r.(next := Max(r.next, Min(w + 1, r.next + steps))))
    decreases steps
  {
    if steps == 0 || r.next > w {
    } else if CellAt(r.cells, r.next).Some? {
      ScanTakes(r, w, steps);
    } else {
      ScanSkips(r, w, steps);
      ScanFindsFirst(r.(next := r.next + 1), w, steps - 1);
    }
  }

  lemma ScanTakes(r: Ring, w: nat, steps: nat)
    requires |r.cells| > 0 && steps > 0 && r.next <= w
    requires CellAt(r.cells, r.next).Some? && CellAt(r.cells, r.next).value.slot >= r.next
    ensures First(r.cells, r.next, steps) == r.next
    ensures var e := CellAt(r.cells, r.next).value;
            Scan(r, w, steps) == (Some(e), Ring(r.cells[r.next % |r.cells| := None], e.slot + 1))
  {
  }

  lemma ScanSkips(r: Ring, w: nat, steps: nat)
    requires |r.cells| > 0 && steps > 0 && r.next <= w && CellAt(r.cells, r.next).None?
    ensures Scan(r, w, steps) == Scan(r.(next := r.next + 1), w, steps - 1)
    ensures First(r.cells, r.next, steps) == First(r.cells, r.next + 1, steps - 1)
  {
  }

  /** An event that is not stale is never in front of the position it is found at. */
  lemma AheadOfPosition(r: Ring, q: nat)
    requires r.Placed() && r.NoStale() && r.next <= q < r.next + |r.cells| && CellAt(r.cells, q).Some?
    ensures CellAt(r.cells, q).value.slot >= q
    ensures CellAt(r.cells, q).value.slot < r.next + |r.cells| ==> CellAt(r.cells, q).value.slot == q
  {
    var s := CellAt(r.cells, q).value.slot;
    if s < r.next + |r.cells| {
      ModInjective(s, q, |r.cells|);
    }
  }

  lemma PopFindsFirst(r: Ring, w: nat)
    requires r.Placed() && r.NoStale()
    ensures var p := First(r.cells, r.next, |r.cells|);
            if p < r.next + |r.cells| && p <= w
            then PopSpec(r, w) ==
              (CellAt(r.cells, p), Ring(r.cells[p % |r.cells| := None], CellAt(r.cells, p).value.slot + 1))
            else PopSpec(r, w) == (None, r.(next := Max(r.next, Min(w + 1, r.next + |r.cells|))))
  {
    forall q | r.next <= q < r.next + |r.cells| && CellAt(r.cells, q).Some?
      ensures CellAt(r.cells, q).value.slot >= q
    {
      AheadOfPosition(r, q);
    }
    ScanFindsFirst(r, w, |r.cells|);
  }

  /** The position of the first event that the scan reaches and does not discard as stale,
      with no watermark to stop it. */
  function Reached(r: Ring, steps: nat): Option<nat>
    requires |r.cells| > 0
    decreases steps
  {
    if steps == 0 then None
    else
      match CellAt(r.cells, r.next)
      case None => Reached(r.(next := r.next + 1), steps - 1)
      case Some(e) =>
        if e.slot < r.next then Reached(r.(cells := r.cells[r.next % |r.cells| := None]), steps - 1) else Some(r.next)
  }

  lemma {:induction false} ScanStopsAtReached(r: Ring, w: nat, steps: nat)
    requires r.Placed() && steps <= |r.cells|
    ensures match Reached(r, steps)
            case None => Scan(r, w, steps).0 == None
            case Some(p) =>
              && r.next <= p < r.next + steps && CellAt(r.cells, p).Some? && CellAt(r.cells, p).value.slot >= p
              && Scan(r, w, steps).0 == (if p <= w then CellAt(r.cells, p) else None)
    decreases steps
  {
    if steps != 0 {
      var c := CellAt(r.cells, r.next);
      if c.None? {
        ScanStopsAtReached(r.(next := r.next + 1), w, steps - 1);
      } else if c.value.slot < r.next {
        ScanStopsAtReached(r.(cells := r.cells[r.next % |r.cells| := None]), w, steps - 1);
      }
    }
  }

  /** Over a sequence of operations, every popped slot is within the watermark of its pop. */
  ghost predicate Respects(r: Ring, ops: seq<Op>)
    requires r.Placed()
    decreases |ops|
  {
    ops == [] ||
    match ops[0]
    case Push(e) => Respects(PushSpec(r, e), ops[1..])
    case Pop(w) =>
      ScanBasics(r, w, |r.cells|);
      (PopSpec(r, w).0.Some? ==> PopSpec(r, w).0.value.slot <= w) && Respects(PopSpec(r, w).1, ops[1..])
  }

  /** No buffered event is a whole ring or more ahead; stale events do not matter. */
  ghost predicate NotTooFar(r: Ring) {
    forall i :: 0 <= i < |r.cells| && r.cells[i].Some? ==> r.cells[i].value.slot < r.next + |r.cells|
  }

  /** Each push is checked by its caller against `next_expected_slot` and `capacity`. */
  ghost predicate Checked(r: Ring, ops: seq<Op>)
    requires r.Placed()
    decreases |ops|
  {
    ops == [] ||
    match ops[0]
    case Push(e) => e.slot < r.next + |r.cells| && Checked(PushSpec(r, e), ops[1..])
    case Pop(w) =>
      ScanBasics(r, w, |r.cells|);
      Checked(PopSpec(r, w).1, ops[1..])
  }

  lemma OnePopRespects(r: Ring, w: nat)
    requires r.Placed() && NotTooFar(r)
    ensures PopSpec(r, w).0.Some? ==> PopSpec(r, w).0.value.slot <= w
    ensures PopSpec(r, w).1.Placed() && NotTooFar(PopSpec(r, w).1)
  {
    ScanBasics(r, w, |r.cells|);
    ScanStopsAtReached(r, w, |r.cells|);
    match Reached(r, |r.cells|)
    case None =>
    case Some(p) => ModInjective(CellAt(r.cells, p).value.slot, p, |r.cells|);
  }

  lemma {:induction false} CheckedRunRespects(r: Ring, ops: seq<Op>)
    requires r.Placed() && NotTooFar(r) && Checked(r, ops)
    ensures Respects(r, ops)
    decreases |ops|
  {
    if ops != [] {
      match ops[0]
      case Push(e) => CheckedRunRespects(PushSpec(r, e), ops[1..]);
      case Pop(w) =>
        OnePopRespects(r, w);
        CheckedRunRespects(PopSpec(r, w).1, ops[1..]);
    }
  }

  function Occupied(cells: Cells): set<int> {
    set i | 0 <= i < |cells| && cells[i].Some?
  }

  /** A scan towards a too-far event at position `q`: it hands that event out, or an earlier one,
      or it runs out of steps on the way, closer to `q` or with fewer events in between. */
  lemma {:induction false} ScanTowards(r: Ring, q: nat, steps: nat)
    requires r.Placed() && r.next <= q < r.next + |r.cells|
    requires CellAt(r.cells, q).Some? && CellAt(r.cells, q).value.slot > q
    ensures var (o, r') := Scan(r, q, steps);
            && r'.Placed() && |r'.cells| == |r.cells|
            && (o != CellAt(r.cells, q) ==> CellAt(r'.cells, q) == CellAt(r.cells, q))
            && (o.None? ==> r.next <= r'.next <= q && Occupied(r'.cells) <= Occupied(r.cells) &&
                            (steps > 0 ==> r'.next > r.next || Occupied(r'.cells) < Occupied(r.cells)))
    decreases steps
  {
    if steps > 0 {
      var i := r.next % |r.cells|;
      match r.cells[i]
      case None => ScanTowards(r.(next := r.next + 1), q, steps - 1);
      case Some(e) =>
        var taken := r.(cells := r.cells[i := None]);
        if e.slot < r.next {
          assert i in Occupied(r.cells) && i !in Occupied(taken.cells);
          ScanTowards(taken, q, steps - 1);
        } else if r.next < q {
          if i == q % |r.cells| {
            ModInjective(r.next, q, |r.cells|);
          }
        }
    }
  }

  /** Popping again and again at the position of a too-far event hands out an event early. */
  lemma {:induction false} TooFarComesEarly(r: Ring, q: nat) returns (ops: seq<Op>)
    requires r.Placed() && r.next <= q < r.next + |r.cells|
    requires CellAt(r.cells, q).Some? && CellAt(r.cells, q).value.slot > q
    ensures OnlyPops(ops) && !Respects(r, ops)
    decreases q - r.next, Occupied(r.cells)
  {
    var (o, r') := PopSpec(r, q);
    ScanBasics(r, q, |r.cells|);
    ScanTowards(r, q, |r.cells|);
    ops := [Pop(q)];
    if o.None? || o.value.slot <= q {
      var rest := TooFarComesEarly(r', q);
      ops := [Pop(q)] + rest;
      assert ops[1..] == rest;
    }
  }

  ghost predicate OnlyPops(ops: seq<Op>) {
    forall i :: 0 <= i < |ops| ==> ops[i].Pop?
  }

  lemma {:induction false} PopsAreChecked(r: Ring, ops: seq<Op>)
    requires r.Placed() && OnlyPops(ops)
    ensures Checked(r, ops)
    decreases |ops|
  {
    if ops != [] {
      ScanBasics(r, ops[0].w, |r.cells|);
      PopsAreChecked(PopSpec(r, ops[0].w).1, ops[1..]);
    }
  }

  /** The documented watermark ("events up to the watermark"), exactly: from a ring in any state
      every sequence of pops respects it if and only if no buffered event is a whole ring or more
      ahead. Then so does every run whose pushes are checked for that by the caller. */
  lemma WatermarkRespected(r: Ring)
    requires r.Placed()
    ensures (forall ops :: OnlyPops(ops) ==> Respects(r, ops)) <==> NotTooFar(r)
    ensures NotTooFar(r) ==> forall ops :: Checked(r, ops) ==> Respects(r, ops)
  {
    if NotTooFar(r) {
      forall ops | Checked(r, ops)
        ensures Respects(r, ops)
      {
        CheckedRunRespects(r, ops);
      }
      forall ops | OnlyPops(ops)
        ensures Respects(r, ops)
      {
        PopsAreChecked(r, ops);
      }
    } else {
      var i :| 0 <= i < |r.cells| && r.cells[i].Some? && r.cells[i].value.slot >= r.next + |r.cells|;
      var q := PositionOf(r.next, i, |r.cells|);
      var ops := TooFarComesEarly(r, q);
      assert OnlyPops(ops) && !Respects(r, ops);
    }
  }

  /** The position of cell `i` in the window that starts at `next`. */
  lemma PositionOf(next: nat, i: nat, c: nat) returns (q: nat)
    requires i < c
    ensures next <= q < next + c && q % c == i
  {
    var off := next % c;
    q := if i >= off then next - off + i else next - off + i + c;
    var k := if i >= off then next / c else next / c + 1;
    assert q == k * c + i;
    Remainder(k, i, c);
  }

  lemma Remainder(k: nat, i: nat, c: nat)
    requires i < c
    ensures (k * c + i) % c == i
  {
    var n := k * c + i;
    assert n - i == k * c && n == n / c * c + n % c;
    var d := n / c - k;
    assert d * c == i - n % c;
    if d > 0 {
      MulLe(1, d, c);
    } else if d < 0 {
      MulLe(d, -1, c);
    }
  }

  /** It can be broken: a fresh ring of capacity 4 that buffers slot 102 hands it out at
      watermark 100. */
  lemma WatermarkBroken(e: Event)
    requires e.slot == 102
    ensures PopSpec(PushSpec(Ring([None, None, None, None], 0), e), 100).0 == Some(e)
  {
    var r := PushSpec(Ring([None, None, None, None], 0), e);
    assert r.cells == [None, None, Some(e), None];
    PopFindsFirst(r, 100);
    assert CellAt(r.cells, 0).None? && CellAt(r.cells, 1).None? && CellAt(r.cells, 2) == Some(e);
    var p := First(r.cells, r.next, 4);
    assert p >= 2;
  }

  // ---------------------------------------------------------------- in the window: a slot-ordered map

  lemma WindowCell(r: Ring, s: int)
    requires r.Placed() && r.InWindow()
    ensures s in r.Contents() <==> r.next <= s < r.next + |r.cells| && CellAt(r.cells, s).Some?
    ensures s in r.Contents() ==> CellAt(r.cells, s) == Some(r.Contents()[s])
  {
    if r.next <= s < r.next + |r.cells| && CellAt(r.cells, s).Some? {
      AheadOfPosition(r, s);
    }
    if s in r.Contents() {
      var i :| 0 <= i < |r.cells| && r.cells[i].Some? && r.cells[i].value.slot == s;
      assert i == s % |r.cells|;
    }
  }

  /** A push inside the window is a map update: last write wins, nothing else moves. */
  lemma PushIsMapUpdate(r: Ring, e: Event)
    requires r.Placed() && r.InWindow() && r.next <= e.slot < r.next + |r.cells|
    ensures var r' := PushSpec(r, e);
            r'.Placed() && r'.InWindow() && r'.next == r.next && r'.Contents() == r.Contents()[e.slot as int := e]
  {
    var r' := PushSpec(r, e);
    assert r'.Placed() && r'.InWindow();
    forall s: int
      ensures s in r'.Contents() <==> s in r.Contents() || s == e.slot
      ensures s in r'.Contents() ==> r'.Contents()[s] == (if s == e.slot then e else r.Contents()[s])
    {
      WindowCell(r, s);
      WindowCell(r', s);
      if r.next <= s < r.next + |r.cells| && s % |r.cells| == e.slot % |r.cells| {
        ModInjective(s, e.slot, |r.cells|);
      }
    }
  }

  ghost predicate IsLeast(m: map<int, Event>, s: int) {
    s in m && forall t :: t in m ==> s <= t
  }

  lemma MapWithout(m: map<int, Event>, m': map<int, Event>, gone: set<int>)
    requires forall s :: s in m' <==> s in m && s !in gone
    requires forall s :: s in m' ==> m'[s] == m[s]
    ensures m' == m - gone
  {
    forall s: int
      ensures s in m'.Keys <==> s in m.Keys - gone
    {
      assert s in m' <==> s in m && s !in gone;
    }
    var rest := m - gone;
    assert rest.Keys == m.Keys - gone == m'.Keys;
    forall s | s in m'
      ensures s in rest && m'[s] == rest[s]
    {
    }
  }

  /** A pop is "remove the least slot if it is not beyond the watermark"; otherwise nothing is
      lost, and either way the window condition is kept. */
  lemma PopRemovesLeast(r: Ring, w: nat)
    requires r.Placed() && r.InWindow()
    ensures var (o, r') := PopSpec(r, w);
            && r'.Placed() && r'.InWindow()
            && (o.Some? ==> var s := o.value.slot;
                            IsLeast(r.Contents(), s) && s <= w && r.Contents()[s] == o.value &&
                            r'.Contents() == r.Contents() - {s} && r'.next == s + 1)
            && (o.None? ==> r'.Contents() == r.Contents() && forall s :: s in r.Contents() ==> s > w)
  {
    var (o, r') := PopSpec(r, w);
    var gone: set<int> := if o.Some? then {o.value.slot as int} else {};
    ScanBasics(r, w, |r.cells|);
    PopKeepsWindow(r, w);
    forall s: int
      ensures PopEffect(r, w, s)
    {
      PopCell(r, w, s);
    }
    Effects(r, w, r.Contents(), r'.Contents(), gone);
    MapWithout(r.Contents(), r'.Contents(), gone);
    assert o.Some? ==> PopEffect(r, w, o.value.slot);
  }

  /** The effect on every slot, in terms of the two maps alone. */
  lemma Effects(r: Ring, w: nat, m: map<int, Event>, m': map<int, Event>, gone: set<int>)
    requires r.Placed() && r.InWindow() && PopSpec(r, w).1.Placed() && PopSpec(r, w).1.InWindow()
    requires m == r.Contents() && m' == PopSpec(r, w).1.Contents()
    requires gone == (if PopSpec(r, w).0.Some? then {PopSpec(r, w).0.value.slot as int} else {})
    requires forall s: int :: PopEffect(r, w, s)
    ensures forall s :: s in m' <==> s in m && s !in gone
    ensures forall s :: s in m' ==> m'[s] == m[s]
    ensures forall s :: s in m ==> if PopSpec(r, w).0.Some? then PopSpec(r, w).0.value.slot <= s else s > w
  {
    forall s: int
      ensures s in m' <==> s in m && s !in gone
      ensures s in m' ==> m'[s] == m[s]
      ensures s in m ==> if PopSpec(r, w).0.Some? then PopSpec(r, w).0.value.slot <= s else s > w
    {
      assert PopEffect(r, w, s);
    }
  }

  /** The effect of a pop on one slot. */
  ghost predicate PopEffect(r: Ring, w: nat, s: int)
    requires r.Placed() && r.InWindow() && PopSpec(r, w).1.Placed() && PopSpec(r, w).1.InWindow()
  {
    var (o, r') := PopSpec(r, w);
    && (s in r'.Contents() <==> s in r.Contents() && (o.Some? ==> s != o.value.slot))
    && (s in r'.Contents() ==> r'.Contents()[s] == r.Contents()[s])
    && (s in r.Contents() ==> if o.Some? then o.value.slot <= s else s > w)
    && (o.Some? && s == o.value.slot ==> s in r.Contents() && r.Contents()[s] == o.value && s <= w)
  }

  lemma PopCell(r: Ring, w: nat, s: int)
    requires r.Placed() && r.InWindow() && PopSpec(r, w).1.Placed() && PopSpec(r, w).1.InWindow()
    ensures PopEffect(r, w, s)
  {
    var (o, r') := PopSpec(r, w);
    var p := First(r.cells, r.next, |r.cells|);
    PopFindsFirst(r, w);
    if p < r.next + |r.cells| {
      AheadOfPosition(r, p);
    }
    WindowCell(r, s);
    WindowCell(r', s);
    if o.Some? && r.next <= s < r.next + |r.cells| && s % |r.cells| == p % |r.cells| {
      ModInjective(s, p, |r.cells|);
    }
  }

  lemma PopKeepsWindow(r: Ring, w: nat)
    requires r.Placed() && r.InWindow()
    ensures PopSpec(r, w).1.InWindow()
  {
    var (o, r') := PopSpec(r, w);
    var p := First(r.cells, r.next, |r.cells|);
    PopFindsFirst(r, w);
    forall i | 0 <= i < |r'.cells| && r'.cells[i].Some?
      ensures r'.next <= r'.cells[i].value.slot < r'.next + |r'.cells|
    {
      var s := r.cells[i].value.slot;
      assert CellAt(r.cells, s) == r.cells[i];
      if p < r.next + |r.cells| {
        AheadOfPosition(r, p);
      }
      assert s >= p && s % |r.cells| == i;
      assert o.Some? ==> i != p % |r.cells|;
    }
  }

  /** A push behind the window: too old is ignored; otherwise it is kept behind the next slot, and
      exactly the event one ring ahead of it is lost. */
  lemma LatePush(r: Ring, e: Event, s: int)
    requires r.Placed() && r.InWindow() && e.slot < r.next
    ensures var r' := PushSpec(r, e);
            if e.slot + |r.cells| <= r.next then r' == r
            else
              && r'.Placed() && r'.next == r.next
              && (s in r'.Contents() <==> s == e.slot || (s in r.Contents() && s != e.slot + |r.cells|))
              && (s in r'.Contents() ==> r'.Contents()[s] == if s == e.slot then e else r.Contents()[s])
  {
    var r' := PushSpec(r, e);
    if e.slot + |r.cells| > r.next {
      SameCell(e.slot, |r.cells|);
      WindowCell(r, s);
      LateCell(r, r', e, s);
    }
  }

  lemma SameCell(a: nat, c: nat)
    requires c > 0
    ensures (a + c) % c == a % c
  {
    var k := a / c;
    assert a + c == (k + 1) * c + a % c;
    Remainder(k + 1, a % c, c);
  }

  lemma LateCell(r: Ring, r': Ring, e: Event, s: int)
    requires r.Placed() && r.InWindow() && e.slot < r.next < e.slot + |r.cells|
    requires (e.slot + |r.cells|) % |r.cells| == e.slot % |r.cells|
    requires r' == r.(cells := r.cells[e.slot % |r.cells| := Some(e)])
    ensures r'.Placed()
    ensures s in r'.Contents() <==> s == e.slot || (s in r.Contents() && s != e.slot + |r.cells|)
    ensures s in r'.Contents() ==> r'.Contents()[s] == if s == e.slot then e else r.Contents()[s]
  {
    var c, k := |r.cells|, e.slot % |r.cells|;
    assert r'.cells[k] == Some(e);
    if s in r.Contents() {
      WindowCell(r, s);
      if s % c == k {
        ModInjective(s, e.slot + c, c);
      } else {
        assert r'.cells[s % c] == r.cells[s % c];
      }
    }
  }
}
