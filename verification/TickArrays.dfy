/** Raydium tick-array bitmaps and the directional search over them (account_resolver.rs). */
module TickArrays {
  import opened Base
  import opened DirectedScan
  import WideMath

  const TICK_ARRAY_SIZE: int := 60
  const DEFAULT_ARRAYS: int := 512
  const EXTENSION_BITMAPS: int := 14
  const MIN_TICK: int := -443_636
  const MAX_TICK: int := 443_636
  const SCAN: int := 10

  /** Rust's i32; a value typed so is a proof that the source expression does not overflow. */
  type i32 = x: int | -0x8000_0000 <= x < 0x8000_0000

  /** 8 words of 64 bits per bitmap, two bitmaps' worth in the default one. */
  type Words = seq<u64>
  datatype Extension = Extension(pos: seq<Words>, neg: seq<Words>)
  datatype RawBitmaps = RawBitmaps(default: Words, extension: Option<Extension>)

  predicate WellFormed(b: RawBitmaps) {
    && |b.default| == 16
    && (b.extension.Some? ==>
          var x := b.extension.value;
          && |x.pos| == 14 && (forall k :: 0 <= k < 14 ==> |x.pos[k]| == 8)
          && |x.neg| == 14 && (forall k :: 0 <= k < 14 ==> |x.neg[k]| == 8))
  }

  /** The fixed array sizes of the source. */
  type Bitmaps = b: RawBitmaps | WellFormed(b) witness RawBitmaps(seq(16, _ => 0), None)

  /** Rust's `/` and `%`: truncation toward zero. */
  function TruncDiv(a: int, b: int): int
    requires b > 0
  {
    if a >= 0 then a / b else -((-a) / b)
  }

  function TicksPerArray(spacing: u16): i32 {
    TICK_ARRAY_SIZE * Max(spacing, 1)
  }

  function DefaultRange(spacing: u16): i32 {
    DEFAULT_ARRAYS * TicksPerArray(spacing)
  }

  predicate InDefaultBitmap(start: i32, spacing: u16) {
    -DefaultRange(spacing) <= start < DefaultRange(spacing)
  }

  predicate BitSet(words: Words, bit: int)
    requires 0 <= bit < 64 * |words|
  {
    WideMath.Shr(words[bit / 64], bit % 64) % 2 == 1
  }

  /** Where a start index is recorded. */
  datatype Place = Default(bit: int) | Positive(k: int, bit: int) | Negative(k: int, bit: int)

  /** The index arithmetic of `is_initialized`, branch by branch (`abs` overflows on i32::MIN). */
  function Locate(start: i32, spacing: u16): Place
    requires start != -0x8000_0000
  {
    var count := TicksPerArray(spacing);
    var max := DefaultRange(spacing);
    if -max <= start < max then Default(TruncDiv(start, count) + DEFAULT_ARRAYS)
    else
      var abs: i32 := if start < 0 then 0 - start else start;
      if start > 0 then Positive(abs / max - 1, abs % max / count)
      else
        var k := if abs % max == 0 then abs / max - 2 else abs / max - 1;
        Negative(k, if abs % max != 0 then DEFAULT_ARRAYS - abs % max / count else 0)
  }

  ghost predicate InBounds(p: Place) {
    match p
    case Default(bit) => 0 <= bit < 1024
    case Positive(k, bit) => 0 <= k < EXTENSION_BITMAPS && 0 <= bit < 512
    case Negative(k, bit) => 0 <= k < EXTENSION_BITMAPS && 0 <= bit < 512
  }

  /** The layout the bitmaps document: consecutive bits are consecutive arrays, region after
      region; the inverse of `Locate`. */
  function StartOf(p: Place, spacing: u16): int {
    var count, max := TicksPerArray(spacing), DefaultRange(spacing);
    match p
    case Default(bit) => (bit - DEFAULT_ARRAYS) * count
    case Positive(k, bit) => (k + 1) * max + bit * count
    case Negative(k, bit) => -(k + 2) * max + bit * count
  }

  ghost predicate Aligned(start: int, spacing: u16) {
    start % TicksPerArray(spacing) == 0
  }

  function LowestStart(spacing: u16): i32 {
    MIN_TICK / TicksPerArray(spacing) * TicksPerArray(spacing)
  }

  function HighestStart(spacing: u16): i32 {
    MAX_TICK / TicksPerArray(spacing) * TicksPerArray(spacing)
  }

  ghost predicate Legal(start: int, spacing: u16) {
    LowestStart(spacing) <= start <= HighestStart(spacing) && Aligned(start, spacing)
  }

  /** The arithmetic of `Locate` with the start written as n arrays: the spacing is only a
      factor and drops out. */
  lemma LocateArrays(n: int, start: i32, spacing: u16)
    requires start == n * TicksPerArray(spacing) && start != -0x8000_0000
    ensures -512 <= n < 512 ==> Locate(start, spacing) == Default(n + 512)
    ensures n >= 512 ==> Locate(start, spacing) == Positive(n / 512 - 1, n % 512)
    ensures n < -512 ==> Locate(start, spacing) == NegativePlace(-n)
  {
    var c := TicksPerArray(spacing);
    if n < -512 {
      MulLe(n, -513, c);
      assert -start == -n * c;
      SplitBy512(-n, c);
    } else if n < 0 {
      MulLe(-512, n, c);
      MulLe(n, -1, c);
      assert -start == -n * c;
      Quotient(-n, 0, c);
    } else if n < 512 {
      MulLe(n, 511, c);
      MulLe(0, n, c);
      Quotient(n, 0, c);
    } else {
      MulLe(512, n, c);
      SplitBy512(n, c);
    }
  }

  /** The negative-extension place of the array m arrays below tick 0. */
  function NegativePlace(m: nat): Place {
    if m % 512 == 0 then Negative(m / 512 - 2, 0) else Negative(m / 512 - 1, 512 - m % 512)
  }

  lemma Quotient(q: nat, r: nat, d: nat)
    requires r < d
    ensures (q * d + r) / d == q && (q * d + r) % d == r
  {
    var n := q * d + r;
    FloorBounds(n, d);
    var q' := n / d;
    assert n == q' * d + n % d;
    if q' < q {
      MulLe(q' + 1, q, d);
    } else if q' > q {
      MulLe(q + 1, q', d);
    }
  }

  lemma SplitBy512(m: nat, c: nat)
    requires c > 0
    ensures (m * c) / (512 * c) == m / 512 && (m * c) % (512 * c) == m % 512 * c
    ensures (m * c) % (512 * c) / c == m % 512
    ensures (m * c) % (512 * c) == 0 <==> m % 512 == 0
  {
    var q, r := m / 512, m % 512;
    Regroup(q, r, c);
    MulLe(r, 511, c);
    Quotient(q, r * c, 512 * c);
    Quotient(r, 0, c);
    if r > 0 { MulLe(1, r, c); }
  }

  /** Every aligned start in the legal tick range has an in-bounds bit, the documented one:
      `StartOf` takes it back, so the three regions never share a bit. */
  lemma LocateInBounds(start: i32, spacing: u16)
    requires Legal(start, spacing)
    ensures InBounds(Locate(start, spacing)) && StartOf(Locate(start, spacing), spacing) == start
  {
    var c := TicksPerArray(spacing);
    var n := start / c;
    LegalArrays(start, n, spacing);
    LocateArrays(n, start, spacing);
    Relocate(n, c);
  }

  lemma LegalArrays(start: int, n: int, spacing: u16)
    requires Legal(start, spacing) && n == start / TicksPerArray(spacing)
    ensures start == n * TicksPerArray(spacing) && -7394 <= n <= 7393
  {
    var c := TicksPerArray(spacing);
    FloorBounds(MAX_TICK, c);
    FloorBounds(MIN_TICK, c);
    FloorBounds(start, c);
    if n > 7393 {
      MulLe(7394, n, c);
    } else if n < -7394 {
      MulLe(n, -7395, c);
    }
  }

  lemma FloorBounds(x: int, c: int)
    requires c > 0
    ensures x - c < x / c * c <= x && (x % c == 0 ==> x / c * c == x)
  {
    assert x == x / c * c + x % c;
  }

  lemma Relocate(n: int, c: nat)
    ensures n >= 512 ==> n / 512 * (512 * c) + n % 512 * c == n * c
    ensures n < -512 ==> var p := NegativePlace(-n); -(p.k + 2) * (512 * c) + p.bit * c == n * c
  {
    if n >= 512 {
      Regroup(n / 512, n % 512, c);
    } else if n < -512 {
      var p := NegativePlace(-n);
      assert n == -(p.k + 2) * 512 + p.bit;
      Regroup(-(p.k + 2), p.bit, c);
    }
  }

  lemma Regroup(q: int, r: int, c: int)
    ensures q * (512 * c) + r * c == (q * 512 + r) * c
  {
  }

  lemma LocateInjective(s: i32, t: i32, spacing: u16)
    requires Legal(s, spacing) && Legal(t, spacing) && Locate(s, spacing) == Locate(t, spacing)
    ensures s == t
  {
    LocateInBounds(s, spacing);
    LocateInBounds(t, spacing);
  }

  lemma MultipleOf60(q: int, spacing: u16)
    ensures q * TicksPerArray(spacing) % 60 == 0
  {
    assert q * TicksPerArray(spacing) == q * Max(spacing, 1) * 60;
  }

  /** The index stays inside the words of its region; bitmaps beyond the last one are not read. */
  predicate InsideWords(p: Place) {
    match p
    case Default(bit) => 0 <= bit < 1024
    case Positive(k, bit) => 0 <= k && 0 <= bit < 512
    case Negative(k, bit) => 0 <= k && 0 <= bit < 512
  }

  /** In the negative extension, less than one array below a multiple of the default range. */
  predicate JustBelowAnEdge(start: i32, spacing: u16) {
    start < -DefaultRange(spacing) && 0 < -(start as int) % DefaultRange(spacing) < TicksPerArray(spacing)
  }

  /** Which starts are safe, aligned or not: the index arithmetic leaves its words exactly just
      below an edge of the negative extension, where it names bit 512 of a 512-bit bitmap. */
  lemma SafeExactlyOffTheEdges(start: i32, spacing: u16)
    requires start != -0x8000_0000
    ensures InsideWords(Locate(start, spacing)) <==> !JustBelowAnEdge(start, spacing)
    ensures JustBelowAnEdge(start, spacing) ==> Locate(start, spacing).Negative? && Locate(start, spacing).bit == 512
  {
    var c, max := TicksPerArray(spacing), DefaultRange(spacing);
    if -max <= start < max {
      InDefault(start, c);
    } else if start > 0 {
      BeyondDefault(start, c, max);
    } else {
      BeyondDefault(-start, c, max);
    }
  }

  lemma InDefault(start: int, c: nat)
    requires c > 0 && -512 * c <= start < 512 * c
    ensures -512 <= TruncDiv(start, c) < 512
  {
    var x := if start < 0 then -start else start;
    FloorBounds(x, c);
    if x / c > 512 {
      MulLe(513, x / c, c);
    } else if x / c == 512 {
      assert x >= 512 * c;
    }
  }

  /** The in-bitmap part of an index outside the default range, `x` ticks from tick 0. */
  lemma BeyondDefault(x: nat, c: nat, max: nat)
    requires c > 0 && max == 512 * c && x >= max
    ensures x / max >= 1 && (x % max == 0 && x > max ==> x / max >= 2)
    ensures 0 <= x % max / c < 512 && (x % max / c == 0 <==> x % max < c)
  {
    FloorBounds(x, max);
    if x / max < 1 {
      MulLe(x / max, 0, max);
    } else if x / max == 1 {
      assert x / max * max == max;
    }
    var m := x % max;
    FloorBounds(m, c);
    if m / c > 511 {
      MulLe(512, m / c, c);
    } else if m / c >= 1 {
      MulLe(1, m / c, c);
    }
  }

  /** An aligned start is never just below an edge. */
  lemma AlignedIsSafe(start: i32, spacing: u16)
    requires Aligned(start, spacing)
    ensures start != -0x8000_0000 && !JustBelowAnEdge(start, spacing)
  {
    var c := TicksPerArray(spacing);
    FloorBounds(start, c);
    MultipleOf60(start / c, spacing);
    LocateArrays(start / c, start, spacing);
    SafeExactlyOffTheEdges(start, spacing);
  }

  /** One tick below the second negative range, for instance. */
  lemma UnalignedStartLeavesTheBitmap()
    ensures Locate(-2 * DefaultRange(1) - 1, 1) == Negative(1, 512)
  {
  }

  /** The starts that the source can be asked about: without an extension it stops before the
      arithmetic, otherwise `abs` must not overflow and the bit must be in the bitmap that is read. */
  predicate Answerable(b: Bitmaps, start: i32, spacing: u16) {
    || b.extension.None?
    || (start != -0x8000_0000 &&
        (JustBelowAnEdge(start, spacing) ==>
           Locate(start, spacing).Negative? && Locate(start, spacing).k >= EXTENSION_BITMAPS))
  }

  /** `is_initialized`; None when the bit lives in an extension that was not loaded. The
      source's `k < 14` fallback is kept: it answers for starts beyond the legal ticks. */
  function IsInitialized(b: Bitmaps, start: i32, spacing: u16): (r: Option<bool>)
    requires Answerable(b, start, spacing)
    ensures r.None? <==> b.extension.None? && !InDefaultBitmap(start, spacing)
  {
    if b.extension.None? && !InDefaultBitmap(start, spacing) then None
    else
      SafeExactlyOffTheEdges(start, spacing);
      match Locate(start, spacing)
      case Default(bit) => Some(BitSet(b.default, bit))
      case Positive(k, bit) => Some(k < EXTENSION_BITMAPS && BitSet(b.extension.value.pos[k], bit))
      case Negative(k, bit) => Some(k < EXTENSION_BITMAPS && BitSet(b.extension.value.neg[k], bit))
  }

  /** `tick_array_start_index`: the floor, also below zero. */
  function TickArrayStart(tick: int, spacing: u16): i32
    requires spacing > 0 && MIN_TICK <= tick <= MAX_TICK
  {
    FloorBounds(tick, TicksPerArray(spacing));
    tick / TicksPerArray(spacing) * TicksPerArray(spacing)
  }

  /** The array of a legal tick is a legal start and holds the tick. */
  lemma StartHoldsTick(tick: int, spacing: u16)
    requires spacing > 0 && MIN_TICK <= tick <= MAX_TICK
    ensures var s := TickArrayStart(tick, spacing); Legal(s, spacing) && s <= tick < s + TicksPerArray(spacing)
  {
    var c := TicksPerArray(spacing);
    FloorBounds(tick, c);
    MultipleOf(tick / c, c);
    FloorOrder(MIN_TICK, tick, c);
    FloorOrder(tick, MAX_TICK, c);
  }

  lemma MultipleOf(q: int, c: int)
    requires c > 0
    ensures q * c % c == 0
  {
    var n := q * c;
    FloorBounds(n, c);
    if n / c < q {
      MulLe(n / c + 1, q, c);
    }
  }

  lemma FloorOrder(x: int, y: int, c: int)
    requires c > 0 && x <= y
    ensures x / c * c <= y / c * c
  {
    FloorBounds(x, c);
    FloorBounds(y, c);
    if x / c > y / c {
      MulLe(y / c + 1, x / c, c);
    } else {
      MulLe(x / c, y / c, c);
    }
  }

  // ---------------------------------------------------------------- search, by array number

  /** The start of array number `n` (array 0 starts at tick 0). */
  function At(n: int, spacing: u16): int {
    n * TicksPerArray(spacing)
  }

  predicate LegalArray(n: int, spacing: u16) {
    MIN_TICK / TicksPerArray(spacing) <= n <= MAX_TICK / TicksPerArray(spacing)
  }

  lemma LegalAt(n: int, spacing: u16)
    ensures LegalArray(n, spacing) <==> LowestStart(spacing) <= At(n, spacing) <= HighestStart(spacing)
    ensures LegalArray(n, spacing) ==> Aligned(At(n, spacing), spacing) && -8_000_000 < At(n, spacing) < 8_000_000
    ensures InDefaultRange(n) <==> -DefaultRange(spacing) <= At(n, spacing) < DefaultRange(spacing)
  {
    var c := TicksPerArray(spacing);
    Order(n, MAX_TICK / c, c);
    Order(MIN_TICK / c, n, c);
    FloorBounds(MIN_TICK, c);
    FloorBounds(MAX_TICK, c);
    MultipleOf(n, c);
    Order(-512, n, c);
    Order(512, n, c);
  }

  lemma Order(a: int, b: int, c: int)
    requires c > 0
    ensures a <= b <==> a * c <= b * c
  {
    if a <= b {
      MulLe(a, b, c);
    } else {
      MulLe(b + 1, a, c);
    }
  }

  predicate InDefaultRange(n: int) {
    -DEFAULT_ARRAYS <= n < DEFAULT_ARRAYS
  }

  function LowestArray(spacing: u16): int {
    MIN_TICK / TicksPerArray(spacing)
  }

  function HighestArray(spacing: u16): int {
    MAX_TICK / TicksPerArray(spacing)
  }

  /** What the bitmaps say about array `n`. */
  function ArrayStatus(b: Bitmaps, n: int, spacing: u16): Option<bool>
    requires LegalArray(n, spacing)
  {
    LegalAt(n, spacing);
    AlignedIsSafe(At(n, spacing), spacing);
    IsInitialized(b, At(n, spacing), spacing)
  }

  function StatusOf(b: Bitmaps, spacing: u16): Status {
    n => if LegalArray(n, spacing) then ArrayStatus(b, n, spacing) else None
  }

  /** The hits of the search from array `n`, before the cut at `max`. */
  function ArrayHits(b: Bitmaps, n: int, spacing: u16, zeroForOne: bool): seq<int> {
    Hits(StatusOf(b, spacing), n, LowestArray(spacing), HighestArray(spacing), zeroForOne)
  }

  function Starts(ns: seq<int>, spacing: u16): (r: seq<int>)
    ensures |r| == |ns| && forall i :: 0 <= i < |ns| ==> r[i] == At(ns[i], spacing)
  {
    seq(|ns|, i requires 0 <= i < |ns| => At(ns[i], spacing))
  }

  function Step(spacing: u16, zeroForOne: bool): i32 {
    if zeroForOne then -TicksPerArray(spacing) else TicksPerArray(spacing)
  }

  /** `initialized_starts`: from any aligned start it returns the starts of the first `max` hits
      (none when it begins outside the legal range). */
  method InitializedStarts(b: Bitmaps, spacing: u16, current: i32, zeroForOne: bool, max: nat) returns (out: seq<int>)
    requires Aligned(current, spacing)
    ensures var hits := ArrayHits(b, current / TicksPerArray(spacing), spacing, zeroForOne);
            out == Starts(hits[..Min(|hits|, max)], spacing)
    ensures forall i :: 0 <= i < |out| ==> if zeroForOne then out[i] <= current else out[i] >= current
    ensures forall i, j :: 0 <= i < j < |out| ==> if zeroForOne then out[i] > out[j] else out[i] < out[j]
  {
    var lo, hi, step := LowestStart(spacing), HighestStart(spacing), Step(spacing, zeroForOne);
    out := [];
    var start: i32 := current;
    ghost var n := current / TicksPerArray(spacing);
    FloorBounds(current, TicksPerArray(spacing));
    ghost var hits := ArrayHits(b, n, spacing, zeroForOne);
    ghost var found: seq<int> := [];
    assert found + hits == hits;
    while lo <= start <= hi && |out| < max
      invariant start == At(n, spacing)
      invariant |found| <= max && out == Starts(found, spacing)
      invariant found + ArrayHits(b, n, spacing, zeroForOne) == hits
      decreases if zeroForOne then start - lo + 1 else hi - start + 1
    {
      ScanStep(b, n, spacing, zeroForOne);
      var init := IsInitialized(b, start, spacing);
      if init.None? {
        break;
      }
      Append(found, n, ArrayHits(b, Ahead(n, zeroForOne), spacing, zeroForOne));
      if init.value {
        StartsSnoc(found, n, spacing);
        out := out + [start];
        found := found + [n];
      }
      start := start + step;
      n := Ahead(n, zeroForOne);
    }
    ScanEnd(b, n, spacing, zeroForOne);
    Prefix(found, ArrayHits(b, n, spacing, zeroForOne), max);
    FoundAhead(b, current / TicksPerArray(spacing), spacing, zeroForOne, found);
  }

  lemma FoundAhead(b: Bitmaps, n: int, spacing: u16, zeroForOne: bool, found: seq<int>)
    requires found <= ArrayHits(b, n, spacing, zeroForOne)
    ensures forall i :: 0 <= i < |found| ==>
              if zeroForOne then At(found[i], spacing) <= At(n, spacing) else At(found[i], spacing) >= At(n, spacing)
    ensures forall i, j :: 0 <= i < j < |found| ==>
              if zeroForOne then At(found[i], spacing) > At(found[j], spacing)
              else At(found[i], spacing) < At(found[j], spacing)
  {
    var hits := ArrayHits(b, n, spacing, zeroForOne);
    if LegalArray(n, spacing) {
      HitsAreAhead(StatusOf(b, spacing), n, LowestArray(spacing), HighestArray(spacing), zeroForOne);
    }
    forall i | 0 <= i < |found|
      ensures if zeroForOne then At(found[i], spacing) <= At(n, spacing) else At(found[i], spacing) >= At(n, spacing)
    {
      assert found[i] == hits[i] && hits[i] in hits;
      Order(found[i], n, TicksPerArray(spacing));
      Order(n, found[i], TicksPerArray(spacing));
    }
    forall i, j | 0 <= i < j < |found|
      ensures if zeroForOne then At(found[i], spacing) > At(found[j], spacing)
              else At(found[i], spacing) < At(found[j], spacing)
    {
      assert found[i] == hits[i] && found[j] == hits[j];
      Order(found[i], found[j], TicksPerArray(spacing));
      Order(found[j], found[i], TicksPerArray(spacing));
    }
  }

  lemma Append(found: seq<int>, n: int, rest: seq<int>)
    ensures found + ([n] + rest) == (found + [n]) + rest && found + ([] + rest) == found + rest
  {
  }

  lemma Prefix(found: seq<int>, rest: seq<int>, max: nat)
    requires |found| <= max && (|found| < max ==> rest == [])
    ensures var hits := found + rest; found == hits[..Min(|hits|, max)]
  {
  }

  lemma StartsSnoc(ns: seq<int>, n: int, spacing: u16)
    ensures Starts(ns + [n], spacing) == Starts(ns, spacing) + [At(n, spacing)]
  {
  }

  lemma ScanEnd(b: Bitmaps, n: int, spacing: u16, zeroForOne: bool)
    ensures !(LowestStart(spacing) <= At(n, spacing) <= HighestStart(spacing)) ==>
            ArrayHits(b, n, spacing, zeroForOne) == []
  {
    LegalAt(n, spacing);
  }

  /** One iteration: the next start is one array ahead, in i32, and the hits unfold. */
  lemma ScanStep(b: Bitmaps, n: int, spacing: u16, zeroForOne: bool)
    requires LowestStart(spacing) <= At(n, spacing) <= HighestStart(spacing)
    ensures -8_000_000 < At(n, spacing) < 8_000_000 && Answerable(b, At(n, spacing), spacing)
    ensures At(Ahead(n, zeroForOne), spacing) == At(n, spacing) + Step(spacing, zeroForOne)
    ensures -0x8000_0000 <= At(n, spacing) + Step(spacing, zeroForOne) < 0x8000_0000
    ensures ArrayHits(b, n, spacing, zeroForOne) ==
            match IsInitialized(b, At(n, spacing), spacing)
            case None => []
            case Some(isSet) => (if isSet then [n] else []) + ArrayHits(b, Ahead(n, zeroForOne), spacing, zeroForOne)
  {
    LegalAt(n, spacing);
    AlignedIsSafe(At(n, spacing), spacing);
    HitsStep(StatusOf(b, spacing), n, LowestArray(spacing), HighestArray(spacing), zeroForOne);
    NextAt(n, spacing, zeroForOne);
  }

  lemma NextAt(n: int, spacing: u16, zeroForOne: bool)
    ensures At(Ahead(n, zeroForOne), spacing) == At(n, spacing) + Step(spacing, zeroForOne)
  {
  }

  /** What the caller gets from the search: initialized arrays only, nearest first, and an
      initialized array in swap direction is left out only behind `max` nearer ones, or when
      no extension is loaded and the current array is itself outside the default bitmap. */
  lemma SearchIsComplete(b: Bitmaps, spacing: u16, n: int, zeroForOne: bool, max: nat, x: int)
    requires LegalArray(n, spacing) && LegalArray(x, spacing) && !Beyond(n, x, zeroForOne)
    ensures var hits := ArrayHits(b, n, spacing, zeroForOne);
            var out := hits[..Min(|hits|, max)];
            && NearestFirst(out, zeroForOne)
            && (x in out ==> ArrayStatus(b, x, spacing) == Some(true))
            && (ArrayStatus(b, x, spacing) == Some(true) && x !in out ==>
                  (|out| == max && forall y :: y in out ==> Beyond(x, y, zeroForOne))
                  || (b.extension.None? && !InDefaultRange(n)))
  {
    var st := StatusOf(b, spacing);
    HitsAreComplete(st, n, LowestArray(spacing), HighestArray(spacing), zeroForOne, max, x);
    StatusKnown(b, x, spacing);
    if y :| st(y).None? && !Beyond(n, y, zeroForOne) && !Beyond(y, x, zeroForOne) {
      assert LegalArray(y, spacing);
      StatusKnown(b, y, spacing);
    }
  }

  /** An array is unknown exactly when it needs an extension that is not loaded. */
  lemma StatusKnown(b: Bitmaps, n: int, spacing: u16)
    requires LegalArray(n, spacing)
    ensures ArrayStatus(b, n, spacing).None? <==> b.extension.None? && !InDefaultRange(n)
  {
    LegalAt(n, spacing);
  }

  // ---------------------------------------------------------------- which stored bit is read

  /** Binary digit `i` of a bitmap: of word i / 64, the digit of weight 2^(i mod 64). */
  function Digit(words: Words, i: int): nat
    requires 0 <= i < 64 * |words|
  {
    words[i / 64] / WideMath.Pow2(i % 64) % 2
  }

  lemma {:induction false} ShrIsQuotient(x: nat, k: nat)
    ensures WideMath.Shr(x, k) == x / WideMath.Pow2(k)
  {
    if k > 0 {
      ShrIsQuotient(x, k - 1);
      HalfQuotient(x, WideMath.Pow2(k - 1));
    }
  }

  lemma HalfQuotient(x: nat, p: nat)
    requires p > 0
    ensures x / p / 2 == x / (2 * p)
  {
    var q, r := x / p, x % p;
    assert x == q * p + r;
    assert q == q / 2 * 2 + q % 2;
    assert q * p == q / 2 * (2 * p) + q % 2 * p by { assert q * p == (q / 2 * 2 + q % 2) * p; }
    assert q % 2 == 0 || q % 2 == 1;
    Quotient(q / 2, q % 2 * p + r, 2 * p);
  }

  lemma BitIsDigit(words: Words, i: int)
    requires 0 <= i < 64 * |words|
    ensures BitSet(words, i) <==> Digit(words, i) == 1
  {
    ShrIsQuotient(words[i / 64], i % 64);
  }

  /** The layout: array n is digit n + 512 of the default bitmap; above it digit n mod 512 of the
      positive bitmap of its range of 512 arrays, below it of the negative one; unknown without an
      extension. */
  lemma StoredBit(b: Bitmaps, n: int, spacing: u16)
    requires LegalArray(n, spacing)
    ensures -7394 <= n <= 7393
    ensures ArrayStatus(b, n, spacing) ==
            if -512 <= n < 512 then Some(Digit(b.default, n + 512) == 1)
            else if b.extension.None? then None
            else if n >= 512 then Some(Digit(b.extension.value.pos[n / 512 - 1], n % 512) == 1)
            else Some(Digit(b.extension.value.neg[(-n - 1) / 512 - 1], n % 512) == 1)
  {
    LegalAt(n, spacing);
    AlignedIsSafe(At(n, spacing), spacing);
    LocateArrays(n, At(n, spacing), spacing);
    LegalNumber(n, spacing);
    if -512 <= n < 512 {
      BitIsDigit(b.default, n + 512);
    } else if b.extension.Some? {
      FarIndex(n);
      StoredFarAway(b, n, At(n, spacing), spacing, if n >= 512 then n / 512 - 1 else (-n - 1) / 512 - 1, n % 512);
    }
  }

  lemma LegalNumber(n: int, spacing: u16)
    requires LegalArray(n, spacing)
    ensures -7394 <= n <= 7393
  {
    LegalAt(n, spacing);
    MultipleOf(n, TicksPerArray(spacing));
    Quotient60(n, TicksPerArray(spacing));
    LegalArrays(At(n, spacing), n, spacing);
  }

  lemma Quotient60(n: int, c: int)
    requires c > 0
    ensures n * c / c == n
  {
    FloorBounds(n * c, c);
    MultipleOf(n, c);
    Order(n * c / c, n, c);
    Order(n, n * c / c, c);
  }

  lemma FarIndex(n: int)
    requires 512 <= n <= 7393 || -7394 <= n < -512
    ensures 0 <= n % 512 < 512
    ensures n >= 512 ==> 0 <= n / 512 - 1 < 14 && n == 512 * (n / 512) + n % 512
    ensures n < -512 ==> 0 <= (-n - 1) / 512 - 1 < 14 && n == n % 512 - 512 * ((-n - 1) / 512 + 1)
  {
  }

  lemma StoredFarAway(b: Bitmaps, n: int, start: i32, spacing: u16, k: int, i: int)
    requires LegalArray(n, spacing) && b.extension.Some? && !InDefaultRange(n) && 0 <= k < 14 && 0 <= i < 512
    requires start == At(n, spacing) && start != -0x8000_0000
    requires Locate(start, spacing) == if n >= 512 then Positive(k, i) else Negative(k, i)
    ensures ArrayStatus(b, n, spacing) ==
            Some(Digit(if n >= 512 then b.extension.value.pos[k] else b.extension.value.neg[k], i) == 1)
  {
    BitIsDigit(b.extension.value.pos[k], i);
    BitIsDigit(b.extension.value.neg[k], i);
  }

  /** Exactly the digit of array `x` is 1: bitmap k of the positive side starts at array 512 (k + 1),
      of the negative side at array -512 (k + 2). */
  ghost predicate OnlyArray(b: Bitmaps, x: int) {
    && b.extension.Some?
    && (forall i :: 0 <= i < 1024 ==> (Digit(b.default, i) == 1 <==> x == i - 512))
    && (forall k, i :: 0 <= k < 14 && 0 <= i < 512 ==>
          (Digit(b.extension.value.pos[k], i) == 1 <==> x == 512 * (k + 1) + i))
    && (forall k, i :: 0 <= k < 14 && 0 <= i < 512 ==>
          (Digit(b.extension.value.neg[k], i) == 1 <==> x == i - 512 * (k + 2)))
  }

  lemma OnlyStatus(b: Bitmaps, spacing: u16, x: int, n: int)
    requires OnlyArray(b, x) && LegalArray(n, spacing)
    ensures ArrayStatus(b, n, spacing) == Some(n == x)
  {
    StoredBit(b, n, spacing);
    if !InDefaultRange(n) {
      FarIndex(n);
    }
  }

  /** A pool with one initialized array: the search finds that array, from wherever it does not lie
      behind, and nothing else. */
  lemma OnlyArrayIsFound(b: Bitmaps, spacing: u16, x: int, n: int, zeroForOne: bool, max: nat)
    requires OnlyArray(b, x) && LegalArray(x, spacing) && LegalArray(n, spacing) && max > 0
    ensures var hits := ArrayHits(b, n, spacing, zeroForOne);
            Starts(hits[..Min(|hits|, max)], spacing) ==
            if (if zeroForOne then x <= n else x >= n) then [At(x, spacing)] else []
  {
    var hits := ArrayHits(b, n, spacing, zeroForOne);
    var out := hits[..Min(|hits|, max)];
    OnlyHit(b, spacing, x, n, zeroForOne, max);
    if !Beyond(n, x, zeroForOne) {
      assert out == [x];
      assert Starts([x], spacing) == [At(x, spacing)];
    } else {
      assert out == [];
    }
  }

  lemma OnlyHit(b: Bitmaps, spacing: u16, x: int, n: int, zeroForOne: bool, max: nat)
    requires OnlyArray(b, x) && LegalArray(x, spacing) && LegalArray(n, spacing) && max > 0
    ensures var hits := ArrayHits(b, n, spacing, zeroForOne);
            hits[..Min(|hits|, max)] == if Beyond(n, x, zeroForOne) then [] else [x]
  {
    var hits := ArrayHits(b, n, spacing, zeroForOne);
    var out := hits[..Min(|hits|, max)];
    HitsAreAhead(StatusOf(b, spacing), n, LowestArray(spacing), HighestArray(spacing), zeroForOne);
    forall i | 0 <= i < |hits|
      ensures hits[i] == x && !Beyond(n, x, zeroForOne)
    {
      assert hits[i] in hits;
      OnlyStatus(b, spacing, x, hits[i]);
    }
    AtMostOnce(hits, x, zeroForOne);
    assert hits == if |hits| == 0 then [] else [x];
    assert out == hits;
    if !Beyond(n, x, zeroForOne) {
      SearchIsComplete(b, spacing, n, zeroForOne, max, x);
      OnlyStatus(b, spacing, x, x);
      assert x in out;
    }
  }

  lemma AtMostOnce(ns: seq<int>, x: int, down: bool)
    requires NearestFirst(ns, down) && forall i :: 0 <= i < |ns| ==> ns[i] == x
    ensures |ns| <= 1
  {
    assert |ns| > 1 ==> Beyond(ns[1], ns[0], down);
  }

  // ---------------------------------------------------------------- fallback scan

  /** `needs_bitmap_extension` (computed in i64 in the source; a zero spacing is not bumped to 1). */
  predicate NeedsExtension(tick: int, spacing: u16, scan: int) {
    var size := TICK_ARRAY_SIZE * spacing;
    (if tick < 0 then -tick else tick) + (scan + 1) * size >= DEFAULT_ARRAYS * size
  }

  /** When no extension is asked for, none is needed: every candidate of the fallback scan
      (`tick_array_candidates`) lies in the default bitmap. */
  lemma FallbackStaysInDefault(tick: int, spacing: u16, zeroForOne: bool, k: int)
    requires MIN_TICK <= tick <= MAX_TICK && !NeedsExtension(tick, spacing, SCAN) && 0 <= k < SCAN
    ensures spacing > 0
    ensures var s := TickArrayStart(tick, spacing) + k * Step(spacing, zeroForOne);
            -DefaultRange(spacing) <= s < DefaultRange(spacing)
  {
    var c := TICK_ARRAY_SIZE * spacing;
    assert spacing > 0;
    assert TicksPerArray(spacing) == c;
    FloorBounds(tick, c);
    MulLe(k, 9, c);
    MulLe(0, k, c);
    assert k * (-c) == -(k * c);
  }

  /** It is asked for exactly when moving one array more than is scanned, either way, reaches the
      edge of the default range; with a spacing of 0 always. */
  lemma ExtensionNeededExactly(tick: int, spacing: u16)
    ensures !NeedsExtension(tick, spacing, SCAN) <==>
            spacing > 0 && -DefaultRange(spacing) < tick - 11 * TicksPerArray(spacing) &&
            tick + 11 * TicksPerArray(spacing) < DefaultRange(spacing)
  {
    var c := TICK_ARRAY_SIZE * spacing;
    assert spacing > 0 ==> TicksPerArray(spacing) == c;
  }
}
