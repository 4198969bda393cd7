/** A scan over numbered cells in one direction, as a filter: the naive specification of the
    tick-array search, free of tick arithmetic. */
module DirectedScan {
  import opened Base

  /** A cell is set, clear, or (None) not known. */
  type Status = int -> Option<bool>

  function Ahead(n: int, down: bool): int {
    if down then n - 1 else n + 1
  }

  /** `x` is farther in scan direction than `y`. */
  predicate Beyond(x: int, y: int, down: bool) {
    if down then x < y else x > y
  }

  /** Every cell of lo..hi from `n` on, in scan direction. */
  function Walk(n: int, lo: int, hi: int, down: bool): seq<int>
    decreases if down then n - lo + 1 else hi - n + 1
  {
    if lo <= n <= hi then [n] + Walk(Ahead(n, down), lo, hi, down) else []
  }

  /** The naive filter: every cell that is set. */
  function Filter(st: Status, ns: seq<int>): (r: seq<int>)
    ensures forall x :: x in r <==> x in ns && st(x) == Some(true)
  {
    if ns == [] then [] else (if st(ns[0]) == Some(true) then [ns[0]] else []) + Filter(st, ns[1..])
  }

  /** `ns` up to the first unknown cell. */
  function Known(st: Status, ns: seq<int>): (r: seq<int>)
    ensures r <= ns
    ensures |r| < |ns| ==> st(ns[|r|]).None?
    ensures forall x :: x in r ==> st(x).Some?
  {
    if ns == [] || st(ns[0]).None? then [] else [ns[0]] + Known(st, ns[1..])
  }

  function Hits(st: Status, n: int, lo: int, hi: int, down: bool): seq<int> {
    Filter(st, Known(st, Walk(n, lo, hi, down)))
  }

  lemma HitsStep(st: Status, n: int, lo: int, hi: int, down: bool)
    requires lo <= n <= hi
    ensures Hits(st, n, lo, hi, down) ==
            match st(n)
            case None => []
            case Some(isSet) => (if isSet then [n] else []) + Hits(st, Ahead(n, down), lo, hi, down)
  {
    var walk := Walk(n, lo, hi, down);
    assert walk[0] == n && walk[1..] == Walk(Ahead(n, down), lo, hi, down);
    var known := Known(st, walk);
    if st(n).Some? {
      assert known[0] == n && known[1..] == Known(st, walk[1..]);
    }
  }

  ghost predicate NearestFirst(ns: seq<int>, down: bool) {
    forall i, j :: 0 <= i < j < |ns| ==> Beyond(ns[j], ns[i], down)
  }

  /** The walk is exactly the cells of lo..hi not behind `n`, nearest first. */
  lemma {:induction false} WalkIsEverything(n: int, lo: int, hi: int, down: bool)
    ensures NearestFirst(Walk(n, lo, hi, down), down)
    ensures forall x :: x in Walk(n, lo, hi, down) ==> lo <= x <= hi && !Beyond(n, x, down)
    ensures lo <= n <= hi ==> forall x :: lo <= x <= hi && !Beyond(n, x, down) ==> x in Walk(n, lo, hi, down)
    decreases if down then n - lo + 1 else hi - n + 1
  {
    if lo <= n <= hi {
      var next := Ahead(n, down);
      WalkIsEverything(next, lo, hi, down);
      var rest := Walk(next, lo, hi, down);
      assert Walk(n, lo, hi, down) == [n] + rest;
      forall j | 0 <= j < |rest|
        ensures Beyond(rest[j], n, down)
      {
        assert rest[j] in rest;
      }
      assert forall x :: lo <= x <= hi && !Beyond(n, x, down) ==> x == n || x in rest;
    }
  }

  lemma {:induction false} FilterSorted(st: Status, ns: seq<int>, down: bool)
    requires NearestFirst(ns, down)
    ensures NearestFirst(Filter(st, ns), down)
  {
    if ns == [] {
    } else {
      var tail := ns[1..];
      FilterSorted(st, tail, down);
      var rest := Filter(st, tail);
      forall j | 0 <= j < |rest|
        ensures Beyond(rest[j], ns[0], down)
      {
        assert rest[j] in tail;
        var k :| 0 <= k < |tail| && tail[k] == rest[j];
        assert ns[k + 1] == rest[j];
      }
      assert Filter(st, ns) == rest || Filter(st, ns) == [ns[0]] + rest;
    }
  }

  lemma HitsAreAhead(st: Status, n: int, lo: int, hi: int, down: bool)
    requires lo <= n <= hi
    ensures var hits := Hits(st, n, lo, hi, down);
            && NearestFirst(hits, down)
            && forall x :: x in hits ==> lo <= x <= hi && !Beyond(n, x, down) && st(x) == Some(true)
  {
    var walk := Walk(n, lo, hi, down);
    WalkIsEverything(n, lo, hi, down);
    var known := Known(st, walk);
    assert NearestFirst(known, down);
    FilterSorted(st, known, down);
    forall x | x in known
      ensures x in walk
    {
      var k :| 0 <= k < |known| && known[k] == x;
      assert walk[k] == x;
    }
  }

  /** The first `max` hits are set cells, nearest first, and a set cell in scan direction is
      left out only behind `max` nearer ones or behind an unknown cell. */
  lemma HitsAreComplete(st: Status, n: int, lo: int, hi: int, down: bool, max: nat, x: int)
    requires lo <= n <= hi
    ensures var hits := Hits(st, n, lo, hi, down);
            var out := hits[..Min(|hits|, max)];
            && NearestFirst(out, down)
            && (x in out ==> lo <= x <= hi && !Beyond(n, x, down) && st(x) == Some(true))
            && (lo <= x <= hi && !Beyond(n, x, down) && st(x) == Some(true) && x !in out ==>
                  (|out| == max && forall y :: y in out ==> Beyond(x, y, down))
                  || exists y :: st(y).None? && !Beyond(n, y, down) && !Beyond(y, x, down))
  {
    var walk := Walk(n, lo, hi, down);
    var known := Known(st, walk);
    var hits := Hits(st, n, lo, hi, down);
    var out := hits[..Min(|hits|, max)];
    WalkIsEverything(n, lo, hi, down);
    assert NearestFirst(known, down);
    FilterSorted(st, known, down);
    assert forall y :: y in out ==> y in hits;
    if x in hits && x !in out {
      LeftOutIsFarther(hits, max, down, x);
    } else if x in walk && x !in known {
      CutBefore(walk, known, down, x);
      var cut := walk[|known|];
      assert st(cut).None? && cut in walk && !Beyond(cut, x, down);
    }
  }

  lemma LeftOutIsFarther(hits: seq<int>, max: nat, down: bool, x: int)
    requires NearestFirst(hits, down) && x in hits && x !in hits[..Min(|hits|, max)]
    ensures |hits| > max && forall y :: y in hits[..max] ==> Beyond(x, y, down)
  {
    var out := hits[..Min(|hits|, max)];
    var k :| 0 <= k < |hits| && hits[k] == x;
    assert forall i :: 0 <= i < |out| ==> hits[i] == out[i] && hits[i] in out;
  }

  lemma CutBefore(walk: seq<int>, known: seq<int>, down: bool, x: int)
    requires NearestFirst(walk, down) && known <= walk && x in walk && x !in known
    ensures |known| < |walk| && !Beyond(walk[|known|], x, down)
  {
    var k :| 0 <= k < |walk| && walk[k] == x;
    assert forall i :: 0 <= i < |known| ==> walk[i] == known[i] && walk[i] in known;
    assert k > |known| ==> Beyond(walk[k], walk[|known|], down);
  }
}
