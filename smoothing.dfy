/**
 * `stabilize_intersections` of `GridDetection.py`: the module-level
 * `intersection_history` maps a 10-pixel bucket `(x // 10, y // 10)` to
 * a running average of the points seen in it and a count capped by the
 * "Stability Factor" trackbar. A point in a new bucket is stored and
 * shown as it is; a point in a known bucket moves the bucket's average
 * towards it, and the average is shown.
 */
module Smoothing {
  import opened Common
  import opened Lattice

  type Key = (int, int)

  /** `(prev_x, prev_y, count)`. */
  datatype Entry = Entry(x: int, y: int, count: int)

  type History = map<Key, Entry>

  /** The bucket of a point. */
  function KeyOf(p: Point): Key
  {
    (FloorDiv(p.0, 10), FloorDiv(p.1, 10))
  }

  /** Counts never drop below zero, so `count + 1` is never a zero divisor. */
  predicate CountsNonNeg(h: History)
  {
    forall k :: k in h ==> h[k].count >= 0
  }

  function Min(a: int, b: int): int
  {
    if a < b then a else b
  }

  /** `(prev * count + v) // (count + 1)`. */
  function Average(prev: int, count: int, v: int): int
    requires count >= 0
  {
    FloorDiv(prev * count + v, count + 1)
  }

  /** One pass of the loop: the new history and the point shown. */
  function SmoothPoint(h: History, p: Point, stabilityFactor: nat): (r: (History, Point))
    requires CountsNonNeg(h)
    ensures CountsNonNeg(r.0)
  {
    var key := KeyOf(p);
    if key in h then
      var e := h[key];
      var nx := Average(e.x, e.count, p.0);
      var ny := Average(e.y, e.count, p.1);
      (h[key := Entry(nx, ny, Min(e.count + 1, stabilityFactor))], (nx, ny))
    else (h[key := Entry(p.0, p.1, 1)], p)
  }

  /** The loop over `ps`: the history after it and the points shown, one per input point. */
  function Smooth(h: History, ps: seq<Point>, stabilityFactor: nat): (r: (History, seq<Point>))
    requires CountsNonNeg(h)
    ensures CountsNonNeg(r.0) && |r.1| == |ps|
  {
    if |ps| == 0 then (h, [])
    else
      var before := Smooth(h, ps[..|ps| - 1], stabilityFactor);
      var step := SmoothPoint(before.0, ps[|ps| - 1], stabilityFactor);
      (step.0, before.1 + [step.1])
  }

  /** A weighted mean of `prev` (weight `count`) and `v` (weight 1), rounded down, lies between the two. */
  lemma AverageBetween(prev: int, count: int, v: int)
    requires count >= 0
    ensures Min(prev, v) <= Average(prev, count, v) <= (if prev < v then v else prev)
  {
    var lo, hi := Min(prev, v), if prev < v then v else prev;
    MulNonNeg(prev - lo, count);
    MulNonNeg(hi - prev, count);
    assert (prev - lo) * count == prev * count - lo * count;
    assert (hi - prev) * count == hi * count - prev * count;
    assert (count + 1) * lo == lo * count + lo;
    assert (count + 1) * hi == hi * count + hi;
    DivBetween(prev * count + v, count + 1, lo, hi);
  }

  /**
   * A point in a new bucket is stored with count 1 and shown unchanged;
   * in a known bucket, each shown coordinate lies between the bucket's
   * average and the point's own, is what is stored, and the count grows
   * by one up to the stability factor. Only the point's bucket changes,
   * and no bucket is removed.
   */
  lemma SmoothPointSpec(h: History, p: Point, stabilityFactor: nat)
    requires CountsNonNeg(h)
    ensures var (h', q) := SmoothPoint(h, p, stabilityFactor);
            var key := KeyOf(p);
            h'.Keys == h.Keys + {key} &&
            (forall k :: k in h && k != key ==> h'[k] == h[k]) &&
            (key !in h ==> q == p && h'[key] == Entry(p.0, p.1, 1)) &&
            (key in h ==>
               var e := h[key];
               Min(e.x, p.0) <= q.0 <= (if e.x < p.0 then p.0 else e.x) &&
               Min(e.y, p.1) <= q.1 <= (if e.y < p.1 then p.1 else e.y) &&
               h'[key] == Entry(q.0, q.1, Min(e.count + 1, stabilityFactor)))
  {
    var key := KeyOf(p);
    if key in h {
      AverageBetween(h[key].x, h[key].count, p.0);
      AverageBetween(h[key].y, h[key].count, p.1);
    }
  }

  /** The buckets of the points `ps`. */
  function Buckets(ps: seq<Point>): set<Key>
  {
    if |ps| == 0 then {} else Buckets(ps[..|ps| - 1]) + {KeyOf(ps[|ps| - 1])}
  }

  /** A bucket is among `Buckets(ps)` exactly when some point of `ps` falls in it. */
  lemma {:induction false} BucketsOf(ps: seq<Point>, key: Key)
    ensures key in Buckets(ps) <==> exists k :: 0 <= k < |ps| && KeyOf(ps[k]) == key
    decreases |ps|
  {
    if |ps| > 0 {
      var init := ps[..|ps| - 1];
      BucketsOf(init, key);
      if exists k :: 0 <= k < |init| && KeyOf(init[k]) == key {
        var k :| 0 <= k < |init| && KeyOf(init[k]) == key;
        assert KeyOf(ps[k]) == key;
      }
      if exists k :: 0 <= k < |ps| && KeyOf(ps[k]) == key {
        var k :| 0 <= k < |ps| && KeyOf(ps[k]) == key;
        if k < |init| {
          assert KeyOf(init[k]) == key;
        }
      }
    }
  }

  /**
   * After a frame the history holds the buckets it held and those of the
   * frame's points, and no other: no bucket is ever forgotten.
   */
  lemma {:induction false} SmoothKeys(h: History, ps: seq<Point>, stabilityFactor: nat)
    requires CountsNonNeg(h)
    ensures Smooth(h, ps, stabilityFactor).0.Keys == h.Keys + Buckets(ps)
    ensures forall key :: key in Smooth(h, ps, stabilityFactor).0 <==>
              key in h || exists k :: 0 <= k < |ps| && KeyOf(ps[k]) == key
    decreases |ps|
  {
    if |ps| > 0 {
      var init := ps[..|ps| - 1];
      SmoothKeys(h, init, stabilityFactor);
      SmoothPointSpec(Smooth(h, init, stabilityFactor).0, ps[|ps| - 1], stabilityFactor);
    }
    forall key ensures key in Buckets(ps) <==> exists k :: 0 <= k < |ps| && KeyOf(ps[k]) == key {
      BucketsOf(ps, key);
    }
  }

  /** The module-level `intersection_history`. */
  class IntersectionHistory {
    var history: History

    constructor ()
      ensures history == map[]
    {
      history := map[];
    }

    predicate Valid()
      reads this`history
    {
      CountsNonNeg(history)
    }

    /** `stabilize_intersections`: the loop over the frame's points, updating the history in place. */
    method StabilizeIntersections(intersections: seq<Point>, stabilityFactor: nat) returns (stabilized: seq<Point>)
      requires Valid()
      modifies this`history
      ensures Valid()
      ensures (history, stabilized) == Smooth(old(history), intersections, stabilityFactor)
    {
      stabilized := [];
      var k := 0;
      while k < |intersections|
        invariant k <= |intersections| && CountsNonNeg(history)
        invariant (history, stabilized) == Smooth(old(history), intersections[..k], stabilityFactor)
      {
        var (x, y) := intersections[k];
        var key := (FloorDiv(x, 10), FloorDiv(y, 10));
        assert intersections[..k + 1][..k] == intersections[..k];
        if key in history {
          var Entry(prevX, prevY, count) := history[key];
          var newX := FloorDiv(prevX * count + x, count + 1);
          var newY := FloorDiv(prevY * count + y, count + 1);
          history := history[key := Entry(newX, newY, Min(count + 1, stabilityFactor))];
          stabilized := stabilized + [(newX, newY)];
        } else {
          history := history[key := Entry(x, y, 1)];
          stabilized := stabilized + [(x, y)];
        }
        k := k + 1;
      }
      assert intersections[..k] == intersections;
    }
  }
}
