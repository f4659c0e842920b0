/**
 * `stabilize_intersections` of `GridDetection2.py` and the frame loop
 * around it: each clustered intersection is replaced by the nearest
 * point of the previous frame's output, the reference, and the output
 * becomes the next reference. Distances are `np.linalg.norm`; comparing
 * two of them is comparing the squared distances.
 */
module ReferenceSnap {
  import opened Common
  import opened Lattice
  import opened LatticeCluster
  import LatticeMemory

  /** The index `min(ref, key=...)` picks: a strictly nearer point replaces the one found so far, so ties go to the first. */
  function ClosestIndex(ref: seq<Point>, p: Point): (k: nat)
    requires |ref| > 0
    ensures k < |ref|
  {
    if |ref| == 1 then 0
    else
      var best := ClosestIndex(ref[..|ref| - 1], p);
      if SqDist(p, ref[|ref| - 1]) < SqDist(p, ref[best]) then |ref| - 1 else best
  }

  /** The reference point nearest to `p`, the first of several equally near ones. */
  lemma {:induction false} ClosestIndexFirst(ref: seq<Point>, p: Point)
    requires |ref| > 0
    ensures var k := ClosestIndex(ref, p);
            (forall j :: 0 <= j < |ref| ==> SqDist(p, ref[k]) <= SqDist(p, ref[j])) &&
            (forall j :: 0 <= j < k ==> SqDist(p, ref[k]) < SqDist(p, ref[j]))
    decreases |ref|
  {
    if |ref| > 1 {
      ClosestIndexFirst(ref[..|ref| - 1], p);
    }
  }

  /** Each point snapped to its nearest reference point. */
  function Snap(pts: seq<Point>, ref: seq<Point>): (out: seq<Point>)
    requires |ref| > 0
    ensures |out| == |pts|
  {
    if |pts| == 0 then [] else Snap(pts[..|pts| - 1], ref) + [ref[ClosestIndex(ref, pts[|pts| - 1])]]
  }

  /**
   * `stabilize_intersections`: the points as they are on the first frame;
   * otherwise each snapped to the reference, where `min` of an empty
   * reference fails.
   */
  function Stabilize(pts: seq<Point>, ref: Option<seq<Point>>): Run<seq<Point>>
  {
    if ref.None? then Done(pts)
    else if |pts| == 0 then Done([])
    else if |ref.value| == 0 then Raised
    else Done(Snap(pts, ref.value))
  }

  lemma {:induction false} SnapAt(pts: seq<Point>, ref: seq<Point>)
    requires |ref| > 0
    ensures forall k :: 0 <= k < |pts| ==> Snap(pts, ref)[k] == ref[ClosestIndex(ref, pts[k])]
    decreases |pts|
  {
    if |pts| > 0 {
      SnapAt(pts[..|pts| - 1], ref);
    }
  }

  /**
   * With a reference, the output has one point per input point, each a
   * reference point nearest to its input point and the first of equally
   * near ones; it fails exactly when the reference is empty and there
   * are points to snap.
   */
  lemma SnapsToReference(pts: seq<Point>, ref: seq<Point>)
    ensures Stabilize(pts, Some(ref)).Raised? <==> |ref| == 0 && |pts| > 0
    ensures Stabilize(pts, Some(ref)).Done? ==>
              var out := Stabilize(pts, Some(ref)).value;
              |out| == |pts| &&
              forall k :: 0 <= k < |pts| ==>
                exists r :: 0 <= r < |ref| && out[k] == ref[r] &&
                  (forall j :: 0 <= j < |ref| ==> SqDist(pts[k], ref[r]) <= SqDist(pts[k], ref[j])) &&
                  (forall j :: 0 <= j < r ==> SqDist(pts[k], ref[r]) < SqDist(pts[k], ref[j]))
  {
    if |pts| > 0 && |ref| > 0 {
      SnapAt(pts, ref);
      forall k | 0 <= k < |pts|
        ensures exists r :: 0 <= r < |ref| && Snap(pts, ref)[k] == ref[r] &&
                  (forall j :: 0 <= j < |ref| ==> SqDist(pts[k], ref[r]) <= SqDist(pts[k], ref[j])) &&
                  (forall j :: 0 <= j < r ==> SqDist(pts[k], ref[r]) < SqDist(pts[k], ref[j]))
      {
        ClosestIndexFirst(ref, pts[k]);
        var r := ClosestIndex(ref, pts[k]);
        assert Snap(pts, ref)[k] == ref[r];
      }
    }
  }

  /** A snapped point is always a reference point. */
  lemma SnapInReference(pts: seq<Point>, ref: seq<Point>)
    ensures Stabilize(pts, Some(ref)).Done? ==> forall q :: q in Stabilize(pts, Some(ref)).value ==> q in ref
  {
    if |pts| > 0 && |ref| > 0 {
      SnapAt(pts, ref);
      var out := Snap(pts, ref);
      forall q | q in out ensures q in ref {
        var k :| 0 <= k < |out| && out[k] == q;
        assert out[k] == ref[ClosestIndex(ref, pts[k])];
      }
    }
  }

  /** The reference after each frame's clustered points in turn, or the failure that ends the loop. */
  function Follow(ref: Option<seq<Point>>, frames: seq<seq<Point>>): Run<Option<seq<Point>>>
    decreases |frames|
  {
    if |frames| == 0 then Done(ref)
    else
      var out := Stabilize(frames[0], ref);
      if out.Raised? then Raised else Follow(Some(out.value), frames[1..])
  }

  /**
   * The first frame's points become the reference as they are, and no
   * later frame brings in a point that was not in it: the reference
   * only ever loses points.
   */
  lemma {:induction false} ReferenceNeverGains(ref: Option<seq<Point>>, frames: seq<seq<Point>>)
    ensures ref.None? && |frames| > 0 ==> Follow(ref, frames) == Follow(Some(frames[0]), frames[1..])
    ensures ref.Some? && Follow(ref, frames).Done? ==>
              Follow(ref, frames).value.Some? && forall q :: q in Follow(ref, frames).value.value ==> q in ref.value
    decreases |frames|
  {
    if |frames| > 0 && ref.Some? {
      var out := Stabilize(frames[0], ref);
      if out.Done? {
        SnapInReference(frames[0], ref.value);
        ReferenceNeverGains(Some(out.value), frames[1..]);
      }
    }
  }

  /** The loop body `stabilized.append(min(...))` over every point. */
  method StabilizeIntersections(intersections: seq<Point>, ref: Option<seq<Point>>) returns (r: Run<seq<Point>>)
    ensures r == Stabilize(intersections, ref)
  {
    if ref.None? {
      return Done(intersections);
    }
    var reference := ref.value;
    var stabilized := [];
    var k := 0;
    while k < |intersections|
      invariant k <= |intersections|
      invariant k > 0 ==> |reference| > 0
      invariant |reference| > 0 ==> stabilized == Snap(intersections[..k], reference)
      invariant |reference| == 0 ==> stabilized == []
    {
      if |reference| == 0 {
        return Raised;
      }
      var closestRef := reference[ClosestIndex(reference, intersections[k])];
      assert intersections[..k + 1][..k] == intersections[..k];
      stabilized := stabilized + [closestRef];
      k := k + 1;
    }
    assert intersections[..k] == intersections;
    return Done(stabilized);
  }

  /** The module-level `reference_intersections` the frame loop keeps. */
  class ReferenceLoop {
    var reference: Option<seq<Point>>

    constructor ()
      ensures reference == None
    {
      reference := None;
    }

    /**
     * One frame: the segments' intersections, clustered with the radius
     * as it is (a radius of zero or less never ends the clustering loop),
     * then stabilized; the output is shown and becomes the reference.
     */
    method Frame(lines: Option<seq<Line>>, clusterDistance: int) returns (shown: Run<seq<Point>>)
      modifies this`reference
      ensures shown.Diverged? <==> |Intersections(lines)| > 0 && clusterDistance <= 0
      ensures !shown.Diverged? ==>
                shown == Stabilize(if |Intersections(lines)| == 0 then [] else Clusters(Intersections(lines), clusterDistance), old(reference))
      ensures shown.Done? ==> reference == Some(shown.value)
      ensures !shown.Done? ==> reference == old(reference)
      ensures shown.Done? && old(reference).Some? ==> forall q :: q in shown.value ==> q in old(reference).value
    {
      var intersections := FindIntersections(lines);
      var clustered := LatticeMemory.ClusterIntersections(intersections, clusterDistance);
      if clustered.Diverged? {
        return Diverged;
      }
      shown := StabilizeIntersections(clustered.value, reference);
      if shown.Done? {
        if reference.Some? {
          SnapInReference(clustered.value, reference.value);
        }
        reference := Some(shown.value);
      }
    }
  }
}
