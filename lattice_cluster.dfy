/**
 * Radius clustering of crossing points (`cluster_points`): the first
 * point left is a reference, every point left within the cluster distance
 * of it forms its group, the group is replaced by its mean, and the rest
 * goes round again.
 */
module LatticeCluster {
  import opened Common
  import opened Lattice

  function SqDist(p: Point, q: Point): int
  {
    (p.0 - q.0) * (p.0 - q.0) + (p.1 - q.1) * (p.1 - q.1)
  }

  /**
   * `norm(p - ref) < d`. The norm is the square root of `SqDist`, so for
   * a positive radius this is `SqDist < d²`, and for a radius of zero or
   * less no point is close, not even `ref` itself.
   */
  predicate Close(p: Point, ref: Point, d: int)
  {
    d > 0 && SqDist(p, ref) < d * d
  }

  /** The points within the radius of `ref`, in order: `pts[close_mask]`. */
  function Near(pts: seq<Point>, ref: Point, d: int): seq<Point>
  {
    if |pts| == 0 then []
    else (if Close(pts[0], ref, d) then [pts[0]] else []) + Near(pts[1..], ref, d)
  }

  /** The others, in order: `pts[~close_mask]`. */
  function Far(pts: seq<Point>, ref: Point, d: int): seq<Point>
  {
    if |pts| == 0 then []
    else (if Close(pts[0], ref, d) then [] else [pts[0]]) + Far(pts[1..], ref, d)
  }

  /** The mask splits the points: each goes to exactly one side, as often as it occurs. */
  lemma {:induction false} NearFarSplit(pts: seq<Point>, ref: Point, d: int)
    ensures multiset(Near(pts, ref, d)) + multiset(Far(pts, ref, d)) == multiset(pts)
    ensures |Near(pts, ref, d)| + |Far(pts, ref, d)| == |pts|
    decreases |pts|
  {
    if |pts| > 0 {
      NearFarSplit(pts[1..], ref, d);
      assert pts == [pts[0]] + pts[1..];
    }
  }

  /** The near side holds only points within the radius. */
  lemma {:induction false} NearClose(pts: seq<Point>, ref: Point, d: int)
    ensures forall p :: p in Near(pts, ref, d) ==> Close(p, ref, d)
    decreases |pts|
  {
    if |pts| > 0 {
      NearClose(pts[1..], ref, d);
    }
  }

  /** The far side none. */
  lemma {:induction false} FarNotClose(pts: seq<Point>, ref: Point, d: int)
    ensures forall p :: p in Far(pts, ref, d) ==> !Close(p, ref, d)
    decreases |pts|
  {
    if |pts| > 0 {
      FarNotClose(pts[1..], ref, d);
    }
  }

  /** With a radius of at least one, a point is close to itself. */
  lemma SelfClose(p: Point, d: int)
    requires d >= 1
    ensures Close(p, p, d)
  {
    MulAtLeast(d, d);
  }

  /**
   * With a radius of zero or less nothing is close, so a round removes no
   * point and `while len(pts) > 0` never ends on a non-empty input.
   */
  lemma {:induction false} NoRadiusKeepsAll(pts: seq<Point>, ref: Point, d: int)
    requires d <= 0
    ensures Near(pts, ref, d) == [] && Far(pts, ref, d) == pts
    decreases |pts|
  {
    if |pts| > 0 {
      NoRadiusKeepsAll(pts[1..], ref, d);
    }
  }

  function SumX(ps: seq<Point>): int
  {
    if |ps| == 0 then 0 else ps[0].0 + SumX(ps[1..])
  }

  function SumY(ps: seq<Point>): int
  {
    if |ps| == 0 then 0 else ps[0].1 + SumY(ps[1..])
  }

  /** `np.mean(close_points, axis=0).astype(int)`: each coordinate's mean, truncated toward zero. */
  function Mean(ps: seq<Point>): Point
    requires |ps| > 0
  {
    (TruncDiv(SumX(ps), |ps|), TruncDiv(SumY(ps), |ps|))
  }

  /** The groups the rounds form, in the order they are formed. */
  function Groups(pts: seq<Point>, d: int): (gs: seq<seq<Point>>)
    requires d >= 1
    ensures forall k :: 0 <= k < |gs| ==> |gs[k]| > 0
    decreases |pts|
  {
    if |pts| == 0 then []
    else
      var ref := pts[0];
      SelfClose(ref, d);
      NearFarSplit(pts, ref, d);
      [Near(pts, ref, d)] + Groups(Far(pts, ref, d), d)
  }

  function Means(gs: seq<seq<Point>>): (ms: seq<Point>)
    requires forall k :: 0 <= k < |gs| ==> |gs[k]| > 0
    ensures |ms| == |gs|
  {
    if |gs| == 0 then [] else [Mean(gs[0])] + Means(gs[1..])
  }

  /** `cluster_points` for a radius of at least one: the mean of each group. */
  function Clusters(pts: seq<Point>, d: int): seq<Point>
    requires d >= 1
  {
    Means(Groups(pts, d))
  }

  /** One round: the first cluster is the mean of the points near the first point. */
  lemma ClustersCons(pts: seq<Point>, d: int)
    requires d >= 1 && |pts| > 0
    ensures |Near(pts, pts[0], d)| > 0 && |Far(pts, pts[0], d)| < |pts| &&
            Clusters(pts, d) == [Mean(Near(pts, pts[0], d))] + Clusters(Far(pts, pts[0], d), d)
  {
    SelfClose(pts[0], d);
    NearFarSplit(pts, pts[0], d);
  }

  /** The groups partition the points: every point is in exactly one group, as often as it occurs. */
  lemma {:induction false} GroupsPartition(pts: seq<Point>, d: int)
    requires d >= 1
    ensures multiset(Flatten(Groups(pts, d))) == multiset(pts)
    ensures |Groups(pts, d)| <= |pts|
    decreases |pts|
  {
    if |pts| > 0 {
      var ref := pts[0];
      SelfClose(ref, d);
      NearFarSplit(pts, ref, d);
      GroupsPartition(Far(pts, ref, d), d);
      var gs := Groups(pts, d);
      assert gs[1..] == Groups(Far(pts, ref, d), d);
    }
  }

  /** One cluster per group, so never more clusters than points. */
  lemma ClustersCount(pts: seq<Point>, d: int)
    requires d >= 1
    ensures |Clusters(pts, d)| == |Groups(pts, d)| <= |pts|
  {
    GroupsPartition(pts, d);
  }

  /** Every point of a group lies within the radius of the group's first point. */
  predicate GroupsNearFirst(gs: seq<seq<Point>>, d: int)
  {
    forall k, i :: 0 <= k < |gs| && 0 <= i < |gs[k]| ==> Close(gs[k][i], gs[k][0], d)
  }

  /** No point of a later group lies within the radius of an earlier group's first point. */
  predicate GroupsApart(gs: seq<seq<Point>>, d: int)
  {
    forall k, l, i :: 0 <= k < l < |gs| && |gs[k]| > 0 && 0 <= i < |gs[l]| ==> !Close(gs[l][i], gs[k][0], d)
  }

  /** Each group is its first point and the remaining points within the radius of it. */
  lemma {:induction false} GroupsAroundFirst(pts: seq<Point>, d: int)
    requires d >= 1
    ensures GroupsNearFirst(Groups(pts, d), d)
    decreases |pts|
  {
    if |pts| > 0 {
      var ref := pts[0];
      SelfClose(ref, d);
      NearFarSplit(pts, ref, d);
      NearClose(pts, ref, d);
      var far := Far(pts, ref, d);
      GroupsAroundFirst(far, d);
      var gs, rest := Groups(pts, d), Groups(far, d);
      assert gs == [Near(pts, ref, d)] + rest;
      assert gs[0][0] == ref;
      assert forall k :: 0 < k < |gs| ==> gs[k] == rest[k - 1];
    }
  }

  /** A point of a later group is never within the radius of an earlier group's first point. */
  lemma {:induction false} GroupsSeparated(pts: seq<Point>, d: int)
    requires d >= 1
    ensures GroupsApart(Groups(pts, d), d)
    decreases |pts|
  {
    if |pts| > 0 {
      var ref := pts[0];
      SelfClose(ref, d);
      NearFarSplit(pts, ref, d);
      FarNotClose(pts, ref, d);
      var far := Far(pts, ref, d);
      GroupsSeparated(far, d);
      GroupsPartition(far, d);
      var gs, rest := Groups(pts, d), Groups(far, d);
      assert gs == [Near(pts, ref, d)] + rest;
      assert gs[0][0] == ref;
      forall k, l, i | 0 <= k < l < |gs| && |gs[k]| > 0 && 0 <= i < |gs[l]|
        ensures !Close(gs[l][i], gs[k][0], d)
      {
        assert gs[l] == rest[l - 1];
        if k == 0 {
          FlattenHas(rest, l - 1, gs[l][i]);
          assert gs[l][i] in multiset(far);
        } else {
          assert gs[k] == rest[k - 1];
        }
      }
    }
  }

  /** Cluster `k` is the mean of group `k`. */
  lemma {:induction false} MeansAt(gs: seq<seq<Point>>, k: nat)
    requires forall j :: 0 <= j < |gs| ==> |gs[j]| > 0
    requires k < |gs|
    ensures Means(gs)[k] == Mean(gs[k])
    decreases k
  {
    if k > 0 {
      MeansAt(gs[1..], k - 1);
    }
  }

  function MinX(ps: seq<Point>): int
    requires |ps| > 0
  {
    if |ps| == 1 then ps[0].0 else var m := MinX(ps[1..]); if ps[0].0 < m then ps[0].0 else m
  }

  function MaxX(ps: seq<Point>): int
    requires |ps| > 0
  {
    if |ps| == 1 then ps[0].0 else var m := MaxX(ps[1..]); if ps[0].0 > m then ps[0].0 else m
  }

  function MinY(ps: seq<Point>): int
    requires |ps| > 0
  {
    if |ps| == 1 then ps[0].1 else var m := MinY(ps[1..]); if ps[0].1 < m then ps[0].1 else m
  }

  function MaxY(ps: seq<Point>): int
    requires |ps| > 0
  {
    if |ps| == 1 then ps[0].1 else var m := MaxY(ps[1..]); if ps[0].1 > m then ps[0].1 else m
  }

  /** Sums of `n` numbers between `lo` and `hi` lie between `n·lo` and `n·hi`. */
  lemma {:induction false} SumXBounds(ps: seq<Point>, lo: int, hi: int)
    requires forall i :: 0 <= i < |ps| ==> lo <= ps[i].0 <= hi
    ensures |ps| * lo <= SumX(ps) <= |ps| * hi
    decreases |ps|
  {
    if |ps| > 0 {
      SumXBounds(ps[1..], lo, hi);
      MulStepInt(|ps| - 1, lo);
      MulStepInt(|ps| - 1, hi);
    }
  }

  lemma {:induction false} SumYBounds(ps: seq<Point>, lo: int, hi: int)
    requires forall i :: 0 <= i < |ps| ==> lo <= ps[i].1 <= hi
    ensures |ps| * lo <= SumY(ps) <= |ps| * hi
    decreases |ps|
  {
    if |ps| > 0 {
      SumYBounds(ps[1..], lo, hi);
      MulStepInt(|ps| - 1, lo);
      MulStepInt(|ps| - 1, hi);
    }
  }

  lemma {:induction false} Extremes(ps: seq<Point>)
    requires |ps| > 0
    ensures forall i :: 0 <= i < |ps| ==> MinX(ps) <= ps[i].0 <= MaxX(ps) && MinY(ps) <= ps[i].1 <= MaxY(ps)
    decreases |ps|
  {
    if |ps| > 1 {
      Extremes(ps[1..]);
      assert forall i :: 1 <= i < |ps| ==> ps[i] == ps[1..][i - 1];
    }
  }

  /** A cluster centre lies within the bounding box of its group, truncation included. */
  lemma MeanInBox(ps: seq<Point>)
    requires |ps| > 0
    ensures MinX(ps) <= Mean(ps).0 <= MaxX(ps) && MinY(ps) <= Mean(ps).1 <= MaxY(ps)
  {
    Extremes(ps);
    SumXBounds(ps, MinX(ps), MaxX(ps));
    SumYBounds(ps, MinY(ps), MaxY(ps));
    TruncDivBetween(SumX(ps), |ps|, MinX(ps), MaxX(ps));
    TruncDivBetween(SumY(ps), |ps|, MinY(ps), MaxY(ps));
  }

  /** `cluster_points(points, cluster_dist)` for a radius of at least one, as its callers clamp it. */
  method ClusterPoints(points: seq<Point>, clusterDist: int) returns (clusters: seq<Point>)
    requires clusterDist >= 1
    ensures clusters == Clusters(points, clusterDist)
  {
    if |points| == 0 {
      return [];
    }
    var pts := points;
    clusters := [];
    while |pts| > 0
      invariant Clusters(points, clusterDist) == clusters + Clusters(pts, clusterDist)
      decreases |pts|
    {
      ClustersCons(pts, clusterDist);
      var ref := pts[0];
      var closePoints := Near(pts, ref, clusterDist);
      var center := Mean(closePoints);
      AppendAssoc(clusters, [center], Clusters(Far(pts, ref, clusterDist), clusterDist));
      clusters := clusters + [center];
      pts := Far(pts, ref, clusterDist);
    }
    assert clusters + [] == clusters;
  }
}
