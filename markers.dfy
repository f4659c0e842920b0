/**
 * What the detectors keep of an ArUco detection: the marker's id, its
 * centre (the truncated mean of its four corners) and its heading (the
 * direction from its first corner to its second). The detector itself
 * and the arctangent are outside the model: detections are inputs and
 * the heading is a function of the corner difference.
 */
module Markers {
  import opened Common
  import opened Lattice

  /** One detected marker: its id and its four corners, already truncated to integers. */
  datatype Detection = Detection(id: int, c0: Point, c1: Point, c2: Point, c3: Point)

  /** A marker as the detector keeps it: `(marker_id, (cx, cy), angle_deg)`. */
  datatype Marker = Marker(id: int, center: Point, angle: real)

  /** `int(np.mean(...))` of four integers: the sum divided by four, truncated toward zero. */
  function Mean4(a: int, b: int, c: int, d: int): int
  {
    TruncDiv(a + b + c + d, 4)
  }

  /** The marker's centre. */
  function Centroid(d: Detection): Point
  {
    (Mean4(d.c0.0, d.c1.0, d.c2.0, d.c3.0), Mean4(d.c0.1, d.c1.1, d.c2.1, d.c3.1))
  }

  /** The difference `(dx, dy)` from the first corner to the second, whose `degrees(arctan2(dy, dx))` is the heading. */
  function Front(d: Detection): Point
  {
    (d.c1.0 - d.c0.0, d.c1.1 - d.c0.1)
  }

  /** The marker a detection gives, with `angleOf` standing for `np.degrees(np.arctan2(dy, dx))`. */
  function MarkerOf(d: Detection, angleOf: Point -> real): Marker
  {
    Marker(d.id, Centroid(d), angleOf(Front(d)))
  }

  function Min4(a: int, b: int, c: int, d: int): int
  {
    var m := if a < b then a else b;
    var n := if c < d then c else d;
    if m < n then m else n
  }

  function Max4(a: int, b: int, c: int, d: int): int
  {
    var m := if a > b then a else b;
    var n := if c > d then c else d;
    if m > n then m else n
  }

  /** The truncated mean lies between the least and the greatest of the four. */
  lemma Mean4Between(a: int, b: int, c: int, d: int)
    ensures Min4(a, b, c, d) <= Mean4(a, b, c, d) <= Max4(a, b, c, d)
  {
    TruncDivBetween(a + b + c + d, 4, Min4(a, b, c, d), Max4(a, b, c, d));
  }

  /** A marker's centre lies in the bounding box of its corners. */
  lemma CentroidInBox(d: Detection)
    ensures Min4(d.c0.0, d.c1.0, d.c2.0, d.c3.0) <= Centroid(d).0 <= Max4(d.c0.0, d.c1.0, d.c2.0, d.c3.0)
    ensures Min4(d.c0.1, d.c1.1, d.c2.1, d.c3.1) <= Centroid(d).1 <= Max4(d.c0.1, d.c1.1, d.c2.1, d.c3.1)
  {
    Mean4Between(d.c0.0, d.c1.0, d.c2.0, d.c3.0);
    Mean4Between(d.c0.1, d.c1.1, d.c2.1, d.c3.1);
  }

  /** A square marker of side `2s` has its centre where it should be, at either sign: the truncation is exact there. */
  lemma CentroidOfSquare(x: int, y: int, s: int, id: int)
    requires s >= 0
    ensures Centroid(Detection(id, (x, y), (x + 2 * s, y), (x + 2 * s, y + 2 * s), (x, y + 2 * s))) == (x + s, y + s)
  {
    TruncDivExact(4 * x + 4 * s, 4, x + s);
    TruncDivExact(4 * y + 4 * s, 4, y + s);
  }

  // ---------------------------------------------------------------- robot and others

  /** The robot's centre and heading: the last detection with the robot's id, as later ones overwrite earlier ones. */
  function RobotOf(ds: seq<Detection>, robotId: int, angleOf: Point -> real): Option<(Point, real)>
  {
    if |ds| == 0 then None
    else
      var d := ds[|ds| - 1];
      if d.id == robotId then Some((Centroid(d), angleOf(Front(d))))
      else RobotOf(ds[..|ds| - 1], robotId, angleOf)
  }

  /** Every other marker, in detection order. */
  function OthersOf(ds: seq<Detection>, robotId: int, angleOf: Point -> real): seq<Marker>
  {
    if |ds| == 0 then []
    else
      var d := ds[|ds| - 1];
      OthersOf(ds[..|ds| - 1], robotId, angleOf) + (if d.id == robotId then [] else [MarkerOf(d, angleOf)])
  }

  /**
   * The robot is found exactly when some detection carries its id, and
   * then it is the last such detection: none after it carries the id.
   */
  lemma {:induction false} RobotIsLast(ds: seq<Detection>, robotId: int, angleOf: Point -> real)
    ensures RobotOf(ds, robotId, angleOf).None? <==> forall i :: 0 <= i < |ds| ==> ds[i].id != robotId
    ensures RobotOf(ds, robotId, angleOf).Some? ==>
              exists i :: 0 <= i < |ds| && ds[i].id == robotId &&
                RobotOf(ds, robotId, angleOf).value == (Centroid(ds[i]), angleOf(Front(ds[i]))) &&
                forall j :: i < j < |ds| ==> ds[j].id != robotId
    decreases |ds|
  {
    if |ds| > 0 {
      var last := |ds| - 1;
      if ds[last].id == robotId {
        assert RobotOf(ds, robotId, angleOf).value == (Centroid(ds[last]), angleOf(Front(ds[last])));
      } else {
        var init := ds[..last];
        RobotIsLast(init, robotId, angleOf);
        assert RobotOf(ds, robotId, angleOf) == RobotOf(init, robotId, angleOf);
        if RobotOf(init, robotId, angleOf).Some? {
          var i :| 0 <= i < |init| && init[i].id == robotId &&
                   RobotOf(init, robotId, angleOf).value == (Centroid(init[i]), angleOf(Front(init[i]))) &&
                   forall j :: i < j < |init| ==> init[j].id != robotId;
          assert ds[i] == init[i];
          assert forall j :: i < j < |ds| ==> ds[j].id != robotId by {
            forall j | i < j < |ds| ensures ds[j].id != robotId {
              if j < last {
                assert ds[j] == init[j];
              }
            }
          }
        } else {
          assert forall i :: 0 <= i < |ds| ==> ds[i].id != robotId by {
            forall i | 0 <= i < |ds| ensures ds[i].id != robotId {
              if i < last {
                assert ds[i] == init[i];
              }
            }
          }
        }
      }
    }
  }

  /** The positions of the detections that do not carry the robot's id, in increasing order. */
  function OtherIndices(ds: seq<Detection>, robotId: int): seq<int>
  {
    if |ds| == 0 then []
    else OtherIndices(ds[..|ds| - 1], robotId) + (if ds[|ds| - 1].id == robotId then [] else [|ds| - 1])
  }

  /**
   * Every other detection appears once and in order: entry `k` of the
   * other markers is the marker of detection `OtherIndices[k]`, those
   * positions increase strictly, and they are exactly the positions whose
   * detection does not carry the robot's id.
   */
  lemma OthersIndexed(ds: seq<Detection>, robotId: int, angleOf: Point -> real)
    ensures var o, ix := OthersOf(ds, robotId, angleOf), OtherIndices(ds, robotId);
            |o| == |ix| &&
            (forall k :: 0 <= k < |ix| ==> 0 <= ix[k] < |ds| && ds[ix[k]].id != robotId && o[k] == MarkerOf(ds[ix[k]], angleOf)) &&
            (forall k, l :: 0 <= k < l < |ix| ==> ix[k] < ix[l]) &&
            (forall i :: 0 <= i < |ds| && ds[i].id != robotId ==> i in ix)
  {
    OthersAligned(ds, robotId, angleOf);
    IndicesIncrease(ds, robotId);
    IndicesComplete(ds, robotId);
  }

  /** Entry `k` of the other markers is the marker of detection `OtherIndices[k]`, which does not carry the robot's id. */
  lemma {:induction false} OthersAligned(ds: seq<Detection>, robotId: int, angleOf: Point -> real)
    ensures var o, ix := OthersOf(ds, robotId, angleOf), OtherIndices(ds, robotId);
            |o| == |ix| &&
            forall k :: 0 <= k < |ix| ==> 0 <= ix[k] < |ds| && ds[ix[k]].id != robotId && o[k] == MarkerOf(ds[ix[k]], angleOf)
    decreases |ds|
  {
    if |ds| > 0 {
      var last := |ds| - 1;
      var init := ds[..last];
      OthersAligned(init, robotId, angleOf);
      var o', ix' := OthersOf(init, robotId, angleOf), OtherIndices(init, robotId);
      var o, ix := OthersOf(ds, robotId, angleOf), OtherIndices(ds, robotId);
      assert o == o' + (if ds[last].id == robotId then [] else [MarkerOf(ds[last], angleOf)]);
      assert ix == ix' + (if ds[last].id == robotId then [] else [last]);
      forall k | 0 <= k < |ix'|
        ensures ix[k] == ix'[k] && o[k] == o'[k] && ds[ix'[k]] == init[ix'[k]]
      {
      }
    }
  }

  /** The positions lie in the input and increase strictly. */
  lemma {:induction false} IndicesIncrease(ds: seq<Detection>, robotId: int)
    ensures var ix := OtherIndices(ds, robotId);
            (forall k :: 0 <= k < |ix| ==> 0 <= ix[k] < |ds|) &&
            forall k, l :: 0 <= k < l < |ix| ==> ix[k] < ix[l]
    decreases |ds|
  {
    if |ds| > 0 {
      var last := |ds| - 1;
      var init := ds[..last];
      IndicesIncrease(init, robotId);
      var ix', ix := OtherIndices(init, robotId), OtherIndices(ds, robotId);
      assert var ix0 := OtherIndices(init, robotId); forall k :: 0 <= k < |ix0| ==> 0 <= ix0[k] < |init|;
      assert var ix0 := OtherIndices(init, robotId); forall k, l :: 0 <= k < l < |ix0| ==> ix0[k] < ix0[l];
      assert ix == ix' + (if ds[last].id == robotId then [] else [last]);
      forall k | 0 <= k < |ix|
        ensures 0 <= ix[k] < |ds| && (k < |ix'| ==> ix[k] == ix'[k] < last)
      {
        if k < |ix'| {
          assert ix[k] == ix'[k];
        } else {
          assert ix[k] == last;
        }
      }
      forall k, l | 0 <= k < l < |ix|
        ensures ix[k] < ix[l]
      {
        if l >= |ix'| {
          assert ix[l] == last && ix[k] == ix'[k] < last;
        } else {
          assert ix[k] == ix'[k] && ix[l] == ix'[l];
        }
      }
    }
  }

  /** Every position whose detection does not carry the robot's id is listed. */
  lemma {:induction false} IndicesComplete(ds: seq<Detection>, robotId: int)
    ensures forall i :: 0 <= i < |ds| && ds[i].id != robotId ==> i in OtherIndices(ds, robotId)
    decreases |ds|
  {
    if |ds| > 0 {
      var last := |ds| - 1;
      var init := ds[..last];
      IndicesComplete(init, robotId);
      var ix', ix := OtherIndices(init, robotId), OtherIndices(ds, robotId);
      assert ix == ix' + (if ds[last].id == robotId then [] else [last]);
      forall i | 0 <= i < |ds| && ds[i].id != robotId
        ensures i in ix
      {
        if i < last {
          assert init[i] == ds[i];
          assert i in ix';
        }
      }
    }
  }

  /** The other markers are the detections without the robot's id, in order: each one's id differs from it. */
  lemma {:induction false} OthersExact(ds: seq<Detection>, robotId: int, angleOf: Point -> real)
    ensures |OthersOf(ds, robotId, angleOf)| <= |ds|
    ensures forall k :: 0 <= k < |OthersOf(ds, robotId, angleOf)| ==> OthersOf(ds, robotId, angleOf)[k].id != robotId
    ensures (forall i :: 0 <= i < |ds| ==> ds[i].id != robotId) ==>
              OthersOf(ds, robotId, angleOf) == seq(|ds|, i requires 0 <= i < |ds| => MarkerOf(ds[i], angleOf))
    decreases |ds|
  {
    if |ds| > 0 {
      var init := ds[..|ds| - 1];
      OthersExact(init, robotId, angleOf);
      if forall i :: 0 <= i < |ds| ==> ds[i].id != robotId {
        assert forall i :: 0 <= i < |init| ==> init[i] == ds[i];
      }
    }
  }
}
