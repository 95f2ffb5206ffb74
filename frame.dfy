/** The per-frame decision: which regions are occupied, whether the frame shows
    double parking, and which status banner is drawn. */
module FrameLogic {
  import opened Geometry

  /** The left region. */
  const Region1 := Box(10, 15, 320, 445)
  /** The right region; it shares the edge x = 320 with the left one. */
  const Region2 := Box(320, 15, 630, 445)

  /** The detector returns a list of results, each holding a list of boxes;
      the frame's detections are all of them, in order. */
  function Flatten(results: seq<seq<Box>>): (dets: seq<Box>)
    ensures forall b :: b in dets <==> exists i :: 0 <= i < |results| && b in results[i]
  {
    if results == [] then []
    else
      var init := results[..|results| - 1];
      var dets := Flatten(init) + results[|results| - 1];
      assert forall i :: 0 <= i < |init| ==> init[i] == results[i];
      dets
  }

  /** Some detection overlaps the region. */
  predicate Occupied(dets: seq<Box>, region: Box) {
    exists i :: 0 <= i < |dets| && Overlaps(dets[i], region)
  }

  /** Both regions are occupied, possibly by the same detection. */
  predicate DoubleParked(dets: seq<Box>) {
    Occupied(dets, Region1) && Occupied(dets, Region2)
  }

  /** Occupancy of a concatenation is the OR of the occupancy of its parts; in
      particular, further detections never clear an occupied region. */
  lemma OccupiedAppend(a: seq<Box>, b: seq<Box>, region: Box)
    ensures Occupied(a + b, region) <==> Occupied(a, region) || Occupied(b, region)
  {
    if Occupied(a + b, region) {
      var i :| 0 <= i < |a + b| && Overlaps((a + b)[i], region);
      if i < |a| {
        assert (a + b)[i] == a[i];
      } else {
        assert (a + b)[i] == b[i - |a|];
      }
    }
    if Occupied(a, region) {
      var i :| 0 <= i < |a| && Overlaps(a[i], region);
      assert (a + b)[i] == a[i];
    }
    if Occupied(b, region) {
      var i :| 0 <= i < |b| && Overlaps(b[i], region);
      assert (a + b)[|a| + i] == b[i];
    }
  }

  /** Adding one detection sets the region's flag exactly when it overlaps. */
  lemma OccupiedSnoc(dets: seq<Box>, box: Box, region: Box)
    ensures Occupied(dets + [box], region) <==> Occupied(dets, region) || Overlaps(box, region)
  {
    OccupiedAppend(dets, [box], region);
    assert [box][0] == box;
  }

  lemma OccupiedSubset(s: seq<Box>, t: seq<Box>, region: Box)
    requires forall b :: b in s ==> b in t
    requires Occupied(s, region)
    ensures Occupied(t, region)
  {
    var i :| 0 <= i < |s| && Overlaps(s[i], region);
    assert s[i] in s;
    var j :| 0 <= j < |t| && t[j] == s[i];
  }

  /** The order in which the detections are scanned does not matter. */
  lemma OccupiedPermutation(s: seq<Box>, t: seq<Box>, region: Box)
    requires multiset(s) == multiset(t)
    ensures Occupied(s, region) <==> Occupied(t, region)
  {
    forall b | b in s ensures b in t {
      assert b in multiset(s);
    }
    forall b | b in t ensures b in s {
      assert b in multiset(t);
    }
    if Occupied(s, region) { OccupiedSubset(s, t, region); }
    if Occupied(t, region) { OccupiedSubset(t, s, region); }
  }

  /** The detection loop: both flags start false and each box that overlaps a
      region sets that region's flag; the two tests are independent. */
  method ScanDetections(results: seq<seq<Box>>) returns (inRegion1: bool, inRegion2: bool)
    ensures inRegion1 <==> Occupied(Flatten(results), Region1)
    ensures inRegion2 <==> Occupied(Flatten(results), Region2)
  {
    inRegion1, inRegion2 := false, false;
    var i := 0;
    while i < |results|
      invariant 0 <= i <= |results|
      invariant inRegion1 <==> Occupied(Flatten(results[..i]), Region1)
      invariant inRegion2 <==> Occupied(Flatten(results[..i]), Region2)
    {
      var boxes := results[i];
      ghost var done := Flatten(results[..i]);
      var j := 0;
      assert done + boxes[..j] == done;
      while j < |boxes|
        invariant 0 <= j <= |boxes|
        invariant inRegion1 <==> Occupied(done + boxes[..j], Region1)
        invariant inRegion2 <==> Occupied(done + boxes[..j], Region2)
      {
        var box := boxes[j];
        assert done + boxes[..j + 1] == (done + boxes[..j]) + [box];
        OccupiedSnoc(done + boxes[..j], box, Region1);
        OccupiedSnoc(done + boxes[..j], box, Region2);
        if Overlaps(box, Region1) {
          inRegion1 := true;
        }
        if Overlaps(box, Region2) {
          inRegion2 := true;
        }
        j := j + 1;
      }
      assert boxes[..j] == boxes;
      assert results[..i + 1][..i] == results[..i];
      i := i + 1;
    }
    assert results[..i] == results;
  }

  /** A frame without detections is not double-parked, so the status written is
      {"dpark": false}. */
  lemma NoDetectionsNotDoubleParked(results: seq<seq<Box>>)
    requires forall i :: 0 <= i < |results| ==> results[i] == []
    ensures Flatten(results) == []
    ensures !DoubleParked(Flatten(results))
  {
  }

  /** Because the regions share the edge x = 320, one box alone double-parks
      the frame exactly when it spans x = 320 and meets the band 15 <= y <= 445. */
  lemma SingleBoxDoubleParks(box: Box)
    ensures DoubleParked([box]) <==> box.x1 <= 320 <= box.x2 && box.y1 <= 445 && 15 <= box.y2
  {
    OccupiedSnoc([], box, Region1);
    OccupiedSnoc([], box, Region2);
    assert [] + [box] == [box];
  }

  /** A box in each region, possibly the same box, double-parks the frame
      whatever the other detections are and wherever the boxes sit in the list. */
  lemma TwoBoxesDoublePark(dets: seq<Box>, i: nat, j: nat)
    requires i < |dets| && j < |dets|
    requires Overlaps(dets[i], Region1) && Overlaps(dets[j], Region2)
    ensures DoubleParked(dets)
  {
  }

  /** A box strictly left of x = 320 never occupies the right region and one
      strictly right of it never occupies the left one, so the flag needs a box
      reaching each side. */
  lemma DoubleParkedNeedsBothSides(dets: seq<Box>)
    requires DoubleParked(dets)
    ensures exists i :: 0 <= i < |dets| && dets[i].x1 <= 320
    ensures exists j :: 0 <= j < |dets| && 320 <= dets[j].x2
  {
  }

  /** The status banner drawn on the frame. */
  datatype Banner = DoubleParkingDetected | VehicleInRegion | NoBanner {
    /** The text drawn; empty when nothing is drawn. */
    function Text(): (t: string)
      ensures t == [] <==> this == NoBanner
    {
      match this
      case DoubleParkingDetected => "Double Parking Detected!"
      case VehicleInRegion => "Vehicle Detected in Region!"
      case NoBanner => ""
    }
  }

  /** Three-way choice: double parking first, then any occupied region, else nothing. */
  function ChooseBanner(inRegion1: bool, inRegion2: bool): (b: Banner)
    ensures b == DoubleParkingDetected <==> inRegion1 && inRegion2
    ensures b == VehicleInRegion <==> inRegion1 != inRegion2
    ensures b == NoBanner <==> !inRegion1 && !inRegion2
  {
    if inRegion1 && inRegion2 then DoubleParkingDetected
    else if inRegion1 || inRegion2 then VehicleInRegion
    else NoBanner
  }
}
