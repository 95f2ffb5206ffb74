/** Axis-aligned rectangles and the overlap test used for every detection. */
module Geometry {

  /** A rectangle (x1, y1, x2, y2) in pixel coordinates: a detection's bounding box
      after its coordinates have been truncated to integers, or a fixed region. */
  datatype Box = Box(x1: int, y1: int, x2: int, y2: int)

  /** The corners are ordered, as for every box the detector reports and both regions. */
  predicate WellFormed(b: Box) {
    b.x1 <= b.x2 && b.y1 <= b.y2
  }

  /** The closed rectangle b contains the pixel (x, y). */
  predicate Contains(b: Box, x: int, y: int) {
    b.x1 <= x <= b.x2 && b.y1 <= y <= b.y2
  }

  /** The separating-axis test: the box is rejected only when it lies strictly
      to the left, right, above or below the region. */
  predicate Overlaps(box: Box, region: Box) {
    !(box.x2 < region.x1 || box.x1 > region.x2 || box.y2 < region.y1 || box.y1 > region.y2)
  }

  /** For well-formed rectangles the test is exact: it reports an overlap exactly
      when the two closed rectangles have a pixel in common. */
  lemma OverlapsIffCommonPoint(box: Box, region: Box)
    requires WellFormed(box) && WellFormed(region)
    ensures Overlaps(box, region) <==> exists x, y :: Contains(box, x, y) && Contains(region, x, y)
  {
    if Overlaps(box, region) {
      var x := if box.x1 < region.x1 then region.x1 else box.x1;
      var y := if box.y1 < region.y1 then region.y1 else box.y1;
      assert Contains(box, x, y) && Contains(region, x, y);
    }
  }

  /** Rectangles that only touch along a vertical edge overlap, and every pixel
      they share lies on that edge. */
  lemma TouchingEdgeOverlaps(box: Box, region: Box)
    requires box.x2 == region.x1
    requires box.y1 <= region.y2 && region.y1 <= box.y2
    requires WellFormed(box) && WellFormed(region)
    ensures Overlaps(box, region)
    ensures forall x, y :: Contains(box, x, y) && Contains(region, x, y) ==> x == region.x1
  {
  }

  /** A box strictly to one side of the region, sharing no column or no row
      with it, is never reported as overlapping it. */
  lemma SeparatedNeverOverlaps(box: Box, region: Box)
    requires box.x2 < region.x1 || region.x2 < box.x1 || box.y2 < region.y1 || region.y2 < box.y1
    ensures !Overlaps(box, region)
    ensures !Overlaps(region, box)
  {
  }
}
