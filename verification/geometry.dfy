/**
 * Landmark frames and the framing rectangle.
 *
 * A hand tracked by the landmark detector is 21 points whose coordinates are
 * normalized to the video frame (origin top-left, x to the right in the raw,
 * unmirrored image).  The framing hand's thumb tip and index tip span the
 * rectangle that the camera draws and later crops; the displayed canvas is
 * mirrored horizontally, so the rectangle's x is taken as `1 - x`.
 */
module Geometry {

  /** A landmark: a normalized point in the raw video frame. */
  datatype Point = Point(x: real, y: real)

  const LandmarksPerHand: nat := 21
  /** Landmark indices used by the camera. */
  const ThumbTip: nat := 4
  const IndexTip: nat := 8

  /** A tracked hand always carries its 21 landmarks. */
  type Hand = h: seq<Point> | |h| == LandmarksPerHand
    witness seq(21, _ => Point(0.0, 0.0))

  /** One detector result: zero or more hands; hand 0 frames, hand 1 gestures. */
  type Frame = seq<Hand>

  /** The normalized rectangle `{topLeftPoint, width, height}` of the camera. */
  datatype Rect = Rect(left: real, top: real, width: real, height: real)

  /** A rectangle in canvas pixels, as handed to the pixel read. */
  datatype PixelRect = PixelRect(x: real, y: real, width: real, height: real)

  function Abs(a: real): real { if a < 0.0 then -a else a }
  function Max(a: real, b: real): real { if a < b then b else a }
  function Min(a: real, b: real): real { if a < b then a else b }

  /** The point as it appears on the horizontally mirrored canvas. */
  function Mirror(p: Point): Point { Point(1.0 - p.x, p.y) }

  predicate Contains(r: Rect, p: Point)
  {
    r.left <= p.x <= r.left + r.width && r.top <= p.y <= r.top + r.height
  }

  /** Every point of `inner` lies in `outer`. */
  predicate Encloses(outer: Rect, inner: Rect)
  {
    outer.left <= inner.left && inner.left + inner.width <= outer.left + outer.width &&
    outer.top <= inner.top && inner.top + inner.height <= outer.top + outer.height
  }

  predicate InUnitSquare(p: Point) { 0.0 <= p.x <= 1.0 && 0.0 <= p.y <= 1.0 }

  predicate WithinUnit(r: Rect)
  {
    0.0 <= r.width && 0.0 <= r.height &&
    0.0 <= r.left && r.left + r.width <= 1.0 &&
    0.0 <= r.top && r.top + r.height <= 1.0
  }

  /**
   * The frame rectangle spanned by the thumb tip `p1` and the index tip `p2`:
   * the point with the larger x gives the mirrored left edge, the point with
   * the larger y the bottom edge, from which the height is subtracted.
   */
  function FrameRect(p1: Point, p2: Point): (r: Rect)
    ensures r.width >= 0.0 && r.height >= 0.0
    ensures r.left == 1.0 - Max(p1.x, p2.x) && r.left + r.width == 1.0 - Min(p1.x, p2.x)
    ensures r.top == Min(p1.y, p2.y) && r.top + r.height == Max(p1.y, p2.y)
  {
    var leftPoint := if p1.x > p2.x then p1 else p2;
    var bottomPoint := if p1.y < p2.y then p2 else p1;
    var width := Abs(p1.x - p2.x);
    var height := Abs(p1.y - p2.y);
    Rect(1.0 - leftPoint.x, bottomPoint.y - height, width, height)
  }

  /** The rectangle does not depend on which landmark comes first, ties included. */
  lemma FrameRectSymmetric(p1: Point, p2: Point)
    ensures FrameRect(p1, p2) == FrameRect(p2, p1)
  {
  }

  /** Coinciding landmarks give a zero-area rectangle at the mirrored point. */
  lemma FrameRectDegenerate(p: Point)
    ensures FrameRect(p, p) == Rect(1.0 - p.x, p.y, 0.0, 0.0)
  {
  }

  lemma FrameRectExample()
    ensures FrameRect(Point(0.3, 0.4), Point(0.6, 0.7)) == Rect(0.4, 0.4, 0.3, 0.3)
  {
  }

  /**
   * The frame rectangle is the bounding box of the two mirrored landmarks:
   * it contains both, and any rectangle containing both encloses it.
   */
  lemma FrameRectIsMirroredBoundingBox(p1: Point, p2: Point, q: Rect)
    ensures Contains(FrameRect(p1, p2), Mirror(p1)) && Contains(FrameRect(p1, p2), Mirror(p2))
    ensures Contains(q, Mirror(p1)) && Contains(q, Mirror(p2)) ==> Encloses(q, FrameRect(p1, p2))
  {
  }

  /** Landmarks inside the video frame give a rectangle inside the unit square (no clamping needed). */
  lemma FrameRectWithinUnit(p1: Point, p2: Point)
    requires InUnitSquare(p1) && InUnitSquare(p2)
    ensures WithinUnit(FrameRect(p1, p2))
  {
  }

  /** The pixel rectangle of a normalized rectangle on a `canvasWidth` x `canvasHeight` canvas. */
  function ToPixels(r: Rect, canvasWidth: nat, canvasHeight: nat): (p: PixelRect)
    ensures r.width >= 0.0 && r.height >= 0.0 ==> p.width >= 0.0 && p.height >= 0.0
    ensures canvasWidth > 0 && canvasHeight > 0 ==> FromPixels(p, canvasWidth, canvasHeight) == r
  {
    PixelRect(r.left * canvasWidth as real, r.top * canvasHeight as real,
              r.width * canvasWidth as real, r.height * canvasHeight as real)
  }

  /** Back from pixels to normalized coordinates; the inverse of ToPixels on a non-empty canvas. */
  function FromPixels(p: PixelRect, canvasWidth: nat, canvasHeight: nat): Rect
    requires canvasWidth > 0 && canvasHeight > 0
  {
    Rect(p.x / canvasWidth as real, p.y / canvasHeight as real,
         p.width / canvasWidth as real, p.height / canvasHeight as real)
  }

  /** A rectangle inside the unit square scales to a pixel rectangle inside the canvas. */
  lemma ToPixelsWithinCanvas(r: Rect, canvasWidth: nat, canvasHeight: nat)
    requires WithinUnit(r)
    ensures var p := ToPixels(r, canvasWidth, canvasHeight);
      0.0 <= p.width && 0.0 <= p.height &&
      0.0 <= p.x && p.x + p.width <= canvasWidth as real &&
      0.0 <= p.y && p.y + p.height <= canvasHeight as real
  {
  }
}
