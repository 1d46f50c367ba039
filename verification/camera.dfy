/**
 * The camera object: one `Tick` per processed video frame, the crop it
 * starts when the pinch fires, and the two timer callbacks (the 1000 ms
 * settle before the pixel read, the 5000 ms cooldown that clears the latch).
 *
 * The `clicClac` listener calls `crop()` synchronously while the event is
 * emitted, so the crop is computed inside the tick, after the gesture
 * decision and before the rectangle is recomputed from the current frame:
 * it scales the PREVIOUS tick's rectangle by the canvas size set at the
 * start of THIS tick.  The pixel rectangle is fixed at that moment; the
 * settle timer only reads the pixels and echoes the rectangle.
 */
module CameraModel {
  import opened Wrappers
  import opened Geometry
  import opened Gesture

  /** Delay between `crop()` and the pixel read, in milliseconds. */
  const SettleMs: nat := 1000

  /**
   * The canvas's conversion of a pixel coordinate to an integer (a WebIDL
   * `long`): truncation toward zero.
   */
  function TruncateToInt(v: real): (n: int)
    ensures 0.0 <= v ==> n as real <= v < n as real + 1.0
    ensures v < 0.0 ==> n as real - 1.0 < v <= n as real
    ensures n == 0 <==> -1.0 < v < 1.0
  {
    if v >= 0.0 then v.Floor else -((-v).Floor)
  }

  /** The pixel read throws (an index-size error) on a region of zero integer width or height. */
  datatype ReadError = IndexSizeError

  /** `crop()` before any rectangle was computed reads an undefined `topLeftPoint` and rejects. */
  datatype CropError = NoRectangle

  /** What the crop promise resolves to: the pixels read and the rectangle they came from. */
  datatype Capture = Capture(data: seq<bv8>, x: real, y: real, width: real, height: real)

  /**
   * The settle timer's callback on the pixel rectangle fixed by `crop()`:
   * read the region (`pixels` stands for what the canvas returns) and resolve
   * with the rectangle unchanged.  A region under one pixel wide or high
   * makes the read throw inside the timer, so the promise never resolves.
   */
  function Resolve(p: PixelRect, pixels: seq<bv8>): (r: Result<Capture, ReadError>)
    ensures r.Err? <==> -1.0 < p.width < 1.0 || -1.0 < p.height < 1.0
    ensures r.Ok? ==>
      r.value.data == pixels &&
      r.value.x == p.x && r.value.y == p.y && r.value.width == p.width && r.value.height == p.height
  {
    if TruncateToInt(p.width) == 0 || TruncateToInt(p.height) == 0 then Err(IndexSizeError)
    else Ok(Capture(pixels, p.x, p.y, p.width, p.height))
  }

  /** A framing hand whose thumb tip and index tip coincide gives a crop that never resolves. */
  lemma DegenerateFrameNeverResolves(p: Point, canvasWidth: nat, canvasHeight: nat, pixels: seq<bv8>)
    ensures Resolve(ToPixels(FrameRect(p, p), canvasWidth, canvasHeight), pixels).Err?
  {
    FrameRectDegenerate(p);
  }

  /**
   * The rectangle after a frame: recomputed from hand 0 when there is a hand,
   * kept otherwise.  The recomputed rectangle is the smallest one containing
   * both mirrored framing landmarks.
   */
  function NextRect(rect: Option<Rect>, frame: Frame): (r: Option<Rect>)
    ensures |frame| == 0 ==> r == rect
    ensures |frame| > 0 ==>
      r.Some? &&
      Contains(r.value, Mirror(frame[0][ThumbTip])) && Contains(r.value, Mirror(frame[0][IndexTip])) &&
      r.value.width >= 0.0 && r.value.height >= 0.0
    ensures |frame| > 0 ==>
      forall q: Rect :: Contains(q, Mirror(frame[0][ThumbTip])) && Contains(q, Mirror(frame[0][IndexTip])) ==>
        Encloses(q, r.value)
  {
    if |frame| > 0 then
      var t, i := frame[0][ThumbTip], frame[0][IndexTip];
      assert forall q: Rect :: Contains(q, Mirror(t)) && Contains(q, Mirror(i)) ==> Encloses(q, FrameRect(t, i)) by {
        forall q: Rect {
          FrameRectIsMirroredBoundingBox(t, i, q);
        }
      }
      Some(FrameRect(t, i))
    else rect
  }

  /** The synchronous part of `crop()`: the stored rectangle scaled to the canvas. */
  function CropRect(rect: Option<Rect>, canvasWidth: nat, canvasHeight: nat): (r: Result<PixelRect, CropError>)
    ensures r.Err? <==> rect.None?
    ensures r.Ok? && canvasWidth > 0 && canvasHeight > 0 ==>
      FromPixels(r.value, canvasWidth, canvasHeight) == rect.value
    ensures r.Ok? && WithinUnit(rect.value) ==>
      0.0 <= r.value.x && r.value.x + r.value.width <= canvasWidth as real &&
      0.0 <= r.value.y && r.value.y + r.value.height <= canvasHeight as real
  {
    match rect
    case None => Err(NoRectangle)
    case Some(q) =>
      var p := ToPixels(q, canvasWidth, canvasHeight);
      assert WithinUnit(q) ==>
        0.0 <= p.x && p.x + p.width <= canvasWidth as real &&
        0.0 <= p.y && p.y + p.height <= canvasHeight as real by {
        if WithinUnit(q) {
          ToPixelsWithinCanvas(q, canvasWidth, canvasHeight);
        }
      }
      Ok(p)
  }

  /** Whenever a reference distance is set, a rectangle has been computed. */
  predicate RectReady(g: GestureState, rect: Option<Rect>)
  {
    IsCalibrated(g.maxDistance) ==> rect.Some?
  }

  /**
   * Every tick keeps RectReady, and a tick that fires finds a rectangle from
   * an earlier tick: the crop started by a fire never rejects.
   */
  lemma StepKeepsRectReady(g: GestureState, rect: Option<Rect>, frame: Frame, canvasWidth: nat, canvasHeight: nat)
    requires RectReady(g, rect)
    ensures RectReady(Step(g, frame).next, NextRect(rect, frame))
    ensures Step(g, frame).fired ==> CropRect(rect, canvasWidth, canvasHeight).Ok?
  {
  }

  class Camera {
    /** Video time of the last detection; -1 before the first one. */
    var lastVideoTime: real
    /** The last detector result; unset before the first detection. */
    var results: Option<Frame>
    var canvasWidth: nat
    var canvasHeight: nat
    /** Squared reference pinch distance (`max_distance`). */
    var maxDistance: Option<real>
    var photoTaken: bool
    /** Whether the cooldown timer `t` is scheduled and not yet run. */
    var cooldownPending: bool
    /** `topLeftPoint`, `width` and `height`; unset until hand 0 is first seen. */
    var rect: Option<Rect>
    /** Crops whose settle timer has not run yet, oldest first. */
    var settling: seq<PixelRect>

    ghost predicate Valid()
      reads this
    {
      cooldownPending == photoTaken &&
      RectReady(GestureState(maxDistance, photoTaken), rect) &&
      (lastVideoTime >= 0.0 ==> results.Some?)
    }

    function GestureView(): GestureState
      reads this
    {
      GestureState(maxDistance, photoTaken)
    }

    constructor (canvasWidth: nat, canvasHeight: nat)
      ensures Valid()
      ensures lastVideoTime == -1.0 && results == None
      ensures this.canvasWidth == canvasWidth && this.canvasHeight == canvasHeight
      ensures GestureView() == GestureState(None, false) && !cooldownPending
      ensures rect == None && settling == []
    {
      lastVideoTime := -1.0;
      results := None;
      this.canvasWidth := canvasWidth;
      this.canvasHeight := canvasHeight;
      maxDistance := None;
      photoTaken := false;
      cooldownPending := false;
      rect := None;
      settling := [];
    }

    /** `crop()` up to its timer: compute the pixel rectangle now and queue the deferred read. */
    method Crop() returns (r: Result<PixelRect, CropError>)
      modifies this`settling
      ensures r == CropRect(rect, canvasWidth, canvasHeight)
      ensures settling == old(settling) + (if r.Ok? then [r.value] else [])
    {
      r := CropRect(rect, canvasWidth, canvasHeight);
      if r.Ok? {
        settling := settling + [r.value];
      }
    }

    /**
     * The settle timer of the oldest pending crop, SettleMs after `crop()`:
     * read the pixels and resolve with the rectangle fixed when `crop()` was
     * called, whatever ticks happened since.  An `Err` is a read that threw:
     * that crop's promise never resolves.
     */
    method SettleElapsed(pixels: seq<bv8>) returns (r: Result<Capture, ReadError>)
      requires settling != []
      modifies this`settling
      ensures r == Resolve(old(settling[0]), pixels)
      // a consequence of the clause above and Resolve's contract, spelled out for callers
      ensures r.Ok? ==>
        r.value.x == old(settling[0].x) && r.value.y == old(settling[0].y) &&
        r.value.width == old(settling[0].width) && r.value.height == old(settling[0].height)
      ensures settling == old(settling[1..])
    {
      var p := settling[0];
      settling := settling[1..];
      r := Resolve(p, pixels);
    }

    /** The cooldown timer's callback: only it clears the latch. */
    method CooldownExpired()
      requires Valid() && cooldownPending
      modifies this`photoTaken, this`cooldownPending
      ensures Valid()
      ensures GestureView() == Apply(old(GestureView()), CooldownExpiry).next
      ensures !photoTaken && !cooldownPending
    {
      photoTaken := false;
      cooldownPending := false;
    }

    /**
     * One processed video frame.  `detected` is what the detector returns when
     * it is called, which happens only when the video time has moved on;
     * otherwise the previous result is processed again.  Returns the pixel
     * rectangle of the crop started by this tick, if it fired.
     */
    method Tick(currentTime: real, detected: Frame, videoWidth: nat, videoHeight: nat)
      returns (shot: Option<PixelRect>)
      requires Valid() && currentTime >= 0.0
      modifies this
      ensures Valid()
      ensures canvasWidth == videoWidth && canvasHeight == videoHeight
      ensures lastVideoTime == currentTime
      ensures results == Some(if currentTime != old(lastVideoTime) then detected else old(results).value)
      ensures GestureView() == Step(old(GestureView()), results.value).next
      ensures shot.Some? <==> Step(old(GestureView()), results.value).fired
      ensures shot.Some? ==> old(rect).Some? && shot.value == ToPixels(old(rect).value, videoWidth, videoHeight)
      ensures rect == NextRect(old(rect), results.value)
      ensures settling == old(settling) + (if shot.Some? then [shot.value] else [])
    {
      canvasWidth, canvasHeight := videoWidth, videoHeight;
      if lastVideoTime != currentTime {
        lastVideoTime := currentTime;
        results := Some(detected);
      }
      var landmarks := results.value;
      shot := None;
      if |landmarks| > 0 {
        if |landmarks| > 1 {
          var a, b := landmarks[1][IndexTip], landmarks[1][ThumbTip];
          if !IsCalibrated(maxDistance) {
            maxDistance := Some(SquaredDistance(a, b));
          }
          var distance := SquaredDistance(a, b);
          if BelowThreshold(distance, maxDistance.value) && !photoTaken {
            photoTaken := true;
            // emit("clicClac"): the listener calls crop() before the emit returns
            var c := Crop();
            assert c.Ok?;
            shot := Some(c.value);
            // clearTimeout(t) then a new 5000 ms cooldown
            cooldownPending := true;
          }
        }
        rect := Some(FrameRect(landmarks[0][ThumbTip], landmarks[0][IndexTip]));
      } else {
        maxDistance := None;
      }
    }
  }
}
