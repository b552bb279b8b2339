/**
 * Object tracking: choosing the dominant foreground blob, taking its centroid
 * and smoothing that centroid from frame to frame (main.py, lines 70-99).
 *
 * The vision library's findContours, contourArea and moments are not modelled;
 * what they report of each blob is an input (`Blob`).
 */
module Tracking {
  import opened Optional

  /** A pixel position in the 640x480 frame. */
  datatype Point = Point(x: int, y: int)

  /** What the vision library reports of one external contour: its area and its raw moments. */
  datatype Blob = Blob(area: real, m00: real, m10: real, m01: real)

  /** A contour must enclose strictly more than this many square pixels to count as a hand. */
  const MinArea: real := 1200.0

  /** Weight of the new measurement in the exponential moving average of the centre. */
  const Alpha: real := 0.6

  /** Python's `int(v)` on a float: truncation toward zero. */
  function Trunc(v: real): (r: int)
    ensures 0.0 <= v ==> r as real <= v < r as real + 1.0
    ensures v < 0.0 ==> r as real - 1.0 < v <= r as real
  {
    if v >= 0.0 then v.Floor else -((-v).Floor)
  }

  /** Truncation never leaves an integer interval that holds its argument. */
  lemma TruncWithin(v: real, lo: int, hi: int)
    requires lo as real <= v <= hi as real
    ensures lo <= Trunc(v) <= hi
  {
  }

  /**
   * Index of the blob that Python's `max(contours, key=cv2.contourArea)` returns:
   * a blob of largest area, the first one among equals.
   */
  function Largest(blobs: seq<Blob>): (i: nat)
    requires |blobs| > 0
    ensures i < |blobs|
    ensures forall j :: 0 <= j < |blobs| ==> blobs[j].area <= blobs[i].area
    ensures forall j :: 0 <= j < i ==> blobs[j].area < blobs[i].area
  {
    if |blobs| == 1 then 0
    else
      var k := Largest(blobs[..|blobs| - 1]);
      if blobs[|blobs| - 1].area > blobs[k].area then |blobs| - 1 else k
  }

  /** The blob is big enough to be a hand and its centroid is defined. */
  predicate Accepted(b: Blob)
  {
    b.area > MinArea && b.m00 != 0.0
  }

  /**
   * The blob's centre of mass, each coordinate truncated toward zero: within one
   * pixel of the exact centre of mass, and on its side of zero.
   */
  function Centroid(b: Blob): (c: Point)
    requires b.m00 != 0.0
    ensures -1.0 < c.x as real - b.m10 / b.m00 < 1.0 && -1.0 < c.y as real - b.m01 / b.m00 < 1.0
    ensures 0.0 <= b.m10 / b.m00 ==> 0 <= c.x && c.x as real <= b.m10 / b.m00
    ensures 0.0 <= b.m01 / b.m00 ==> 0 <= c.y && c.y as real <= b.m01 / b.m00
  {
    Point(Trunc(b.m10 / b.m00), Trunc(b.m01 / b.m00))
  }

  /**
   * The raw hand centre of one frame: present exactly when there is a blob and
   * the largest one is accepted, and then the centroid of that largest blob.
   */
  function Detect(blobs: seq<Blob>): (raw: Option<Point>)
    ensures raw.Some? <==> |blobs| > 0 && Accepted(blobs[Largest(blobs)])
    ensures raw.Some? ==> raw.value == Centroid(blobs[Largest(blobs)])
  {
    if |blobs| == 0 then None
    else
      var largest := blobs[Largest(blobs)];
      if largest.area > MinArea && largest.m00 != 0.0 then Some(Centroid(largest)) else None
  }

  /** Noise only: when no blob is larger than the minimum area there is no detection. */
  lemma SmallBlobsIgnored(blobs: seq<Blob>)
    requires forall j :: 0 <= j < |blobs| ==> blobs[j].area <= MinArea
    ensures Detect(blobs) == None
  {
  }

  /**
   * A detection comes from a blob of largest area that is accepted, and its
   * centre is that blob's centroid.
   */
  lemma DetectionHasLargeBlob(blobs: seq<Blob>, p: Point)
    requires Detect(blobs) == Some(p)
    ensures exists i :: 0 <= i < |blobs| && Accepted(blobs[i]) && Centroid(blobs[i]) == p &&
                        (forall j :: 0 <= j < |blobs| ==> blobs[j].area <= blobs[i].area)
  {
    var i := Largest(blobs);
    assert Accepted(blobs[i]) && Centroid(blobs[i]) == p;
  }

  /**
   * A contour found later that is no larger than the largest one so far
   * does not change the detection: ties go to the first contour.
   */
  lemma {:induction false} LaterTieIgnored(blobs: seq<Blob>, b: Blob)
    requires |blobs| > 0
    requires b.area <= blobs[Largest(blobs)].area
    ensures Detect(blobs + [b]) == Detect(blobs)
  {
    var all := blobs + [b];
    assert all[..|all| - 1] == blobs;
    assert Largest(all) == Largest(blobs);
  }

  /**
   * The centroid of a filled axis-aligned rectangle [x0, x1] x [y0, y1] is its
   * geometric centre, each coordinate truncated (a half-pixel centre rounds down).
   */
  lemma CentroidOfRectangle(b: Blob, x0: nat, x1: nat, y0: nat, y1: nat)
    requires x0 < x1 && y0 < y1
    requires b.m00 == ((x1 - x0) * (y1 - y0)) as real
    requires b.m10 == b.m00 * (x0 + x1) as real / 2.0
    requires b.m01 == b.m00 * (y0 + y1) as real / 2.0
    ensures Centroid(b) == Point((x0 + x1) / 2, (y0 + y1) / 2)
  {
    PositiveArea(x1 - x0, y1 - y0);
    HalfMoment(b.m00, b.m10, x0 + x1);
    HalfMoment(b.m00, b.m01, y0 + y1);
  }

  lemma PositiveArea(w: nat, h: nat)
    requires w >= 1 && h >= 1
    ensures (w * h) as real > 0.0
  {
    assert w * h >= w;
  }

  /** A first moment of m00 * s / 2 over the area m00 truncates to s / 2. */
  lemma HalfMoment(m00: real, m: real, s: nat)
    requires m00 > 0.0 && m == m00 * s as real / 2.0
    ensures Trunc(m / m00) == s / 2
  {
    HalveCancels(m00, s as real);
    HalfTruncates(s);
  }

  /** Dividing the moment w * s / 2 by the area w gives s / 2. */
  lemma HalveCancels(w: real, s: real)
    requires w > 0.0
    ensures w * s / 2.0 / w == s / 2.0
  {
    var q := w * s / 2.0;
    assert q == (s / 2.0) * w;
  }

  /** Truncating half of a natural number is integer halving. */
  lemma HalfTruncates(n: nat)
    ensures Trunc(n as real / 2.0) == n / 2
  {
    var q := n / 2;
    assert n == 2 * q || n == 2 * q + 1;
    assert q as real <= n as real / 2.0 < q as real + 1.0;
  }

  /** One coordinate of the moving average: `int(0.6 * c + 0.4 * p)`. */
  function Blend(c: int, p: int): (s: int)
    ensures c <= p ==> c <= s <= p
    ensures p <= c ==> p <= s <= c
  {
    var v := Alpha * c as real + (1.0 - Alpha) * p as real;
    TruncWithin(v, if c <= p then c else p, if c <= p then p else c);
    Trunc(v)
  }

  /** A constant coordinate is a fixed point of the blend. */
  lemma BlendFixedPoint(c: int)
    ensures Blend(c, c) == c
  {
  }

  /** On frame coordinates (never negative) the blend is the integer EMA (6c + 4p) / 10. */
  lemma BlendIsIntegerAverage(c: nat, p: nat)
    ensures Blend(c, p) == (6 * c + 4 * p) / 10
  {
    var v := Alpha * c as real + (1.0 - Alpha) * p as real;
    var q := (6 * c + 4 * p) / 10;
    assert v == (6 * c + 4 * p) as real / 10.0;
    assert q * 10 <= 6 * c + 4 * p < q * 10 + 10;
    assert q as real <= v < q as real + 1.0;
  }

  /** Each coordinate of `s` lies between the matching coordinates of `a` and `b`. */
  predicate Between(s: Point, a: Point, b: Point) {
    (a.x <= b.x ==> a.x <= s.x <= b.x) && (b.x <= a.x ==> b.x <= s.x <= a.x) &&
    (a.y <= b.y ==> a.y <= s.y <= b.y) && (b.y <= a.y ==> b.y <= s.y <= a.y)
  }

  /**
   * The smoothed hand centre of a frame from its raw centre and the previous
   * smoothed centre: no raw centre forgets the track at once, the first
   * detection after a gap passes through unchanged, and otherwise each
   * coordinate is blended and lies between the raw and the previous value.
   */
  function Smooth(raw: Option<Point>, prev: Option<Point>): (center: Option<Point>)
    ensures raw.None? ==> center.None?
    ensures raw.Some? && prev.None? ==> center == raw
    ensures raw.Some? && prev.Some? ==> center.Some? && Between(center.value, raw.value, prev.value)
  {
    match raw
    case None => None
    case Some(r) =>
      match prev
      case None => Some(r)
      case Some(p) => Some(Point(Blend(r.x, p.x), Blend(r.y, p.y)))
  }

  /** The centre that precedes the next frame: the last smoothed centre, or `prev` before any frame. */
  function LastCentre(prev: Option<Point>, centers: seq<Option<Point>>): Option<Point> {
    if centers == [] then prev else centers[|centers| - 1]
  }

  /**
   * The smoothed centres of consecutive frames, starting from the previous
   * centre `prev`: the centre of each frame smooths that frame's raw centre
   * against the centre of the frame before.
   */
  function SmoothTrace(prev: Option<Point>, raws: seq<Option<Point>>): (centers: seq<Option<Point>>)
    ensures |centers| == |raws|
    ensures forall k {:trigger raws[k]} :: 0 <= k < |raws| ==>
      centers[k] == Smooth(raws[k], if k == 0 then prev else centers[k - 1])
  {
    if raws == [] then []
    else
      var init := raws[..|raws| - 1];
      var before := SmoothTrace(prev, init);
      assert forall k :: 0 <= k < |init| ==> init[k] == raws[k];
      var last := Smooth(raws[|raws| - 1], LastCentre(prev, before));
      assert LastCentre(prev, before) == if |init| == 0 then prev else (before + [last])[|init| - 1];
      before + [last]
  }

  /**
   * A hand held still at C is reported at C on every frame, from the very first
   * detected frame on (when tracking starts afresh or already sits at C).
   */
  lemma {:induction false} ConstantCentreStays(prev: Option<Point>, raws: seq<Option<Point>>, c: Point)
    requires prev == None || prev == Some(c)
    requires forall k :: 0 <= k < |raws| ==> raws[k] == Some(c)
    ensures forall k :: 0 <= k < |raws| ==> SmoothTrace(prev, raws)[k] == Some(c)
  {
    var centers := SmoothTrace(prev, raws);
    BlendFixedPoint(c.x);
    BlendFixedPoint(c.y);
    var k := 0;
    while k < |raws|
      invariant k <= |raws|
      invariant forall j :: 0 <= j < k ==> centers[j] == Some(c)
    {
      var before := if k == 0 then prev else centers[k - 1];
      assert before == None || before == Some(c);
      assert raws[k] == Some(c);
      assert centers[k] == Smooth(Some(c), before);
      k := k + 1;
    }
  }

  /**
   * A frame without a detection resets tracking, whatever came before, and the
   * next detected frame reports its raw centre unsmoothed.
   */
  lemma GapResetsTrack(prev: Option<Point>, raws: seq<Option<Point>>, k: nat)
    requires k < |raws| && raws[k] == None
    ensures SmoothTrace(prev, raws)[k] == None
    ensures k + 1 < |raws| && raws[k + 1].Some? ==> SmoothTrace(prev, raws)[k + 1] == raws[k + 1]
  {
  }
}
