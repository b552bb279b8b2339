/**
 * Background calibration (main.py, lines 11-13 and 33-47): during the first
 * WarmupFrames frames every grayscale frame is folded into a running average
 * of the scene; afterwards that reference image is never changed again.
 *
 * Pixels are exact reals: the float32 rounding of the vision library is not
 * modelled.
 */
module Background {
  import opened Optional

  /** Number of frames spent calibrating the background. */
  const WarmupFrames: nat := 60

  /** Every frame is resized to 640 x 480 before it is used. */
  const FramePixels: nat := 640 * 480

  /** The vision library's `accumulateWeighted`: dst becomes (1 - alpha) * dst + alpha * src. */
  function AccumulateWeighted(src: seq<real>, dst: seq<real>, alpha: real): (r: seq<real>)
    requires |src| == |dst|
    ensures |r| == |dst|
  {
    seq(|dst|, i requires 0 <= i < |dst| => (1.0 - alpha) * dst[i] + alpha * src[i])
  }

  /**
   * The background after calibration frame number `n` (counted from 1) with
   * grayscale image `gray`: a copy of the first frame, then a weighted update
   * with weight 1/n.
   */
  function Calibrate(background: Option<seq<real>>, gray: seq<real>, n: nat): (r: seq<real>)
    requires n >= 1
    requires background.Some? ==> |background.value| == |gray|
    ensures |r| == |gray|
    ensures background.None? ==> r == gray
  {
    match background
    case None => gray
    case Some(b) => AccumulateWeighted(gray, b, 1.0 / n as real)
  }

  /** All images have `size` pixels. */
  predicate SameSize(grays: seq<seq<real>>, size: nat) {
    forall k :: 0 <= k < |grays| ==> |grays[k]| == size
  }

  /** The background after calibrating on the frames `grays` in order. */
  function Calibration(grays: seq<seq<real>>, size: nat): (r: Option<seq<real>>)
    requires SameSize(grays, size)
    ensures r.None? <==> grays == []
    ensures r.Some? ==> |r.value| == size
  {
    if grays == [] then None
    else
      var n := |grays|;
      Some(Calibrate(Calibration(grays[..n - 1], size), grays[n - 1], n))
  }

  /** The sum of pixel `i` over all the images. */
  function PixelSum(grays: seq<seq<real>>, i: nat): real
    requires forall k :: 0 <= k < |grays| ==> i < |grays[k]|
  {
    if grays == [] then 0.0 else PixelSum(grays[..|grays| - 1], i) + grays[|grays| - 1][i]
  }

  /** Folding sample number n into the mean of the first n - 1 samples with weight 1/n gives the mean of n. */
  lemma RunningMeanStep(sum: real, g: real, n: nat)
    requires n >= 2
    ensures (1.0 - 1.0 / n as real) * (sum / (n - 1) as real) + (1.0 / n as real) * g == (sum + g) / n as real
  {
    var big, small := n as real, (n - 1) as real;
    var mean := sum / small;
    assert mean * small == sum;
    assert 1.0 - 1.0 / big == small / big;
    calc {
      (small / big) * mean;
      (mean * small) / big;
      sum / big;
    }
    assert (1.0 / big) * g == g / big;
  }

  /**
   * After calibrating on any non-empty run of frames, every pixel of the
   * background is the arithmetic mean of that pixel over the frames.
   */
  lemma {:induction false} CalibrationIsMean(grays: seq<seq<real>>, size: nat, i: nat)
    requires SameSize(grays, size) && grays != [] && i < size
    ensures Calibration(grays, size).value[i] == PixelSum(grays, i) / |grays| as real
  {
    var n := |grays|;
    var init := grays[..n - 1];
    if n > 1 {
      CalibrationIsMean(init, size, i);
      RunningMeanStep(PixelSum(init, i), grays[n - 1][i], n);
    }
  }
}
