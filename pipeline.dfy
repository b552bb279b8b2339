/**
 * The per-frame decision layer of the monitor (main.py, lines 11-129): warm-up
 * gating with background calibration, detection and smoothing of the hand
 * centre, proximity classification and debouncing of the displayed zone.
 *
 * `Step` and `Run` state what one frame and a stream of frames do to the
 * loop-carried state; `FramePipeline` holds that state in fields and updates it
 * in place, frame by frame, as the capture loop does.
 */
module Pipeline {
  import opened Optional
  import opened Tracking
  import opened Proximity
  import opened Debounce
  import opened Background

  /**
   * What the vision library makes of one camera frame: its grayscale image
   * (used while calibrating) and the external contours of its cleaned
   * foreground mask (used afterwards).
   */
  datatype Frame = Frame(gray: seq<real>, blobs: seq<Blob>)

  /** Every frame is resized to the fixed resolution. */
  predicate ValidFrame(f: Frame) {
    |f.gray| == FramePixels
  }

  /** What a frame hands to the display: calibration progress, or the displayed zone and hand centre. */
  datatype Output = Calibrating(progress: nat) | Monitoring(display: Zone, center: Option<Point>)

  /**
   * The loop-carried state: frames read so far, the background model, the
   * previous smoothed centre and the debouncer.
   */
  datatype LoopState = LoopState(
    frameCount: nat,
    background: Option<seq<real>>,
    prevCenter: Option<Point>,
    debounce: Debouncer)

  /** The state before the first frame is read. */
  const Start: LoopState := LoopState(0, None, None, Initial)

  /**
   * The invariant of the loop: a background exactly once a frame has been read,
   * of the frame's size; nothing tracked or debounced during warm-up; and at
   * least one classified frame counted after it.
   */
  predicate WellFormed(s: LoopState) {
    && (s.background.Some? <==> s.frameCount >= 1)
    && (s.background.Some? ==> |s.background.value| == FramePixels)
    && (s.frameCount <= WarmupFrames ==> s.prevCenter.None? && s.debounce == Initial)
    && (s.frameCount > WarmupFrames ==> s.debounce.count >= 1)
  }

  datatype StepResult = StepResult(state: LoopState, output: Output)

  /**
   * One iteration of the capture loop on a frame that was read. Warm-up frames
   * only calibrate; later frames leave the background alone and report the
   * displayed zone and the hand centre that they store for the next frame.
   */
  function Step(s: LoopState, f: Frame): (r: StepResult)
    requires WellFormed(s) && ValidFrame(f)
    ensures WellFormed(r.state)
    ensures r.state.frameCount == s.frameCount + 1
    ensures r.state.frameCount <= WarmupFrames ==>
      && r.output == Calibrating(r.state.frameCount)
      && r.state.prevCenter == s.prevCenter
      && r.state.debounce == s.debounce
    ensures r.state.frameCount > WarmupFrames ==>
      && r.state.background == s.background
      && r.output == Monitoring(r.state.debounce.display, r.state.prevCenter)
  {
    var n := s.frameCount + 1;
    if n <= WarmupFrames then
      StepResult(s.(frameCount := n, background := Some(Calibrate(s.background, f.gray, n))), Calibrating(n))
    else
      var center := Smooth(Detect(f.blobs), s.prevCenter);
      var debounce := Update(s.debounce, Classify(center));
      StepResult(s.(frameCount := n, prevCenter := center, debounce := debounce), Monitoring(debounce.display, center))
  }

  /**
   * After warm-up: no detection forgets the track and computes SAFE; the first
   * detection after a gap is reported unsmoothed; the stored centre is the one
   * reported; the latest computed zone is the classification of that centre;
   * and the display changes only once the zone has been stable long enough.
   */
  lemma TrackingStep(s: LoopState, f: Frame)
    requires WellFormed(s) && ValidFrame(f) && s.frameCount >= WarmupFrames
    ensures Step(s, f).output.Monitoring?
    ensures Detect(f.blobs) == None ==>
      Step(s, f).output.center == None && Step(s, f).state.debounce.prev == Safe
    ensures s.prevCenter == None ==> Step(s, f).output.center == Detect(f.blobs)
    ensures Step(s, f).state.prevCenter == Step(s, f).output.center
    ensures Step(s, f).state.debounce.prev == Classify(Step(s, f).output.center)
    ensures Step(s, f).output.display != s.debounce.display ==>
      Step(s, f).state.debounce.count >= StableFrames &&
      Step(s, f).output.display == Step(s, f).state.debounce.prev
  {
  }

  /** All frames of a stream are of the fixed resolution. */
  predicate ValidFrames(fs: seq<Frame>) {
    forall k :: 0 <= k < |fs| ==> ValidFrame(fs[k])
  }

  datatype RunResult = RunResult(state: LoopState, outputs: seq<Output>)

  /** The capture loop over a stream of frames, ending when no more frame can be read. */
  function Run(fs: seq<Frame>): (r: RunResult)
    requires ValidFrames(fs)
    ensures WellFormed(r.state)
    ensures r.state.frameCount == |fs|
    ensures |r.outputs| == |fs|
  {
    if fs == [] then RunResult(Start, [])
    else
      var before := Run(fs[..|fs| - 1]);
      var step := Step(before.state, fs[|fs| - 1]);
      RunResult(step.state, before.outputs + [step.output])
  }

  /** Reading frame k applies `Step` to the state the frames before it left. */
  lemma RunExtend(fs: seq<Frame>, k: nat)
    requires ValidFrames(fs) && k < |fs|
    ensures Run(fs[..k + 1]) == RunResult(Step(Run(fs[..k]).state, fs[k]).state,
                                          Run(fs[..k]).outputs + [Step(Run(fs[..k]).state, fs[k]).output])
  {
    assert fs[..k + 1][..k] == fs[..k];
    RunSnoc(fs[..k + 1]);
  }

  /** The same, for a step result already at hand: it extends the run by frame k. */
  lemma RunExtendBy(fs: seq<Frame>, k: nat, after: LoopState, out: Output)
    requires ValidFrames(fs) && k < |fs|
    requires StepResult(after, out) == Step(Run(fs[..k]).state, fs[k])
    ensures after == Run(fs[..k + 1]).state
    ensures Run(fs[..k + 1]).outputs == Run(fs[..k]).outputs + [out]
  {
    RunExtend(fs, k);
  }

  /** Reading one more frame applies `Step` to the state the earlier frames left. */
  lemma RunSnoc(fs: seq<Frame>)
    requires ValidFrames(fs) && fs != []
    ensures Run(fs) == RunResult(Step(Run(fs[..|fs| - 1]).state, fs[|fs| - 1]).state,
                                 Run(fs[..|fs| - 1]).outputs + [Step(Run(fs[..|fs| - 1]).state, fs[|fs| - 1]).output])
  {
  }

  /** Each output of a stream is what its frame's step produced from the state the earlier frames left. */
  lemma {:induction false} RunOutputAt(fs: seq<Frame>, k: nat)
    requires ValidFrames(fs) && k < |fs|
    ensures Run(fs).outputs[k] == Step(Run(fs[..k]).state, fs[k]).output
  {
    var init := fs[..|fs| - 1];
    if k < |fs| - 1 {
      RunOutputAt(init, k);
      assert init[..k] == fs[..k];
    } else {
      assert init == fs[..k];
    }
  }

  /**
   * The first WarmupFrames frames only report calibration progress, and leave
   * the tracking and debouncing state as it started.
   */
  lemma WarmupOnlyCalibrates(fs: seq<Frame>)
    requires ValidFrames(fs) && |fs| <= WarmupFrames
    ensures forall k :: 0 <= k < |fs| ==> Run(fs).outputs[k] == Calibrating(k + 1)
    ensures Run(fs).state.prevCenter == None && Run(fs).state.debounce == Initial
  {
    forall k | 0 <= k < |fs|
      ensures Run(fs).outputs[k] == Calibrating(k + 1)
    {
      RunOutputAt(fs, k);
    }
  }

  /** The grayscale images of a stream of frames. */
  function Grays(fs: seq<Frame>): (grays: seq<seq<real>>)
    ensures |grays| == |fs|
    ensures forall k :: 0 <= k < |fs| ==> grays[k] == fs[k].gray
  {
    seq(|fs|, k requires 0 <= k < |fs| => fs[k].gray)
  }

  function Min(a: nat, b: nat): nat {
    if a <= b then a else b
  }

  /** The background is the calibration over the first min(|fs|, WarmupFrames) frames. */
  lemma {:induction false} RunBackground(fs: seq<Frame>)
    requires ValidFrames(fs)
    ensures SameSize(Grays(fs[..Min(|fs|, WarmupFrames)]), FramePixels)
    ensures Run(fs).state.background == Calibration(Grays(fs[..Min(|fs|, WarmupFrames)]), FramePixels)
  {
    if fs != [] {
      var n := |fs|;
      var init := fs[..n - 1];
      RunBackground(init);
      if n <= WarmupFrames {
        assert init[..Min(n - 1, WarmupFrames)] == init;
        assert fs[..Min(n, WarmupFrames)] == fs;
        assert Grays(fs)[..n - 1] == Grays(init);
      } else {
        assert init[..Min(n - 1, WarmupFrames)] == fs[..Min(n, WarmupFrames)];
      }
    }
  }

  /**
   * Every pixel of the background model is the arithmetic mean of that pixel
   * over the calibration frames read so far, and it is frozen once warm-up ends.
   */
  lemma BackgroundIsMean(fs: seq<Frame>, i: nat)
    requires ValidFrames(fs) && fs != [] && i < FramePixels
    ensures Run(fs).state.background.Some?
    ensures Run(fs).state.background.value[i]
         == PixelSum(Grays(fs[..Min(|fs|, WarmupFrames)]), i) / Min(|fs|, WarmupFrames) as real
  {
    RunBackground(fs);
    CalibrationIsMean(Grays(fs[..Min(|fs|, WarmupFrames)]), FramePixels, i);
  }

  /** The raw centres detected on the frames `fs`. */
  function Detections(fs: seq<Frame>): (raws: seq<Option<Point>>)
    ensures |raws| == |fs|
    ensures forall k :: 0 <= k < |fs| ==> raws[k] == Detect(fs[k].blobs)
  {
    seq(|fs|, k requires 0 <= k < |fs| => Detect(fs[k].blobs))
  }

  /** The smoothed centres of the frames after warm-up, tracking starting afresh. */
  function Centres(fs: seq<Frame>): (centers: seq<Option<Point>>)
    ensures |centers| == |fs| - Min(|fs|, WarmupFrames)
  {
    if |fs| <= WarmupFrames then [] else SmoothTrace(None, Detections(fs[WarmupFrames..]))
  }

  /** Detecting on one more frame appends that frame's detection. */
  lemma DetectionsSnoc(fs: seq<Frame>, f: Frame)
    ensures Detections(fs + [f]) == Detections(fs) + [Detect(f.blobs)]
  {
    var all := fs + [f];
    assert forall k :: 0 <= k < |fs| ==> all[k] == fs[k];
  }

  /** One more frame after warm-up adds one smoothed centre, computed from the last one. */
  lemma CentresSnoc(fs: seq<Frame>)
    requires |fs| > WarmupFrames
    ensures Centres(fs) == Centres(fs[..|fs| - 1]) +
      [Smooth(Detect(fs[|fs| - 1].blobs), LastCentre(None, Centres(fs[..|fs| - 1])))]
  {
    var init, last := fs[..|fs| - 1], fs[|fs| - 1];
    assert fs[WarmupFrames..] == init[WarmupFrames..] + [last];
    DetectionsSnoc(init[WarmupFrames..], last);
    var raws := Detections(fs[WarmupFrames..]);
    assert raws[..|raws| - 1] == Detections(init[WarmupFrames..]);
    if |init| == WarmupFrames {
      assert Detections(init[WarmupFrames..]) == [];
    }
  }

  /**
   * The centres the running pipeline reports after warm-up are exactly the
   * smoothed trace of the frames' detections, and the stored previous centre
   * is the last of them.
   */
  lemma {:induction false} RunSmooths(fs: seq<Frame>)
    requires ValidFrames(fs)
    ensures Run(fs).state.prevCenter == LastCentre(None, Centres(fs))
    ensures forall k :: WarmupFrames <= k < |fs| ==>
      Run(fs).outputs[k].Monitoring? && Run(fs).outputs[k].center == Centres(fs)[k - WarmupFrames]
  {
    if |fs| > WarmupFrames {
      var init, last := fs[..|fs| - 1], fs[|fs| - 1];
      RunSmooths(init);
      CentresSnoc(fs);
      RunSnoc(fs);
      var before := Run(init);
      var step := Step(before.state, last);
      assert step.state.prevCenter == Smooth(Detect(last.blobs), before.state.prevCenter);
      assert step.output.center == step.state.prevCenter;
      forall k | WarmupFrames <= k < |fs|
        ensures Run(fs).outputs[k].Monitoring? && Run(fs).outputs[k].center == Centres(fs)[k - WarmupFrames]
      {
        if k < |fs| - 1 {
          assert Run(fs).outputs[k] == before.outputs[k];
          assert Centres(fs)[k - WarmupFrames] == Centres(init)[k - WarmupFrames];
        } else {
          assert Run(fs).outputs[k] == step.output;
        }
      }
    }
  }

  /** The zones computed on the frames after warm-up: the classification of each reported centre. */
  function Zones(fs: seq<Frame>): (zs: seq<Zone>)
    ensures |zs| == |Centres(fs)|
    ensures forall j :: 0 <= j < |zs| ==> zs[j] == Classify(Centres(fs)[j])
  {
    var centers := Centres(fs);
    seq(|centers|, j requires 0 <= j < |centers| => Classify(centers[j]))
  }

  /** One more frame after warm-up adds the classification of its centre. */
  lemma ZonesSnoc(fs: seq<Frame>)
    requires |fs| > WarmupFrames
    ensures Zones(fs) == Zones(fs[..|fs| - 1]) + [Classify(LastCentre(None, Centres(fs)))]
  {
    CentresSnoc(fs);
  }

  /** Dropping the last frame after warm-up drops the last zone. */
  lemma ZonesDropLast(fs: seq<Frame>)
    requires |fs| > WarmupFrames
    ensures |Zones(fs)| > 0 && Zones(fs)[..|Zones(fs)| - 1] == Zones(fs[..|fs| - 1])
  {
    ZonesSnoc(fs);
  }

  /**
   * The pipeline's debouncer is exactly the debouncer fed with the zones of the
   * centres it reported after warm-up, so every property of `Settle` holds of
   * the displayed zone.
   */
  lemma {:induction false} RunDebounces(fs: seq<Frame>)
    requires ValidFrames(fs)
    ensures Run(fs).state.debounce == Settle(Zones(fs))
  {
    if |fs| > WarmupFrames {
      var init := fs[..|fs| - 1];
      RunDebounces(init);
      RunSmooths(fs);
      ZonesSnoc(fs);
      var before := Run(init).state;
      var after := Step(before, fs[|fs| - 1]).state;
      assert Run(fs).state == after;
      assert after.debounce == Update(before.debounce, Classify(after.prevCenter));
      var zs := Zones(fs);
      assert zs[..|zs| - 1] == Zones(init);
    }
  }

  /** The debouncer one frame earlier is the one fed with all but the last zone. */
  lemma PreviousDebounce(fs: seq<Frame>)
    requires ValidFrames(fs) && |fs| > WarmupFrames
    ensures |Zones(fs)| > 0
    ensures Run(fs[..|fs| - 1]).state.debounce == Settle(Zones(fs)[..|Zones(fs)| - 1])
  {
    RunDebounces(fs[..|fs| - 1]);
    ZonesDropLast(fs);
  }

  /**
   * After warm-up the displayed zone changes on a frame only when the last three
   * computed zones are equal, and then it shows that zone.
   */
  lemma DisplayChangesOnlyWhenStable(fs: seq<Frame>)
    requires ValidFrames(fs) && |fs| > WarmupFrames
    requires Run(fs).state.debounce.display != Run(fs[..|fs| - 1]).state.debounce.display
    ensures EndsWithRun(Zones(fs), StableFrames)
    ensures Run(fs).state.debounce.display == Zones(fs)[|Zones(fs)| - 1]
  {
    RunDebounces(fs);
    PreviousDebounce(fs);
    ChangeNeedsRun(Zones(fs));
  }

  /** The capture loop's state, held in fields and updated in place on every frame. */
  class FramePipeline {
    var frameCount: nat
    var background: Option<seq<real>>
    var prevCenter: Option<Point>
    var prevState: Zone
    var stateCount: nat
    var stateDisplay: Zone

    ghost function State(): LoopState
      reads this
    {
      LoopState(frameCount, background, prevCenter, Debouncer(prevState, stateCount, stateDisplay))
    }

    ghost predicate Valid()
      reads this
    {
      WellFormed(State())
    }

    constructor ()
      ensures Valid() && State() == Start
    {
      frameCount := 0;
      background := None;
      prevCenter := None;
      prevState := Safe;
      stateCount := 0;
      stateDisplay := Safe;
    }

    /** One iteration of the capture loop's body on a frame that was read. */
    method ProcessFrame(f: Frame) returns (out: Output)
      requires Valid() && ValidFrame(f)
      modifies this
      ensures Valid()
      ensures StepResult(State(), out) == Step(old(State()), f)
    {
      frameCount := frameCount + 1;
      if frameCount <= WarmupFrames {
        if background.None? {
          background := Some(f.gray);
        } else {
          background := Some(AccumulateWeighted(f.gray, background.value, 1.0 / frameCount as real));
        }
        return Calibrating(frameCount);
      }

      var raw := Detect(f.blobs);
      var center: Option<Point> := None;
      if raw.Some? {
        if prevCenter.None? {
          center := raw;
        } else {
          center := Some(Point(Blend(raw.value.x, prevCenter.value.x), Blend(raw.value.y, prevCenter.value.y)));
        }
        prevCenter := center;
      } else {
        prevCenter := None;
        center := None;
      }

      var computed := Classify(center);
      if computed == prevState {
        stateCount := stateCount + 1;
      } else {
        stateCount := 1;
        prevState := computed;
      }
      if stateCount >= StableFrames {
        stateDisplay := prevState;
      }
      out := Monitoring(stateDisplay, center);
    }
  }

  /**
   * The capture loop over the frames the camera delivers; the loop ends when
   * no further frame can be read. Its outputs are those of `Run`.
   */
  method Monitor(frames: seq<Frame>) returns (outs: seq<Output>)
    requires ValidFrames(frames)
    ensures outs == Run(frames).outputs
  {
    var pipeline := new FramePipeline();
    outs := [];
    var k := 0;
    while k < |frames|
      invariant 0 <= k <= |frames|
      invariant ValidFrames(frames[..k])
      invariant pipeline.State() == Run(frames[..k]).state
      invariant outs == Run(frames[..k]).outputs
    {
      var out := pipeline.ProcessFrame(frames[k]);
      RunExtendBy(frames, k, pipeline.State(), out);
      outs := outs + [out];
      k := k + 1;
    }
    assert frames[..k] == frames;
  }
}
