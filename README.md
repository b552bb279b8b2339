# Hand-proximity safety monitor: the per-frame decision layer

The monitor watches one camera stream. For the first 60 frames it only builds
a background image. On every later frame it looks for the largest moving
blob (the hand), takes the blob's centre, smooths that centre, and classifies
its horizontal distance to a virtual boundary line at x = 300 as SAFE, WARNING
or DANGER. The zone shown to the user changes only after the same zone has
been computed on 3 frames in a row.

This project models that decision layer of `main()` in `main.py`. It proves
the properties the code promises.

- `optional.dfy`: `Option`, used for "no detection" and "no tracked centre".
- `tracking.dfy` (module `Tracking`):
  - choosing the largest contour (first one among equals);
  - the acceptance test (area > 1200 and m00 != 0);
  - the centroid, truncated toward zero as Python's `int()` does;
  - the moving average of the centre: 0.6 × raw + 0.4 × previous, then truncated;
  - the reset when a frame has no detection.
- `proximity.dfy` (module `Proximity`): the zones and their severity order.
  The classification uses distance thresholds 120 and 50.
- `debounce.dfy` (module `Debounce`): the hysteresis counter (`prev_state`,
  `state_count`, `state_display`) as a value, and its behaviour over traces.
- `background.dfy` (module `Background`): calibration with `accumulateWeighted`
  at weight 1/n on exact reals. It proves that the background is the per-pixel
  mean of the calibration frames.
- `pipeline.dfy` (module `Pipeline`):
  - `Step` and `Run` specify one loop iteration and a whole stream of frames.
  - The class `FramePipeline` holds the loop-carried variables as fields, and
    `ProcessFrame` updates them in place. It is proved equal to `Step` and to
    preserve the loop invariant `WellFormed`.
  - `Monitor` runs the capture loop over a finite stream. It is proved to
    produce the outputs of `Run`.

The vision library is not modelled, apart from `accumulateWeighted`, which
`background.dfy` states on exact reals. What it reports of a frame is an input
(`Frame`): the grayscale image, and for each external contour its area and
its moments m00, m10 and m01. The end of the frame sequence stands for the
first failed read, which ends the loop.

The smoothed centre is truncated with `int()` (main.py:92-93). The comment at
main.py:97 says the previous centre is "slowly" forgotten, but main.py:98-99
forget it at once, on the first frame with no detection; the model does the
same.

## Model

| member | source | states |
|---|---|---|
| Tracking.Trunc | main.py:81-82 | `int()` on a float: the result is the integer part, truncated toward zero for both signs |
| Tracking.Largest | main.py:73-75 | the chosen contour has maximal area, and every earlier contour is strictly smaller (Python's `max` keeps the first maximum) |
| Tracking.Detect | main.py:70-83 | a raw centre exists iff there is a contour whose largest one has area > 1200 and m00 != 0; it is then that contour's truncated centroid (m10/m00, m01/m00) |
| Tracking.SmallBlobsIgnored | main.py:77 | when no contour is larger than 1200 there is no detection |
| Tracking.DetectionHasLargeBlob | main.py:74-83 | a detection comes from an accepted contour of maximal area, and its centre is that contour's centroid |
| Tracking.LaterTieIgnored | main.py:74 | appending a contour no larger than the current largest does not change the detection |
| Tracking.Centroid | main.py:79-83 | each coordinate is within one pixel of the exact centre of mass (m10/m00, m01/m00), and for a non-negative centre of mass it is its integer part |
| Tracking.CentroidOfRectangle | main.py:79-83 | a filled rectangle [x0, x1] × [y0, y1] gets its geometric centre ((x0 + x1) / 2, (y0 + y1) / 2), each coordinate truncated |
| Tracking.Blend | main.py:90-94 | each smoothed coordinate lies between the raw and the previous value |
| Tracking.BlendFixedPoint | main.py:92-93 | blending a coordinate with itself returns it unchanged |
| Tracking.BlendIsIntegerAverage | main.py:92-93 | for non-negative coordinates the blend equals the integer average (6c + 4p) / 10 |
| Tracking.Smooth | main.py:86-99 | no raw centre gives no centre; the first detection after a gap is passed through unsmoothed; otherwise the centre lies between the raw and the previous centre |
| Tracking.SmoothTrace | main.py:86-99 | over a sequence of raw centres, every reported centre is the smoothing of that frame's raw centre with the centre reported on the frame before (the given one for the first frame) |
| Tracking.ConstantCentreStays | main.py:86-95 | a raw centre held constant at C is reported as C on every frame from the first detection on |
| Tracking.GapResetsTrack | main.py:96-99 | a frame without detection reports no centre, and the next detected frame reports its raw centre unsmoothed |
| Proximity.Distance | main.py:113 | the distance is the absolute horizontal offset from x = 300 |
| Proximity.Classify | main.py:111-119 | no tracked hand is classified SAFE |
| Proximity.ClassifyBands | main.py:111-119 | SAFE iff distance > 120, WARNING iff 50 < distance <= 120, DANGER iff distance <= 50 |
| Proximity.ClassifyMonotone | main.py:113-119 | a hand nearer the line is at least as severe, in the order SAFE < WARNING < DANGER |
| Proximity.ClassifySymmetric | main.py:113 | the zone depends only on the distance: both sides of the line and any y agree |
| Debounce.Update | main.py:122-129 | the latest zone becomes the computed zone; the counter goes up by one on a repeat and restarts at 1 otherwise; the display changes only when the counter has reached 3, and then to the computed zone |
| Debounce.Settle | main.py:121-129 | after a non-empty trace the latest zone is the last computed one and the counter is at least 1; the displayed zone is SAFE or one of the computed zones |
| Debounce.Displays | main.py:121-129 | the displayed zone of every frame of a trace is the display of the debouncer after that prefix |
| Debounce.SettleCountsRun | main.py:122-126 | after a trace, the latest zone is the last computed one and the counter is exactly the length of its trailing run |
| Debounce.CommitAfterRun | main.py:128-129 | three equal computed zones in a row always put that zone on display |
| Debounce.ChangeNeedsRun | main.py:128-129 | the display changes only on a frame that ends a run of three equal computed zones, and then shows that zone |
| Debounce.BlipIgnored | main.py:121-129 | a new zone computed on fewer than 3 consecutive frames never changes the display |
| Debounce.ExampleTrace | main.py:122-129 | computed zones SAFE, SAFE, WARNING, WARNING, WARNING, DANGER are displayed as SAFE, SAFE, SAFE, SAFE, WARNING, WARNING |
| Background.AccumulateWeighted | main.py:41 | the weighted update keeps the image size |
| Background.Calibrate | main.py:38-41 | the background keeps the frame's size, and the first calibration frame is copied unchanged; the value after later frames is stated by Background.CalibrationIsMean |
| Background.Calibration | main.py:36-41 | a background exists iff at least one calibration frame was read, at the frame's size |
| Background.RunningMeanStep | main.py:41 | folding the n-th sample into the mean of n - 1 samples with weight 1/n gives the mean of n samples |
| Background.CalibrationIsMean | main.py:36-41 | after calibration every background pixel is the arithmetic mean of that pixel over the calibration frames |
| Pipeline.Step | main.py:33-129 | each frame raises the frame count by one; during warm-up it reports progress and leaves the centre and debouncer untouched; after warm-up it freezes the background and reports the displayed zone and the stored centre; the loop invariant is kept |
| Pipeline.TrackingStep | main.py:86-129 | after warm-up: no detection reports no centre and computes SAFE; after a gap the raw centre is reported; the stored centre equals the reported one; the latest zone classifies it; the display changes only once the count reaches 3 |
| Pipeline.Run | main.py:26-30 | after n frames the frame count is n, there is one output per frame, and the loop invariant holds |
| Pipeline.RunOutputAt | main.py:26-47 | the k-th output is the step of frame k from the state the earlier frames left |
| Pipeline.WarmupOnlyCalibrates | main.py:33-47 | the first 60 frames report calibration progress 1, 2, ... and leave tracking and debouncing at their initial values |
| Pipeline.RunBackground | main.py:36-41 | the background is the calibration over the first min(n, 60) frames; it is frozen afterwards |
| Pipeline.BackgroundIsMean | main.py:36-41 | every background pixel is the mean of that pixel over the first min(n, 60) frames |
| Pipeline.Centres | main.py:86-99 | one smoothed centre per frame after warm-up, none during warm-up |
| Pipeline.RunSmooths | main.py:70-99 | the centre the pipeline reports on every frame after warm-up is the smoothing, over the post-warm-up frames, of each frame's detection; the stored previous centre is the last of them |
| Pipeline.RunDebounces | main.py:111-129 | the pipeline's debouncer equals the debouncer fed with the classifications of the smoothed centres of the post-warm-up detections |
| Pipeline.PreviousDebounce | main.py:121-129 | the debouncer one frame earlier is the one fed with all computed zones but the last |
| Pipeline.DisplayChangesOnlyWhenStable | main.py:121-129 | in the running pipeline the displayed zone changes only when the last three computed zones are equal, and then to that zone |
| Pipeline.FramePipeline.constructor | main.py:11-24 | starts with no frames, no background, no centre, SAFE/SAFE and a zero counter |
| Pipeline.FramePipeline.ProcessFrame | main.py:33-129 | updates the fields in place exactly as `Step` specifies, keeping the loop invariant |
| Pipeline.Monitor | main.py:26-30 | running the loop over a stream of frames yields exactly the outputs of `Run` |

## Left out

- Camera capture and resizing are not modelled, and neither is the read failure itself. A finite sequence of frames of the fixed size stands for them; its end is the failed read that ends the loop.
- Pressing `q` to stop is not modelled; it is keyboard input that only ends the loop.
- All rendering is left out: `putText`, `imshow`, `drawContours`, `circle`, `line` and the foreground-mask window. The model returns what would be drawn (`Output`).
- Pixel-level image processing is left out because it is foreign library code. This covers `cvtColor`, `GaussianBlur`, `convertScaleAbs`, `absdiff`, `threshold`, `morphologyEx` and `findContours`. Its results (the grayscale image and each contour's area and moments) are inputs.
- `contourArea` and `moments` themselves are inputs and are not computed from contour points.
- The FPS measurement is left out. It reads the wall clock and only feeds a diagnostic overlay.
- Tracking.Detect: the centroid truncates the exact quotient m10/m00; the program divides in floating point, where a quotient just below an integer can round up to it, so the model's coordinate can be one pixel lower.
- Tracking.Blend: exact real arithmetic replaces float arithmetic, so an `int()` at an exact integer boundary where float rounding differs by one is not captured.
- Background.Calibrate: exact reals replace the float32 accumulator, so rounding in `accumulateWeighted` is not captured.
