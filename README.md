# Double-parking detector: per-frame decision logic

A Dafny model of the decision logic of `yolov11_custom.py`, a script that runs a
vehicle detector on each camera frame, checks the detected bounding boxes against
two fixed regions of the image, declares the frame "double parked" when both
regions are occupied, writes that flag as `{"dpark": ...}`, sounds an alert at
most once per five-second cooldown and draws a status banner.

- `geometry.dfy` (module `Geometry`): the rectangle type `Box` and the
  separating-axis overlap test `Overlaps` (`check_overlap`), with its exact
  geometric meaning proved.
- `frame.dfy` (module `FrameLogic`): the two regions `Region1 = (10, 15, 320, 445)`
  and `Region2 = (320, 15, 630, 445)`; the detector output as a list of results
  each holding a list of boxes, flattened by `Flatten`; region occupancy
  `Occupied` and `DoubleParked` as the specification; the nested detection loop
  as the method `ScanDetections`, proved against it; the banner choice.
- `alert.dfy` (module `Alerting`): the cooldown rule as functions over a run of
  frames (`Fires`, `AlertTimes`, `LastAlertAfter`), the rate-limiting lemmas,
  and the class `AlertLimiter` whose field `lastAlertTime` is the script's global
  `last_alert_time`; its method `ProcessFrame` is one iteration of the frame loop.
  Ghost fields record the frames seen and the alerts fired, and `Valid()` ties
  them and `lastAlertTime` to `AlertTimes` and `LastAlertAfter`, so every lemma
  about those functions applies to the object's history.

Time is an integer tick count passed in as `now`; the cooldown is 5 ticks and
the stored time starts at 0, as in the script.

## Model

| member | source | states |
|---|---|---|
| `Geometry.OverlapsIffCommonPoint` | yolov11_custom.py:27-31 | for well-formed rectangles the overlap test holds exactly when box and region share a pixel (closed rectangles) |
| `Geometry.TouchingEdgeOverlaps` | yolov11_custom.py:31 | a box whose right edge equals the region's left edge and whose y-range meets the region's is reported as overlapping, and all shared pixels lie on that edge |
| `Geometry.SeparatedNeverOverlaps` | yolov11_custom.py:31 | a box strictly to one side of the region is rejected, in either argument order |
| `FrameLogic.Flatten` | yolov11_custom.py:49-50 | the frame's detections are exactly the boxes of all results |
| `FrameLogic.OccupiedAppend` | yolov11_custom.py:65-68 | occupancy of a concatenation is the OR of the parts, so later boxes never clear a flag |
| `FrameLogic.OccupiedSnoc` | yolov11_custom.py:65-68 | one more box sets a region's flag exactly when it overlaps that region |
| `FrameLogic.OccupiedPermutation` | yolov11_custom.py:49-68 | scanning the detections in any order gives the same flags |
| `FrameLogic.ScanDetections` | yolov11_custom.py:45-68 | after the nested loop each flag is true iff some detection overlaps that region; the two tests are independent |
| `FrameLogic.NoDetectionsNotDoubleParked` | yolov11_custom.py:45-80 | a frame with no boxes is not double-parked, so the written status is `{"dpark": false}` |
| `FrameLogic.SingleBoxDoubleParks` | yolov11_custom.py:17-18 | since the regions share the edge x = 320, a single box double-parks the frame iff it spans x = 320 and meets 15 <= y <= 445 |
| `FrameLogic.TwoBoxesDoublePark` | yolov11_custom.py:65-75 | any box in region 1 together with any box in region 2 makes the frame double-parked |
| `FrameLogic.DoubleParkedNeedsBothSides` | yolov11_custom.py:75 | a double-parked frame has a box reaching x <= 320 and one reaching x >= 320 |
| `FrameLogic.Banner.Text` | yolov11_custom.py:89-94 | the banner texts; nothing is drawn exactly for the no-banner case |
| `FrameLogic.ChooseBanner` | yolov11_custom.py:89-94 | "Double Parking Detected!" iff both flags, "Vehicle Detected in Region!" iff exactly one flag, no banner iff neither |
| `Alerting.AlertTimesSnoc` | yolov11_custom.py:83-86 | one more frame appends its alert, if it fires, and moves the stored time by the single-frame rule |
| `Alerting.AlertsRateLimited` | yolov11_custom.py:84 | the first alert is at least 5 ticks after the starting time and consecutive alerts are at least 5 ticks apart, whatever the frame times |
| `Alerting.AlertsOnlyWhenDoubleParked` | yolov11_custom.py:84-86 | every alert time is the time of a double-parked frame |
| `Alerting.TwoDoubleParkedFrames` | yolov11_custom.py:83-86 | when the first frame comes at least 5 ticks after the stored last-alert time, two double-parked frames fewer than 5 ticks apart (or out of time order) sound one alert, 5 or more apart sound two |
| `Alerting.AlertLimiter.constructor` | yolov11_custom.py:21 | the stored last-alert time starts at 0 with no frames and no alerts |
| `Alerting.AlertLimiter.ProcessFrame` | yolov11_custom.py:45-94 | returns the double-park flag of the frame, fires iff double-parked and `now - last >= 5`, sets the stored time to `now` exactly when it fires, picks the banner from the two flags, and extends the frame and alert history accordingly |

## Left out

- Model loading and inference, class-name lookup and the confidence label: the detector is external; its output is the input `results`.
- The `int` truncation of the detector's floating-point coordinates: boxes enter the model already as integers.
- Camera capture, drawing of boxes, regions and banner text, JPEG encoding and the multipart HTTP stream: foreign library calls and I/O; only which banner is chosen is modelled.
- Writing `data.json`: file I/O; only the boolean `dpark` that would be written is modelled.
- Audio playback on a detached thread: audio I/O and concurrency; the alert is the returned boolean `fired`.
- The wall clock: `time.time()` gives floating-point seconds, modelled as an integer tick `now`, so fractional cooldowns are not captured.
- The Flask routes and the page template: HTTP plumbing.
- Alerting.AlertLimiter.ProcessFrame: models one frame loop with each frame processed atomically. The development server runs every `/video` client's frame loop on its own thread, and all of them share `last_alert_time` without a lock; two streams can both pass the cooldown test against the same stored time, so the 5-tick spacing of `Alerting.AlertsRateLimited` holds within one stream, not between concurrent streams.
- Geometry.OverlapsIffCommonPoint: requires well-formed boxes: for a box with `x1 > x2` or `y1 > y2` the test can report an overlap without a shared pixel; the detector never produces such boxes.
