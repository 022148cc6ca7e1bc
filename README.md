# Line detector node: per-frame control, shape rule, segment assembly, latency log

This project models the core of `line_detector_node.py`, the ROS node of the Duckietown
line detector. It covers the parts of the node that are its own logic rather than calls
into OpenCV or into the detector. The behaviour of each part is proved about the model.

- **Admission.** A frame is processed only when the node is active (`cbImage`) and no
  other frame holds `thread_lock`. The lock is taken with a non-blocking acquire; a frame
  that finds it held is dropped and changes nothing.
- **Per-frame state.**
  - An admitted frame bumps `verbose_counter` by one.
  - When white balance is on and no reference exists yet, the frame becomes the one-shot
    white-balance reference.
  - `verboselog` emits only when `verbose` holds and the counter is 1 modulo the
    interval (always 10).
- **Shape rule.** The decoded frame is resized (nearest neighbour) only when its size
  differs from `img_size`. The first `top_cutoff` rows are then dropped, with Python
  slice semantics.
- **Segment assembly.**
  - Each detected pixel line has `top_cutoff` added back to its y coordinates and is
    scaled by the reciprocal of the working width and height.
  - Each line is zipped with its normal into a `Segment` of the colour (`toSegmentMsg`).
  - The `SegmentList` carries the frame's stamp and lists the white segments, then the
    yellow, then the red.
- **Latency log.** The `TimeKeeper` is an append-only log of `(phase, latency)` seeded
  with `acquired`. `getall` renders the whole log as text.

The node is modelled as a class with the fields `processImage` updates. The lock is a
class of its own. The thread that `cbImage` starts per frame is modelled sequentially:
one call of `ProcessImage` runs to its end, or to the point where the code raises,
before the next call.

The collaborators whose source is not part of this model are parameters (`Collaborators`):
- colour correction (`AntiInstagram.applyTransform` and `cv2.convertScaleAbs`);
- line detection (`LineDetector.setImage` and `detectLines`);
- the clock readings of `rospy.get_time()`;
- the `%.1f` rendering of a float.

What the node hands to `WhiteBalance` is recorded in fields (`wbReference`, `wbCorrected`).
Published lists and emitted log lines are recorded in `published` and `log`.

Three places in the modelled part of `processImage` raise, and the model treats each as
a failed frame (two more, a failed JPEG decode and the verbose debug block, are outside
the model; see "## Left out"):
- `cv2.resize` refuses a non-positive working size or an empty decoded frame;
- `1./image_size[i]` divides by zero;
- `np.hstack` receives lines and normals with different row counts.

The code has no `try`/`finally` around the frame. A frame that raises therefore leaves
`thread_lock` held, and every later frame is dropped. The model follows the code:
outcome `Failed` with the lock still held.

White balance never affects what the detector sees. `correctImg` is given the uncorrected
working image after the detector's input has been computed, and its result is discarded.
The model keeps this: `DetectAll` depends only on the transform and the working image.
`flag_wb` is `False` after construction, and nothing in the node sets it. The model
keeps it as a field.

## Model

| member | source | states |
|---|---|---|
| Slices.Slice | catkin_ws/src/line_detector/src/line_detector_node.py:137-138 | `s[lo:hi]` with Python bounds: clipped length, and each element is the one at the shifted index |
| Slices.SliceFrom | catkin_ws/src/line_detector/src/line_detector_node.py:178 | `s[c:]` with Python bounds, negative `c` included: the result is the suffix of the stated length |
| Images.Nearest | catkin_ws/src/line_detector/src/line_detector_node.py:176-177 | the nearest-neighbour source index is in range and its scaled cell holds the destination index |
| Images.Resize | catkin_ws/src/line_detector/src/line_detector_node.py:176-177 | the resized image is well formed, has the requested size, and each pixel is the source pixel at the nearest row and column |
| Images.ResizeToOwnSize | catkin_ws/src/line_detector/src/line_detector_node.py:174-177 | resizing to the size the image already has gives the image back |
| Images.NearestIdentity | catkin_ws/src/line_detector/src/line_detector_node.py:176-177 | with equal source and destination sizes, the nearest index is the index itself |
| Images.Crop | catkin_ws/src/line_detector/src/line_detector_node.py:178 | the crop keeps the width and well-formedness and its rows are the Python slice from `top_cutoff` |
| Images.Preprocess | catkin_ws/src/line_detector/src/line_detector_node.py:171-178 | the working image, when made, is well formed |
| Images.PreprocessFails | catkin_ws/src/line_detector/src/line_detector_node.py:174-177 | preprocessing fails exactly when a resize is needed and the size is not positive or the frame is empty |
| Images.PreprocessShape | catkin_ws/src/line_detector/src/line_detector_node.py:174-178 | with `0 <= top_cutoff <= h`, the working image has `h - top_cutoff` rows of `w` pixels, whatever the decoded size |
| Images.NoResizeOnlyCrops | catkin_ws/src/line_detector/src/line_detector_node.py:174-178 | a frame already at the working size is only cropped, pixel for pixel |
| Images.NegativeCutoffKeepsBottom | catkin_ws/src/line_detector/src/line_detector_node.py:178 | a negative `top_cutoff` keeps the last `-top_cutoff` rows |
| Segments.NormalizeLine | catkin_ws/src/line_detector/src/line_detector_node.py:215-218 | each normalized coordinate times the working width (x) or height (y) is the pixel coordinate plus the cutoff on y, with no clamping |
| Segments.DenormalizeNormalize | catkin_ws/src/line_detector/src/line_detector_node.py:215-218 | mapping a normalized line back gives the detector's pixel line |
| Segments.NormalizeInjective | catkin_ws/src/line_detector/src/line_detector_node.py:215-218 | two pixel lines with the same normalized form are equal |
| Segments.NormalizedInUnitSquare | catkin_ws/src/line_detector/src/line_detector_node.py:215-218 | a line inside the cropped image, with a non-negative cutoff, lands in the unit square |
| Segments.NormalizeAll | catkin_ws/src/line_detector/src/line_detector_node.py:217-224 | one normalized row per detected row, in order |
| Segments.ToSegmentMsg | catkin_ws/src/line_detector/src/line_detector_node.py:262-276 | None exactly when the row counts differ; otherwise one segment per row, in row order, with that row's endpoints and normal and the given colour |
| Segments.ColorSegments | catkin_ws/src/line_detector/src/line_detector_node.py:217-225 | a colour yields segments exactly when it has no lines or one normal per line; then one segment per line, each of that colour |
| Segments.Assemble | catkin_ws/src/line_detector/src/line_detector_node.py:210-225 | an assembled list carries the frame's stamp and one segment per detected line over the three colours |
| Segments.AssembleDefined | catkin_ws/src/line_detector/src/line_detector_node.py:216-225 | assembly succeeds exactly when each colour has no lines or one normal per line |
| Segments.AssembleLayout | catkin_ws/src/line_detector/src/line_detector_node.py:211-225 | the list carries the frame's stamp, has one segment per detected line, and holds white, then yellow, then red rows in detector order |
| Segments.AssembleGrouped | catkin_ws/src/line_detector/src/line_detector_node.py:217-225 | colours never go backwards along the list, and each colour occupies exactly its block, so a colour without lines contributes nothing |
| TimeKeeping.Pad | catkin_ws/src/line_detector/src/line_detector_node.py:38 | `%15s` right-justifies: width 15 or the phase's own length, the phase at the end, spaces before it |
| TimeKeeping.LatencyLine | catkin_ws/src/line_detector/src/line_detector_node.py:38 | a report line has at least 28 characters, starts with a blank and ends with a line break, the only one when neither the phase nor its rendered latency contains one |
| TimeKeeping.Report | catkin_ws/src/line_detector/src/line_detector_node.py:34-40 | the report is at least the header plus 28 characters per logged phase |
| TimeKeeping.ReportLineCount | catkin_ws/src/line_detector/src/line_detector_node.py:34-40 | the report has exactly `2 + n` line breaks for `n` single-line entries: two for the header, one per phase |
| TimeKeeping.LinesAppend | catkin_ws/src/line_detector/src/line_detector_node.py:37-38 | the lines of two logs one after the other are the first log's lines, then the second's |
| TimeKeeping.ReportExtends | catkin_ws/src/line_detector/src/line_detector_node.py:34-40 | one more completed phase appends exactly its line to the report; nothing earlier changes |
| TimeKeeping.TimeKeeper.constructor | catkin_ws/src/line_detector/src/line_detector_node.py:21-26 | a new log holds only "acquired", with its latency since the stamp |
| TimeKeeping.TimeKeeper.Completed | catkin_ws/src/line_detector/src/line_detector_node.py:28-32 | appends the phase with latency `now - t_acquisition` and keeps the earlier entries |
| TimeKeeping.TimeKeeper.GetAll | catkin_ws/src/line_detector/src/line_detector_node.py:34-40 | returns the header followed by one formatted line per logged phase, in log order |
| Node.FiresPeriodic | catkin_ws/src/line_detector/src/line_detector_node.py:143-146 | sampling repeats every 10 counter values, and two consecutive counter values are never both logged |
| Node.OneLogPerInterval | catkin_ws/src/line_detector/src/line_detector_node.py:142-146 | with verbose on, exactly one counter value in every 10 consecutive ones is logged |
| Node.ReportByPhase | catkin_ws/src/line_detector/src/line_detector_node.py:155-252 | each phase `processImage` completes adds its own line at the end of the report, in completion order from "acquired" on |
| Node.Publishable | catkin_ws/src/line_detector/src/line_detector_node.py:210-225 | a frame's detections are published exactly when the working size has no zero side and every colour is consistent; the result keeps the detections and carries the stamp |
| Node.Run | catkin_ws/src/line_detector/src/line_detector_node.py:171-225 | a published frame had a successful resize and a working size with no zero side, and its list carries the frame's stamp |
| Node.RunPublishes | catkin_ws/src/line_detector/src/line_detector_node.py:210-225 | a published list carries the frame's stamp and one segment per detected line |
| Node.RunFails | catkin_ws/src/line_detector/src/line_detector_node.py:171-225 | a frame fails exactly when the resize is refused, a working side is zero, or some colour's lines and normals disagree (the three modelled raises; raises inside the collaborators are not modelled) |
| Node.StartTimer | catkin_ws/src/line_detector/src/line_detector_node.py:155 | the frame's log starts with "acquired" at the first clock reading |
| Node.CompletePhase | catkin_ws/src/line_detector/src/line_detector_node.py:162 | completing the next phase extends the log by exactly that phase |
| Node.AssembleSegments | catkin_ws/src/line_detector/src/line_detector_node.py:210-225 | the imperative extend-by-colour assembly computes `Assemble` |
| Node.Lock.constructor | catkin_ws/src/line_detector/src/line_detector_node.py:48 | a new lock is free |
| Node.Lock.TryAcquire | catkin_ws/src/line_detector/src/line_detector_node.py:151-153 | succeeds exactly when the lock was free; afterwards it is held; a held lock is left untouched |
| Node.Lock.Release | catkin_ws/src/line_detector/src/line_detector_node.py:257 | a held lock becomes free |
| Node.LineDetectorNode.constructor | catkin_ws/src/line_detector/src/line_detector_node.py:44-64 | lock free, node active, white balance off with no reference, parameters as read, counter 0, nothing published or logged |
| Node.LineDetectorNode.UpdateParams | catkin_ws/src/line_detector/src/line_detector_node.py:86-113 | adopts the new size, cutoff, detector settings and verbosity, and resets the counter; everything else is unchanged |
| Node.LineDetectorNode.CbSwitch | catkin_ws/src/line_detector/src/line_detector_node.py:124-125 | the switch takes the message's value |
| Node.LineDetectorNode.CbTransform | catkin_ws/src/line_detector/src/line_detector_node.py:136-138 | shift is `s[0:3]` and scale is `s[3:6]` |
| Node.LineDetectorNode.VerboseLog | catkin_ws/src/line_detector/src/line_detector_node.py:142-148 | appends the message with the counter exactly when verbose and the counter is 1 modulo 10 |
| Node.LineDetectorNode.CbImage | catkin_ws/src/line_detector/src/line_detector_node.py:127-133 | a switched-off node ignores the frame and changes nothing; otherwise the frame is processed |
| Node.LineDetectorNode.ProcessImage | catkin_ws/src/line_detector/src/line_detector_node.py:150-257 | a frame finding the lock held is dropped with no change. An admitted frame keeps switch and parameters, bumps the counter, captures the reference once, then either publishes `Run`'s list, logs counts and latency report when sampled, and frees the lock, or fails with the lock still held |
| Node.LineDetectorNode.ProcessAdmitted | catkin_ws/src/line_detector/src/line_detector_node.py:155-257 | the effect of a frame that holds the lock, as `Admitted` states |
| Node.LineDetectorNode.Begin | catkin_ws/src/line_detector/src/line_detector_node.py:155-169 | the log holds "acquired" and "decoded", the counter is one higher, and the reference is captured only if white balance is on and none exists |
| Node.LineDetectorNode.CaptureReference | catkin_ws/src/line_detector/src/line_detector_node.py:164-169 | the reference is set, and the flag raised, only on the first frame with white balance on |
| Node.LineDetectorNode.ProcessDecoded | catkin_ws/src/line_detector/src/line_detector_node.py:171-257 | the frame ends as `Run` of the decoded frame says, and white balance receives the working image only when both flags hold |
| Node.LineDetectorNode.DetectAndPublish | catkin_ws/src/line_detector/src/line_detector_node.py:182-257 | the frame ends as `Publishable` of the detections of the corrected image says |
| Node.LineDetectorNode.CorrectColours | catkin_ws/src/line_detector/src/line_detector_node.py:183-191 | the detector input is the corrected image; white balance receives the uncorrected one only when both flags hold |
| Node.LineDetectorNode.PublishList | catkin_ws/src/line_detector/src/line_detector_node.py:227-257 | the list is published once, the counts and the eight-phase latency report are logged when sampled, and the lock is freed |

## Left out

- ROS plumbing is not modelled: publishers, subscribers, the timer, and the parameter
  server. `updateParams` receives the parameter values as a `Params` value. The publishers
  and subscribers it re-creates on every call are left out.
- The second read of `~verbose` in the constructor (line 79) is left out. The model uses
  the value `updateParams` reads, and ROS configuration normally gives both reads the same value.
- The worker thread per frame is modelled sequentially. Interleavings between a running
  frame and `cbSwitch`, `cbTransform` or `updateParams` are not modelled.
- `LineDetector`, `AntiInstagram` and `WhiteBalance` are not part of this model.
  - Detection and colour correction are function parameters.
  - `setRefImg` and `correctImg` are recorded as the images they receive.
  - `drawLines`, `getImage` and the `image_with_lines` publication (lines 200-208,
    236-239) produce output only and are left out.
- The collaborators are total functions. A raise inside `applyTransform`,
  `convertScaleAbs`, `setImage` or `detectLines` is not modelled: OpenCV on an empty
  working image, when `top_cutoff >= img_size[0]`, is one example. The "exactly" of
  `RunFails` and `Publishable` therefore covers only the three modelled raises.
- JPEG decoding (`image_cv_from_jpg`) is not modelled. `ProcessImage` receives the
  decoded frame, and a frame that fails to decode is not modelled.
- Pixel values are not modelled beyond nearest-neighbour selection.
  - `cv2.resize` picks the source index `floor(i * src / dst)`, computed exactly. OpenCV
    computes the index with a floating-point scale, which can differ at cell boundaries.
  - `convertScaleAbs` saturation is part of the correction parameter.
- Floating point is not modelled. Coordinates, normals and latencies are reals, so
  `1./w` is exact.
- The verbose debug block (lines 241-250) is left out: the `loginfo` of the send latency,
  and the `edge` and `segment` publications. That block also raises when `verbose` was
  off at construction and later turned on, because `pub_edge` does not exist then. The
  model does not capture that failure.
- The `rospy.loginfo` lines outside `verboselog` (lines 74, 115, 122, 140) are left out.
  `verboselog` is modelled as a log of `(counter, message)` entries, not as formatted text.
  The latency report is the exception: its text is modelled in full.
- `completed` (line 32) stores the latency already rendered by `asms`. The model stores
  the latency as a real and renders it in `getall`. The text is the same because the
  rendering is a fixed function of the value.
- `toc_pre` (lines 84, 117) is never read and is left out, and so are `onShutdown` and
  the `__main__` block.
- Node.Timeline: its contract states only the length. The phase of each entry and its
  latency come from the sequence comprehension it is defined by.
- Images.Preprocess: its contract states only well-formedness. Its shape and failure
  cases are the lemmas `PreprocessFails`, `PreprocessShape` and `NoResizeOnlyCrops`.
