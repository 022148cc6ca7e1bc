/**
 * `LineDetectorNode`: the per-frame control of the line detector. A frame is admitted
 * only when the node is active and no other frame holds the lock; an admitted frame
 * bumps the verbose counter, may capture the one-shot white-balance reference, is
 * resized and cropped, handed to the colour correction and the detector, and its
 * segments are normalized and published as one `SegmentList`.
 *
 * The thread started per frame is modelled sequentially: `ProcessImage` runs to its end
 * (or to the point where the Python code raises) before the next call.
 */
module Node {
  import opened Wrappers
  import opened Slices
  import opened Images
  import opened Segments
  import opened TimeKeeping

  /** `verbose_interval`, which `updateParams` always sets to 10. */
  const VerboseInterval: nat := 10

  /** The phases `processImage` records, in the order it records them. */
  const Phases: seq<string> :=
    ["acquired", "decoded", "resized", "detected", "drawn", "prepared", "pub_lines", "pub_image"]

  /** HSV ranges and Canny/Hough settings the node copies onto its `LineDetector`. */
  datatype DetectorConfig = DetectorConfig(
    hsvWhite1: seq<int>, hsvWhite2: seq<int>,
    hsvYellow1: seq<int>, hsvYellow2: seq<int>,
    hsvRed1: seq<int>, hsvRed2: seq<int>, hsvRed3: seq<int>, hsvRed4: seq<int>,
    dilationKernelSize: int, cannyThresholds: seq<int>,
    houghMinLineLength: int, houghMaxLineGap: int, houghThreshold: int)

  /** The values `updateParams` reads from the parameter server. */
  datatype Params = Params(imageSize: Size, topCutoff: int, detector: DetectorConfig, verbose: bool)

  /** The `shift` and `scale` of the AntiInstagram colour correction. */
  datatype Transform = Transform(shift: seq<real>, scale: seq<real>)

  /**
   * The code the node calls but that is not part of this model:
   * `correct` is `AntiInstagram.applyTransform` followed by `cv2.convertScaleAbs`,
   * `detect` is `LineDetector.setImage` followed by `detectLines(color)`,
   * `clock(i)` is the `rospy.get_time()` reading taken for the `i`-th phase of a frame,
   * `fmt` renders a float as "%.1f" does.
   */
  datatype Collaborators = Collaborators(
    correct: (Transform, Image) -> Image,
    detect: (DetectorConfig, Image, Color) -> Detection,
    clock: nat -> real,
    fmt: real -> string)

  /** What `verboselog` is asked to log. */
  datatype Message = WhiteBalanceComputed | SegmentCounts(white: nat, yellow: nat, red: nat) | LatencyReport(text: string)

  /** A line `verboselog` emitted, with the counter it shows. */
  datatype LogEntry = LogEntry(counter: nat, msg: Message)

  /** How a call to `processImage` ended. */
  datatype Outcome =
    | Ignored            // the node is switched off: `cbImage` returned at once
    | Dropped            // another frame holds the lock
    | Failed             // the processing raised; the lock is left held
    | Published(list: SegmentList)

  /** The three colours' detections of one frame. */
  datatype Detections = Detections(white: Detection, yellow: Detection, red: Detection)

  /** What one processed frame yields: its detections and the list it publishes. */
  datatype FrameResult = FrameResult(found: Detections, list: SegmentList)

  /** `verboselog` emits exactly when verbose and the counter is 1 modulo the interval. */
  predicate Fires(verbose: bool, counter: nat)
  {
    verbose && counter % VerboseInterval == 1
  }

  /**
   * Sampling is periodic with period `VerboseInterval`, and two consecutive counter
   * values are never both logged.
   */
  lemma FiresPeriodic(verbose: bool, counter: nat)
    ensures Fires(verbose, counter + VerboseInterval) == Fires(verbose, counter)
    ensures Fires(verbose, counter) ==> !Fires(verbose, counter + 1)
  {
    assert (counter + VerboseInterval) % VerboseInterval == counter % VerboseInterval;
  }

  /**
   * With verbose on, exactly one counter value in every run of `VerboseInterval`
   * consecutive ones is logged.
   */
  lemma OneLogPerInterval(n: nat)
    ensures exists k :: n <= k < n + VerboseInterval && Fires(true, k)
    ensures forall j, k ::
      (n <= j < n + VerboseInterval && n <= k < n + VerboseInterval && Fires(true, j) && Fires(true, k))
      ==> j == k
  {
    var k := n + (11 - n % 10) % 10;
    assert k % 10 == 1;
    assert Fires(true, k);
    forall j, k' | n <= j < n + 10 && n <= k' < n + 10 && Fires(true, j) && Fires(true, k')
      ensures j == k'
    {
      assert j == (j / 10) * 10 + 1 && k' == (k' / 10) * 10 + 1;
      assert j / 10 == k' / 10;
    }
  }

  function DetectAll(env: Collaborators, config: DetectorConfig, t: Transform, img: Image): Detections
  {
    var corrected := env.correct(t, img);
    Detections(env.detect(config, corrected, White),
               env.detect(config, corrected, Yellow),
               env.detect(config, corrected, Red))
  }

  /**
   * The list a frame with these detections publishes (lines 210-225 of
   * `line_detector_node.py`), or None where the Python code raises: `1./image_size[i]`
   * divides by zero, or `np.hstack` gets lines and normals of different lengths.
   */
  function Publishable(found: Detections, stamp: real, cutoff: int, size: Size): (r: Option<FrameResult>)
    ensures r.Some? <==>
      size.h != 0 && size.w != 0 &&
      Consistent(found.white) && Consistent(found.yellow) && Consistent(found.red)
    ensures r.Some? ==> r.value.found == found && r.value.list.stamp == stamp
  {
    if size.h == 0 || size.w == 0 then None
    else
      match Assemble(stamp, found.white, found.yellow, found.red, cutoff, size)
      case None => None
      case Some(list) => Some(FrameResult(found, list))
  }

  /**
   * What `processImage` computes for a frame once admitted, or None where it raises:
   * `cv2.resize` refuses the size, or `Publishable` fails.
   */
  function Run(size: Size, cutoff: int, config: DetectorConfig, t: Transform,
               decoded: Image, stamp: real, env: Collaborators): (r: Option<FrameResult>)
    requires WellFormed(decoded)
    ensures r.Some? ==> Preprocess(decoded, size, cutoff).Some? && size.h != 0 && size.w != 0
    ensures r.Some? ==> r.value.list.stamp == stamp
  {
    match Preprocess(decoded, size, cutoff)
    case None => None
    case Some(img) => Publishable(DetectAll(env, config, t, img), stamp, cutoff, size)
  }

  /**
   * The latency log after the first `k` phases of a frame stamped `stamp`: each phase
   * in order, with its latency since the stamp.
   */
  function Timeline(stamp: real, clock: nat -> real, k: nat): (es: seq<Entry>)
    requires k <= |Phases|
    ensures |es| == k
  {
    seq(k, i requires 0 <= i < k => Entry(Phases[i], clock(i) - stamp))
  }

  /**
   * Each completed phase adds exactly its own line to the end of the latency report:
   * the report lists the phases in the order they were completed, from "acquired" on.
   */
  lemma ReportByPhase(stamp: real, clock: nat -> real, fmt: real -> string, k: nat)
    requires k < |Phases|
    ensures Report(Timeline(stamp, clock, k + 1), fmt) ==
      Report(Timeline(stamp, clock, k), fmt) + LatencyLine(Entry(Phases[k], clock(k) - stamp), fmt)
  {
    var e := Entry(Phases[k], clock(k) - stamp);
    assert Timeline(stamp, clock, k + 1) == Timeline(stamp, clock, k) + [e];
    ReportExtends(Timeline(stamp, clock, k), e, fmt);
  }

  /** The frames handed to `WhiteBalance.correctImg` by one frame: its working image, if on and made. */
  function Corrected(on: bool, pre: Option<Image>): seq<Image>
  {
    if on && pre.Some? then [pre.value] else []
  }

  /** `TimeKeeper(image_msg)`: a log holding the phase "acquired", read at the first clock reading. */
  method StartTimer(stamp: real, clock: nat -> real) returns (tk: TimeKeeper)
    ensures fresh(tk) && tk.tAcquisition == stamp && tk.latencies == Timeline(stamp, clock, 1)
  {
    tk := new TimeKeeper(stamp, clock(0));
  }

  /** Records the `k`-th phase of a frame on `tk`, read at the `k`-th clock reading. */
  method CompletePhase(tk: TimeKeeper, stamp: real, clock: nat -> real, k: nat)
    requires k < |Phases| && tk.tAcquisition == stamp && tk.latencies == Timeline(stamp, clock, k)
    modifies tk
    ensures tk.tAcquisition == stamp && tk.latencies == Timeline(stamp, clock, k + 1)
  {
    tk.Completed(Phases[k], clock(k));
    assert tk.latencies == Timeline(stamp, clock, k + 1);
  }

  /**
   * What `verboselog` emits for a published frame: the segment counts, then the latency
   * report of all eight phases, both only on a sampled counter.
   */
  function FrameLog(verbose: bool, n: nat, found: Detections, stamp: real, env: Collaborators): seq<LogEntry>
  {
    Emitted(verbose, n, SegmentCounts(|found.white.lines|, |found.yellow.lines|, |found.red.lines|)) +
    Emitted(verbose, n, LatencyReport(Report(Timeline(stamp, env.clock, |Phases|), env.fmt)))
  }

  /** What one call of `verboselog` with counter `n` emits. */
  function Emitted(verbose: bool, n: nat, msg: Message): seq<LogEntry>
  {
    if Fires(verbose, n) then [LogEntry(n, msg)] else []
  }

  /**
   * The published list of a frame carries the frame's stamp and one segment per
   * detected line, whatever the white-balance flags: the detector input never depends
   * on them.
   */
  lemma RunPublishes(size: Size, cutoff: int, config: DetectorConfig, t: Transform,
                     decoded: Image, stamp: real, env: Collaborators)
    requires WellFormed(decoded)
    requires Run(size, cutoff, config, t, decoded, stamp, env).Some?
    ensures var r := Run(size, cutoff, config, t, decoded, stamp, env).value;
      r.list.stamp == stamp &&
      |r.list.segments| == |r.found.white.lines| + |r.found.yellow.lines| + |r.found.red.lines|
  {
    var r := Run(size, cutoff, config, t, decoded, stamp, env).value;
    AssembleLayout(stamp, r.found.white, r.found.yellow, r.found.red, cutoff, size);
  }

  /**
   * Processing a frame fails exactly at the three places where the modelled part of
   * `processImage` raises.
   */
  lemma RunFails(size: Size, cutoff: int, config: DetectorConfig, t: Transform,
                 decoded: Image, stamp: real, env: Collaborators)
    requires WellFormed(decoded)
    ensures Run(size, cutoff, config, t, decoded, stamp, env).None? <==>
      match Preprocess(decoded, size, cutoff)
      case None => true
      case Some(img) =>
        var f := DetectAll(env, config, t, img);
        size.h == 0 || size.w == 0 ||
        !(Consistent(f.white) && Consistent(f.yellow) && Consistent(f.red))
  {
    match Preprocess(decoded, size, cutoff)
    case None =>
    case Some(img) =>
      var f := DetectAll(env, config, t, img);
      if size.h != 0 && size.w != 0 {
        AssembleDefined(stamp, f.white, f.yellow, f.red, cutoff, size);
      }
  }

  /**
   * Lines 210-225 of `line_detector_node.py` as the Python code runs them: start an empty
   * list with the frame's stamp and extend it by each colour that has lines; None where
   * `np.hstack` raises.
   */
  method AssembleSegments(stamp: real, white: Detection, yellow: Detection, red: Detection,
                          cutoff: int, size: Size) returns (r: Option<SegmentList>)
    requires size.h != 0 && size.w != 0
    ensures r == Assemble(stamp, white, yellow, red, cutoff, size)
  {
    var list := SegmentList(stamp, []);
    ghost var w := ColorSegments(white, White, cutoff, size);
    ghost var y := ColorSegments(yellow, Yellow, cutoff, size);
    ghost var rd := ColorSegments(red, Red, cutoff, size);
    if |white.lines| > 0 {
      var s := ToSegmentMsg(NormalizeAll(white.lines, cutoff, size), white.normals, White);
      if s.None? {
        return None;
      }
      list := list.(segments := list.segments + s.value);
    }
    if |yellow.lines| > 0 {
      var s := ToSegmentMsg(NormalizeAll(yellow.lines, cutoff, size), yellow.normals, Yellow);
      if s.None? {
        return None;
      }
      list := list.(segments := list.segments + s.value);
    }
    if |red.lines| > 0 {
      var s := ToSegmentMsg(NormalizeAll(red.lines, cutoff, size), red.normals, Red);
      if s.None? {
        return None;
      }
      list := list.(segments := list.segments + s.value);
    }
    assert list.segments == w.value + y.value + rd.value;
    r := Some(list);
  }

  /** `threading.Lock`, used only with a non-blocking acquire. */
  class Lock {
    var locked: bool

    constructor ()
      ensures !locked
    {
      locked := false;
    }

    /** `acquire(False)`: takes the lock if it is free, never waits. */
    method TryAcquire() returns (acquired: bool)
      modifies this
      ensures acquired == !old(locked)
      ensures locked
      ensures old(locked) ==> unchanged(this)
    {
      acquired := !locked;
      if acquired {
        locked := true;
      }
    }

    /** `release()`; releasing a free lock raises in Python, so the caller must hold it. */
    method Release()
      requires locked
      modifies this
      ensures !locked
    {
      locked := false;
    }
  }

  class LineDetectorNode {
    const threadLock: Lock
    var active: bool
    var flagWb: bool
    var flagWbRef: bool
    /** The frame handed to `WhiteBalance.setRefImg`, once captured. */
    var wbReference: Option<Image>
    /** The frames handed to `WhiteBalance.correctImg`, in order. */
    var wbCorrected: seq<Image>
    var imageSize: Size
    var topCutoff: int
    var detector: DetectorConfig
    var transform: Transform
    var verbose: bool
    var verboseCounter: nat
    /** The lists handed to the `segment_list` publisher, in order. */
    var published: seq<SegmentList>
    /** The lines `verboselog` emitted, in order. */
    var log: seq<LogEntry>

    /** The white-balance flag says exactly whether a reference was captured. */
    ghost predicate Valid()
      reads this
    {
      flagWbRef <==> wbReference.Some?
    }

    /**
     * `__init__`: the lock free, the node active, white balance off and no reference,
     * the parameters as `updateParams` reads them, nothing published or logged yet.
     * `initial` is the AntiInstagram object's own initial transform.
     */
    constructor (p: Params, initial: Transform)
      ensures Valid() && fresh(threadLock) && !threadLock.locked
      ensures active && !flagWb && !flagWbRef && wbReference == None && wbCorrected == []
      ensures imageSize == p.imageSize && topCutoff == p.topCutoff && detector == p.detector
      ensures verbose == p.verbose && verboseCounter == 0 && transform == initial
      ensures published == [] && log == []
    {
      threadLock := new Lock();
      flagWbRef := false;
      wbReference := None;
      wbCorrected := [];
      flagWb := false;
      active := true;
      imageSize := p.imageSize;
      topCutoff := p.topCutoff;
      detector := p.detector;
      verbose := p.verbose;
      verboseCounter := 0;
      transform := initial;
      published := [];
      log := [];
    }

    /** `updateParams`: adopt the new values and restart the verbose counter. */
    method UpdateParams(p: Params)
      modifies this
      ensures imageSize == p.imageSize && topCutoff == p.topCutoff && detector == p.detector
      ensures verbose == p.verbose && verboseCounter == 0
      ensures active == old(active) && flagWb == old(flagWb) && flagWbRef == old(flagWbRef)
      ensures wbReference == old(wbReference) && wbCorrected == old(wbCorrected)
      ensures transform == old(transform) && published == old(published) && log == old(log)
    {
      imageSize := p.imageSize;
      topCutoff := p.topCutoff;
      detector := p.detector;
      verbose := p.verbose;
      verboseCounter := 0;
    }

    /** `cbSwitch`. */
    method CbSwitch(data: bool)
      modifies this`active
      ensures active == data
    {
      active := data;
    }

    /** `cbTransform`: the first three values are the shift, the next three the scale. */
    method CbTransform(s: seq<real>)
      modifies this`transform
      ensures transform == Transform(Slice(s, 0, 3), Slice(s, 3, 6))
    {
      transform := Transform(Slice(s, 0, 3), Slice(s, 3, 6));
    }

    /** `verboselog`: emit `msg` only on a sampled counter value. */
    method VerboseLog(msg: Message)
      modifies this`log
      ensures log == old(log) + Emitted(verbose, verboseCounter, msg)
    {
      if !verbose {
        return;
      }
      if verboseCounter % VerboseInterval != 1 {
        return;
      }
      log := log + [LogEntry(verboseCounter, msg)];
    }

    /**
     * The effect of `processImage` on the node. A frame that finds the lock held changes
     * nothing. An admitted frame leaves the switch, the flags it does not own and the
     * parameters as they were, and goes on as `Admitted` says.
     */
    twostate predicate Processed(decoded: Image, stamp: real, env: Collaborators, outcome: Outcome)
      requires WellFormed(decoded)
      reads this, threadLock
    {
      if old(threadLock.locked) then
        outcome == Dropped && unchanged(this, threadLock)
      else
        && active == old(active) && flagWb == old(flagWb) && verbose == old(verbose)
        && imageSize == old(imageSize) && topCutoff == old(topCutoff)
        && detector == old(detector) && transform == old(transform)
        && Admitted(decoded, stamp, env, outcome)
    }

    /**
     * An admitted frame bumps the counter by one, captures the white-balance reference if
     * white balance is on and none was captured, and then either publishes the frame's
     * list and frees the lock, or fails and leaves the lock held.
     */
    twostate predicate Admitted(decoded: Image, stamp: real, env: Collaborators, outcome: Outcome)
      requires WellFormed(decoded)
      reads this, threadLock
    {
      var n := old(verboseCounter) + 1;
      var captured := old(flagWb) && !old(flagWbRef);
      var wbLog := if captured then Emitted(old(verbose), n, WhiteBalanceComputed) else [];
      var pre := Preprocess(decoded, old(imageSize), old(topCutoff));
      && verboseCounter == n
      && flagWbRef == (old(flagWbRef) || old(flagWb))
      && wbReference == (if captured then Some(decoded) else old(wbReference))
      && wbCorrected == old(wbCorrected) + Corrected(old(flagWb), pre)
      && Concludes(Run(old(imageSize), old(topCutoff), old(detector), old(transform), decoded, stamp, env),
                   old(published), old(log) + wbLog, stamp, env, outcome)
    }

    /**
     * How a frame ends, given what `Run` computes for it and the lists published and
     * lines logged before: where it raises, the lock stays held and nothing more is
     * published or logged; otherwise its list is published, `FrameLog` is logged and the
     * lock is freed.
     */
    predicate Concludes(run: Option<FrameResult>, publishedBefore: seq<SegmentList>,
                        logBefore: seq<LogEntry>, stamp: real, env: Collaborators, outcome: Outcome)
      reads this, threadLock
    {
      match run
      case None =>
        && outcome == Failed && threadLock.locked
        && published == publishedBefore && log == logBefore
      case Some(r) =>
        && outcome == Published(r.list) && !threadLock.locked
        && published == publishedBefore + [r.list]
        && log == logBefore + FrameLog(verbose, verboseCounter, r.found, stamp, env)
    }

    /** `processImage` for the frame `decoded` (the result of decoding the JPEG) stamped `stamp`. */
    method ProcessImage(decoded: Image, stamp: real, env: Collaborators) returns (outcome: Outcome)
      requires Valid() && WellFormed(decoded)
      modifies this, threadLock
      ensures Valid()
      ensures Processed(decoded, stamp, env, outcome)
    {
      var acquired := threadLock.TryAcquire();
      if !acquired {
        return Dropped;
      }
      outcome := ProcessAdmitted(decoded, stamp, env);
    }

    /** Lines 155-257 of `line_detector_node.py`: the frame, once it holds the lock. */
    method ProcessAdmitted(decoded: Image, stamp: real, env: Collaborators) returns (outcome: Outcome)
      requires Valid() && WellFormed(decoded) && threadLock.locked
      modifies this`verboseCounter, this`flagWbRef, this`wbReference, this`wbCorrected,
        this`published, this`log, threadLock
      ensures Valid()
      ensures Admitted(decoded, stamp, env, outcome)
    {
      var tk := Begin(decoded, stamp, env.clock);
      assert (flagWb && flagWbRef) == old(flagWb);
      assert Run(imageSize, topCutoff, detector, transform, decoded, stamp, env) ==
        Run(old(imageSize), old(topCutoff), old(detector), old(transform), decoded, stamp, env);
      ghost var publishedBefore, logBefore := published, log;

      outcome := ProcessDecoded(decoded, stamp, env, tk);
      assert Concludes(Run(old(imageSize), old(topCutoff), old(detector), old(transform), decoded, stamp, env),
                       publishedBefore, logBefore, stamp, env, outcome);
    }

    /**
     * What lines 171-257 of `line_detector_node.py` do to the node: the frames handed to
     * white balance, and either a failure with the lock held or the published list, its
     * log lines and the lock freed.
     */
    twostate predicate Ran(decoded: Image, stamp: real, env: Collaborators, outcome: Outcome)
      requires WellFormed(decoded)
      reads this, threadLock
    {
      var pre := Preprocess(decoded, imageSize, topCutoff);
      && wbCorrected == old(wbCorrected) + Corrected(flagWb && flagWbRef, pre)
      && Concludes(Run(imageSize, topCutoff, detector, transform, decoded, stamp, env),
                   old(published), old(log), stamp, env, outcome)
    }

    /**
     * Lines 171-257 of `line_detector_node.py` for the decoded frame, with the lock held
     * and two phases recorded.
     */
    method ProcessDecoded(decoded: Image, stamp: real, env: Collaborators, tk: TimeKeeper)
      returns (outcome: Outcome)
      requires WellFormed(decoded) && threadLock.locked
      requires tk.tAcquisition == stamp && tk.latencies == Timeline(stamp, env.clock, 2)
      modifies this`wbCorrected, this`published, this`log, threadLock, tk
      ensures Ran(decoded, stamp, env, outcome)
    {
      var pre := Preprocess(decoded, imageSize, topCutoff);
      if pre.None? {
        return Failed;
      }
      CompletePhase(tk, stamp, env.clock, 2);

      outcome := DetectAndPublish(pre.value, stamp, env, tk);
    }

    /**
     * Lines 155-169 of `line_detector_node.py`: start the frame's latency log, bump the
     * counter, record the decoding and capture the white-balance reference if one is due.
     */
    method Begin(decoded: Image, stamp: real, clock: nat -> real) returns (tk: TimeKeeper)
      requires Valid()
      modifies this`verboseCounter, this`flagWbRef, this`wbReference, this`log
      ensures Valid() && fresh(tk)
      ensures tk.tAcquisition == stamp && tk.latencies == Timeline(stamp, clock, 2)
      ensures verboseCounter == old(verboseCounter) + 1
      ensures flagWbRef == (old(flagWbRef) || flagWb)
      ensures wbReference == if flagWb && !old(flagWbRef) then Some(decoded) else old(wbReference)
      ensures log == old(log) +
        if flagWb && !old(flagWbRef) then Emitted(verbose, verboseCounter, WhiteBalanceComputed) else []
    {
      tk := StartTimer(stamp, clock);
      verboseCounter := verboseCounter + 1;
      CompletePhase(tk, stamp, clock, 1);
      CaptureReference(decoded);
    }

    /**
     * Lines 164-169 of `line_detector_node.py`: on the first frame with white balance on,
     * hand it over as the reference.
     */
    method CaptureReference(decoded: Image)
      requires Valid()
      modifies this`flagWbRef, this`wbReference, this`log
      ensures Valid()
      ensures flagWbRef == (old(flagWbRef) || flagWb)
      ensures wbReference == if flagWb && !old(flagWbRef) then Some(decoded) else old(wbReference)
      ensures log == old(log) +
        if flagWb && !old(flagWbRef) then Emitted(verbose, verboseCounter, WhiteBalanceComputed) else []
    {
      if flagWb && !flagWbRef {
        wbReference := Some(decoded);
        VerboseLog(WhiteBalanceComputed);
        flagWbRef := true;
      }
    }

    /**
     * What the second half of `processImage` (lines 182-257 of `line_detector_node.py`)
     * does to the node: the frame either fails, leaving the lock held and publishing nothing, or publishes its list,
     * logs the segment counts and the latency report of all eight phases if the counter
     * is sampled, and frees the lock.
     */
    twostate predicate Finished(image: Image, stamp: real, env: Collaborators, outcome: Outcome)
      reads this, threadLock
    {
      Concludes(Publishable(DetectAll(env, detector, transform, image), stamp, topCutoff, imageSize),
                old(published), old(log), stamp, env, outcome)
    }

    /** Lines 182-257 of `line_detector_node.py` for the working image `image`, with the lock held. */
    method DetectAndPublish(image: Image, stamp: real, env: Collaborators, tk: TimeKeeper)
      returns (outcome: Outcome)
      requires threadLock.locked
      requires tk.tAcquisition == stamp && tk.latencies == Timeline(stamp, env.clock, 3)
      modifies this`wbCorrected, this`published, this`log, threadLock, tk
      ensures wbCorrected == old(wbCorrected) + if flagWb && flagWbRef then [image] else []
      ensures Finished(image, stamp, env, outcome)
    {
      var corrected := CorrectColours(image, env);
      var white := env.detect(detector, corrected, White);
      var yellow := env.detect(detector, corrected, Yellow);
      var red := env.detect(detector, corrected, Red);
      CompletePhase(tk, stamp, env.clock, 3);
      CompletePhase(tk, stamp, env.clock, 4);

      if imageSize.h == 0 || imageSize.w == 0 {
        return Failed;
      }
      var assembled := AssembleSegments(stamp, white, yellow, red, topCutoff, imageSize);
      if assembled.None? {
        return Failed;
      }
      outcome := PublishList(assembled.value, Detections(white, yellow, red), stamp, env, tk);
    }

    /**
     * Lines 183-191 of `line_detector_node.py`: the detector's input is the
     * colour-corrected frame; white balance, when on, is handed the uncorrected frame and
     * its result is dropped.
     */
    method CorrectColours(image: Image, env: Collaborators) returns (corrected: Image)
      modifies this`wbCorrected
      ensures corrected == env.correct(transform, image)
      ensures wbCorrected == old(wbCorrected) + if flagWb && flagWbRef then [image] else []
    {
      corrected := env.correct(transform, image);
      if flagWb && flagWbRef {
        wbCorrected := wbCorrected + [image];
      }
    }

    /**
     * Lines 227-257 of `line_detector_node.py` once the list is assembled: log the counts,
     * publish the list, log the latency report of all eight phases, free the lock.
     */
    method PublishList(list: SegmentList, found: Detections, stamp: real, env: Collaborators,
                       tk: TimeKeeper) returns (outcome: Outcome)
      requires threadLock.locked
      requires tk.tAcquisition == stamp && tk.latencies == Timeline(stamp, env.clock, 5)
      modifies this`published, this`log, threadLock, tk
      ensures outcome == Published(list) && !threadLock.locked
      ensures published == old(published) + [list]
      ensures log == old(log) + FrameLog(verbose, verboseCounter, found, stamp, env)
    {
      VerboseLog(SegmentCounts(|found.white.lines|, |found.yellow.lines|, |found.red.lines|));
      CompletePhase(tk, stamp, env.clock, 5);

      published := published + [list];
      CompletePhase(tk, stamp, env.clock, 6);
      CompletePhase(tk, stamp, env.clock, 7);

      var report := tk.GetAll(env.fmt);
      VerboseLog(LatencyReport(report));
      threadLock.Release();
      outcome := Published(list);
    }

    /** `cbImage`: a switched-off node ignores the frame, otherwise it is processed. */
    method CbImage(decoded: Image, stamp: real, env: Collaborators) returns (outcome: Outcome)
      requires Valid() && WellFormed(decoded)
      modifies this, threadLock
      ensures Valid()
      ensures !old(active) ==> outcome == Ignored && unchanged(this, threadLock)
      ensures old(active) ==> Processed(decoded, stamp, env, outcome)
    {
      if !active {
        return Ignored;
      }
      outcome := ProcessImage(decoded, stamp, env);
    }
  }
}
