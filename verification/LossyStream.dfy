/**
 The preprocessor, and what it makes of a stream that the frame queue has thinned out: every window it emits is a
 slice of the stream as it would have been without loss.
 */
module LossyStream {
  import opened Wrappers
  import opened RollingWindow
  import opened Normalizer
  import opened LatestQueue
  import Windowing

  datatype Pipeline = Pipeline(placement: Placement, timeline: Timeline)

  datatype Pushed = Pushed(windows: seq<AudioWindow>, pipeline: Pipeline)

  const START := Pipeline(UNPLACED, FRESH)

  function CloseBoth(p: Pipeline): Pipeline {
    Pipeline(ClosePlacement(p.placement), Close(p.timeline))
  }

  /** One frame through normalizer and buffer; any error closes both. */
  function PushPcm(input: InputConfig, audio: AudioConfig, p: Pipeline, e: Envelope): Pushed
    requires input.maxChannels <= 2 && audio.Valid()
  {
    var placed := Push(input, p.placement, e);
    if placed.result.Err? then Pushed([], CloseBoth(p.(placement := placed.after)))
    else
      var out := AppendTo(audio, p.timeline, placed.result.value, None);
      if out.result.Err? then Pushed([], CloseBoth(Pipeline(placed.after, out.timeline)))
      else Pushed(out.result.value, Pipeline(placed.after, out.timeline))
  }

  class AudioPreprocessor {
    const normalizer: StreamingPcmNormalizer
    const windows: RollingWindowBuffer

    constructor (input: InputConfig, audio: AudioConfig)
      requires input.maxChannels <= 2 && audio.Valid()
      ensures Valid() && fresh(normalizer) && fresh(windows) && fresh(windows.buffer)
      ensures normalizer.config == input && windows.config == audio && Meaning() == START
    {
      normalizer := new StreamingPcmNormalizer(input);
      windows := new RollingWindowBuffer(audio);
    }

    ghost predicate Valid()
      reads windows, windows.buffer
    {
      windows.Valid() && normalizer.config.maxChannels <= 2
    }

    ghost function Meaning(): Pipeline
      reads normalizer, windows
    {
      Pipeline(normalizer.Meaning(), windows.Meaning())
    }

    /** The windows of one frame; an error is reported after both parts have been cleared. */
    method PushFrame(e: Envelope) returns (emitted: seq<AudioWindow>, failed: bool)
      requires Valid() && Native(normalizer.config, e)
      modifies normalizer, windows, windows.buffer
      ensures Valid() && (windows.buffer == old(windows.buffer) || fresh(windows.buffer))
      ensures Pushed(emitted, Meaning()) == PushPcm(normalizer.config, windows.config, old(Meaning()), e)
    {
      var audio := normalizer.PushFrame(e);
      emitted, failed := [], true;
      if audio.Ok? {
        var result := windows.Append(audio.value, None);
        if result.Ok? {
          return result.value, false;
        }
      }
      normalizer.Clear();
      windows.Clear();
    }
  }

  // ---------------------------------------------------------------- the lossless stream

  /** The frame with each sequence number, had none been lost. */
  type Source = nat -> Envelope

  /** Frames of one length, numbered as they are sent, at the native rate. */
  ghost predicate Uniform(source: Source, channels: nat, n: nat) {
    && 1 <= channels <= 2
    && forall s: nat {:trigger source(s)} ::
         && source(s).sourceSequence == Some(s)
         && source(s).sampleRateHz == SAMPLE_RATE_HZ
         && source(s).channels == channels
         && FrameCount(source(s)) == n
  }

  /** The first k frames from number s0 on. */
  ghost function Lossless(source: Source, channels: nat, s0: nat, k: nat): seq<real>
    requires 1 <= channels <= 2
  {
    if k == 0 then []
    else Lossless(source, channels, s0, k - 1) + Mono(source(s0 + k - 1).payload, channels)
  }

  lemma {:induction false} LosslessLength(source: Source, channels: nat, n: nat, s0: nat, k: nat)
    requires Uniform(source, channels, n)
    ensures |Lossless(source, channels, s0, k)| == k * n
  {
    if k > 0 {
      LosslessLength(source, channels, n, s0, k - 1);
      MonoShape(source(s0 + k - 1).payload, channels);
      OneMoreFrame(k - 1, n);
    }
  }

  lemma OneMoreFrame(k: nat, n: nat)
    ensures (k + 1) * n == k * n + n
  {}

  lemma FramesAdd(a: nat, b: nat, n: nat)
    ensures (a + b) * n == a * n + b * n
  {}

  lemma {:induction false} LosslessGrows(source: Source, channels: nat, s0: nat, k: nat, m: nat)
    requires 1 <= channels <= 2 && k <= m
    ensures Lossless(source, channels, s0, k) <= Lossless(source, channels, s0, m)
  {
    if k < m { LosslessGrows(source, channels, s0, k, m - 1); }
  }

  ghost predicate SliceOf(w: AudioWindow, stream: seq<real>) {
    && 0 <= w.startSample <= w.endSample <= |stream|
    && w.samples == stream[w.startSample..w.endSample]
  }

  lemma SliceGrows(w: AudioWindow, stream: seq<real>, longer: seq<real>)
    requires SliceOf(w, stream) && stream <= longer
    ensures SliceOf(w, longer)
  {}

  // ---------------------------------------------------------------- keeping in step

  /** The segment is the end of the stream. */
  ghost predicate EndOf(s: Segment, stream: seq<real>) {
    0 <= s.start <= |stream| && s.samples == stream[s.start..]
  }

  /** The normalizer has placed frames up to number `last`, whose end is the end of the stream. */
  ghost predicate Placing(p: Placement, last: nat, n: nat, stream: seq<real>) {
    && p.lastSourceSequence == Some(last)
    && p.lastFrameCount == Some(n)
    && p.base + p.segmentSamples == p.nextStart == |stream|
    && !p.discontinuity && !p.packetGap && p.gapSamples == 0
  }

  /** Unless an error has closed it, the pipeline stands at the end of the stream of the frames up to `last`. */
  ghost predicate InStep(p: Pipeline, last: nat, n: nat, stream: seq<real>) {
    || (p.placement.closed && p.timeline.closed)
    || (!p.placement.closed && !p.timeline.closed
        && Placing(p.placement, last, n, stream)
        && p.timeline.segment.Some? && EndOf(p.timeline.segment.value, stream)
        && p.timeline.lastSourceSequence == None)
  }

  /** Appending a placed frame keeps the segment the end of the stream, and every window it emits is a slice. */
  lemma AppendInStep(audio: AudioConfig, t: Timeline, mid: seq<real>, block: seq<real>, out: CanonicalAudio)
    requires audio.Valid() && !t.closed && t.lastSourceSequence == None
    requires out.samples == block && out.timelineStartSample == Some(|mid|) && out.sourceSequence == None
    requires out.discontinuityBefore || (t.segment.None? && mid == []) || (t.segment.Some? && EndOf(t.segment.value, mid))
    ensures var step := AppendTo(audio, t, out, None);
      step.result.Ok? ==>
        && !step.timeline.closed && step.timeline.lastSourceSequence == None
        && step.timeline.segment.Some? && EndOf(step.timeline.segment.value, mid + block)
        && forall w :: w in step.result.value ==> SliceOf(w, mid + block)
  {
    var step := AppendTo(audio, t, out, None);
    if step.result.Ok? {
      var u := BeginOrContinue(t, out, |mid|);
      BegunAtEnd(t, out, mid);
      var before := u.segment.value;
      var after := Segment(before.start, before.samples + block);
      assert EndOf(after, mid + block);
      var k, m := FullWindows(audio, |before.samples|), FullWindows(audio, |after.samples|);
      FullWindowsGrows(audio, |before.samples|, |after.samples|);
      forall w | w in step.result.value ensures SliceOf(w, mid + block) {
        EmittedSlice(audio, after, k, m, u.nextSequence, u.marks, mid + block, w);
      }
    }
  }

  lemma BegunAtEnd(t: Timeline, out: CanonicalAudio, mid: seq<real>)
    requires out.discontinuityBefore || (t.segment.None? && mid == []) || (t.segment.Some? && EndOf(t.segment.value, mid))
    ensures EndOf(BeginOrContinue(t, out, |mid|).segment.value, mid)
  {}

  lemma EmittedSlice(audio: AudioConfig, s: Segment, lo: nat, hi: nat, sequence: nat, marks: Marks, stream: seq<real>, w: AudioWindow)
    requires audio.Valid() && lo <= hi <= FullWindows(audio, |s.samples|) && EndOf(s, stream)
    requires w in Emit(audio, s, lo, hi, sequence, marks)
    ensures SliceOf(w, stream)
  {
    var i :| 0 <= i < hi - lo && Emit(audio, s, lo, hi, sequence, marks)[i] == w;
    Windowing.EmitAt(audio, s, lo, hi, sequence, marks, i);
    SliceOfEnd(s, stream, Offset(audio, lo + i), Offset(audio, lo + i) + audio.windowSamples);
  }

  lemma SliceOfEnd(s: Segment, stream: seq<real>, lo: nat, hi: nat)
    requires EndOf(s, stream) && lo <= hi <= |s.samples|
    ensures s.samples[lo..hi] == stream[s.start + lo..s.start + hi]
  {}

  /** Nothing has been pushed, or the pipeline is in step after the frames up to the last. */
  ghost predicate SoFar(p: Pipeline, n: nat, last: Option<nat>, stream: seq<real>) {
    if last.None? then p == START && stream == [] else InStep(p, last.value, n, stream)
  }

  /** The stream up to frame s, without it: the stream so far and room for the frames lost in between. */
  ghost predicate UpTo(mid: seq<real>, n: nat, last: Option<nat>, stream: seq<real>, s: nat) {
    if last.None? then mid == []
    else
      && last.value < s
      && |mid| == |stream| + (s - last.value - 1) * n
      && (s == last.value + 1 ==> mid == stream)
  }

  /** What the normalizer says of frame s, and where it then stands. */
  lemma PlacedInStep(input: InputConfig, p: Placement, e: Envelope, n: nat, last: Option<nat>,
                     stream: seq<real>, mid: seq<real>, s: nat)
    requires input.maxChannels <= 2 && 1 <= e.channels <= 2 && FrameCount(e) == n && e.sourceSequence == Some(s)
    requires if last.None? then p == UNPLACED else Placing(p, last.value, n, stream)
    requires UpTo(mid, n, last, stream, s)
    ensures var placed := Push(input, p, e);
      placed.result.Ok? ==>
        && placed.result.value.samples == Mono(e.payload, e.channels)
        && placed.result.value.timelineStartSample == Some(|mid|)
        && placed.result.value.sourceSequence == None
        && placed.result.value.gapSamples == (if last.None? then 0 else (s - last.value - 1) * n)
        && placed.result.value.packetGapBefore == placed.result.value.discontinuityBefore
           == (last.Some? && s > last.value + 1)
        && !placed.after.closed
        && Placing(placed.after, s, n, mid + Mono(e.payload, e.channels))
  {
    MonoShape(e.payload, e.channels);
  }

  /** One more surviving frame. */
  lemma StepInStep(input: InputConfig, audio: AudioConfig, p: Pipeline, e: Envelope, n: nat, last: Option<nat>,
                   stream: seq<real>, mid: seq<real>, s: nat)
    requires input.maxChannels <= 2 && audio.Valid()
    requires 1 <= e.channels <= 2 && FrameCount(e) == n && e.sourceSequence == Some(s)
    requires SoFar(p, n, last, stream) && UpTo(mid, n, last, stream, s)
    ensures var pushed := PushPcm(input, audio, p, e);
      && InStep(pushed.pipeline, s, n, mid + Mono(e.payload, e.channels))
      && forall w :: w in pushed.windows ==> SliceOf(w, mid + Mono(e.payload, e.channels))
  {
    var placed := Push(input, p.placement, e);
    if placed.result.Ok? {
      PlacedInStep(input, p.placement, e, n, last, stream, mid, s);
      AppendInStep(audio, p.timeline, mid, Mono(e.payload, e.channels), placed.result.value);
    }
  }

  // ---------------------------------------------------------------- runs

  type Pusher = (Pipeline, nat) -> Pushed

  /** What the preprocessor does with the frame of a number. */
  function Preprocess(input: InputConfig, audio: AudioConfig, source: Source): Pusher
    requires input.maxChannels <= 2 && audio.Valid()
  {
    (p: Pipeline, s: nat) => PushPcm(input, audio, p, source(s))
  }

  /** The frames with the given numbers go through the preprocessor one after the other. */
  ghost function RunPipeline(push: Pusher, survivors: seq<nat>): Pushed {
    if survivors == [] then Pushed([], START)
    else
      var before := RunPipeline(push, survivors[..|survivors| - 1]);
      var pushed := push(before.pipeline, survivors[|survivors| - 1]);
      Pushed(before.windows + pushed.windows, pushed.pipeline)
  }

  /** The lossless stream from the first surviving frame to the last. */
  ghost function StreamOf(source: Source, channels: nat, survivors: seq<nat>): seq<real>
    requires 1 <= channels <= 2 && Increasing(survivors)
  {
    StreamUpTo(source, channels, if survivors == [] then 0 else survivors[0], Last(survivors))
  }

  ghost function StreamUpTo(source: Source, channels: nat, s0: nat, last: Option<nat>): seq<real>
    requires 1 <= channels <= 2 && (last.Some? ==> s0 <= last.value)
  {
    if last.None? then [] else Lossless(source, channels, s0, last.value - s0 + 1)
  }

  ghost function Last(survivors: seq<nat>): Option<nat> {
    if survivors == [] then None else Some(survivors[|survivors| - 1])
  }

  function First(survivors: seq<nat>, s: nat): nat {
    if survivors == [] then s else survivors[0]
  }

  /** The stream of the frames so far, and of those up to the next one, which need not follow directly. */
  lemma StreamSnoc(source: Source, channels: nat, n: nat, s0: nat, last: Option<nat>, s: nat) returns (mid: seq<real>)
    requires Uniform(source, channels, n)
    requires if last.None? then s0 == s else s0 <= last.value < s
    ensures var stream := StreamUpTo(source, channels, s0, last);
      && UpTo(mid, n, last, stream, s)
      && StreamUpTo(source, channels, s0, Some(s)) == mid + Mono(source(s).payload, channels)
      && stream <= mid
      && |mid| == (s - s0) * n
  {
    mid := Lossless(source, channels, s0, s - s0);
    LosslessLength(source, channels, n, s0, s - s0);
    if last.Some? {
      LosslessSkip(source, channels, n, s0, last.value - s0 + 1, s - last.value - 1);
    }
  }

  /** Some frames and some more. */
  lemma LosslessSkip(source: Source, channels: nat, n: nat, s0: nat, k: nat, lost: nat)
    requires Uniform(source, channels, n)
    ensures Lossless(source, channels, s0, k) <= Lossless(source, channels, s0, k + lost)
    ensures |Lossless(source, channels, s0, k + lost)| == |Lossless(source, channels, s0, k)| + lost * n
  {
    LosslessLength(source, channels, n, s0, k);
    LosslessLength(source, channels, n, s0, k + lost);
    FramesAdd(k, lost, n);
    LosslessGrows(source, channels, s0, k, k + lost);
  }

  lemma SurvivorsFollow(survivors: seq<nat>, s: nat)
    requires Increasing(survivors + [s])
    ensures Increasing(survivors)
    ensures survivors != [] ==> survivors[0] <= survivors[|survivors| - 1] < s
  {
    var all := survivors + [s];
    assert forall i :: 0 <= i < |survivors| ==> all[i] == survivors[i];
    if survivors != [] {
      assert all[|survivors| - 1] < all[|survivors|];
      assert |survivors| > 1 ==> all[0] < all[|survivors| - 1];
    }
  }

  lemma RunSnoc(push: Pusher, survivors: seq<nat>, s: nat)
    ensures var before := RunPipeline(push, survivors);
      var pushed := push(before.pipeline, s);
      RunPipeline(push, survivors + [s]) == Pushed(before.windows + pushed.windows, pushed.pipeline)
  {
    assert (survivors + [s])[..|survivors|] == survivors;
  }

  /** The run is in step, and every window it has emitted is a slice of the lossless stream. */
  ghost predicate Agrees(run: Pushed, n: nat, last: Option<nat>, stream: seq<real>) {
    SoFar(run.pipeline, n, last, stream) && forall w :: w in run.windows ==> SliceOf(w, stream)
  }

  lemma {:induction false} StaysInStep(input: InputConfig, audio: AudioConfig, source: Source, channels: nat, n: nat,
                                       survivors: seq<nat>)
    requires input.maxChannels <= 2 && audio.Valid() && Uniform(source, channels, n) && Increasing(survivors)
    ensures Agrees(RunPipeline(Preprocess(input, audio, source), survivors), n, Last(survivors),
                   StreamOf(source, channels, survivors))
  {
    if survivors != [] {
      var init, s := survivors[..|survivors| - 1], survivors[|survivors| - 1];
      assert survivors == init + [s];
      SurvivorsFollow(init, s);
      StaysInStep(input, audio, source, channels, n, init);
      OneMoreSurvivor(input, audio, source, channels, n, init, s);
    }
  }

  lemma OneMoreSurvivor(input: InputConfig, audio: AudioConfig, source: Source, channels: nat, n: nat,
                        survivors: seq<nat>, s: nat)
    requires input.maxChannels <= 2 && audio.Valid() && Uniform(source, channels, n)
    requires Increasing(survivors) && Increasing(survivors + [s])
    requires survivors != [] ==> survivors[0] <= survivors[|survivors| - 1] < s
    requires Agrees(RunPipeline(Preprocess(input, audio, source), survivors), n, Last(survivors),
                    StreamOf(source, channels, survivors))
    ensures Agrees(RunPipeline(Preprocess(input, audio, source), survivors + [s]), n, Last(survivors + [s]),
                   StreamOf(source, channels, survivors + [s]))
  {
    var push := Preprocess(input, audio, source);
    RunSnoc(push, survivors, s);
    AgreesSnoc(input, audio, source, channels, n, RunPipeline(push, survivors), First(survivors, s), Last(survivors), s);
    assert Last(survivors + [s]) == Some(s);
  }

  lemma AgreesSnoc(input: InputConfig, audio: AudioConfig, source: Source, channels: nat, n: nat,
                   before: Pushed, s0: nat, last: Option<nat>, s: nat)
    requires input.maxChannels <= 2 && audio.Valid() && Uniform(source, channels, n)
    requires if last.None? then s0 == s else s0 <= last.value < s
    requires Agrees(before, n, last, StreamUpTo(source, channels, s0, last))
    ensures var pushed := Preprocess(input, audio, source)(before.pipeline, s);
      Agrees(Pushed(before.windows + pushed.windows, pushed.pipeline), n, Some(s), StreamUpTo(source, channels, s0, Some(s)))
  {
    var mid := StreamSnoc(source, channels, n, s0, last, s);
    AgreesStep(input, audio, before, source(s), n, last, StreamUpTo(source, channels, s0, last), mid, s);
  }

  lemma AgreesStep(input: InputConfig, audio: AudioConfig, before: Pushed, e: Envelope, n: nat, last: Option<nat>,
                   stream: seq<real>, mid: seq<real>, s: nat)
    requires input.maxChannels <= 2 && audio.Valid()
    requires 1 <= e.channels <= 2 && FrameCount(e) == n && e.sourceSequence == Some(s)
    requires Agrees(before, n, last, stream) && UpTo(mid, n, last, stream, s)
    requires stream <= mid + Mono(e.payload, e.channels)
    ensures var pushed := PushPcm(input, audio, before.pipeline, e);
      Agrees(Pushed(before.windows + pushed.windows, pushed.pipeline), n, Some(s), mid + Mono(e.payload, e.channels))
  {
    StepInStep(input, audio, before.pipeline, e, n, last, stream, mid, s);
    forall w | w in before.windows ensures SliceOf(w, mid + Mono(e.payload, e.channels)) {
      SliceGrows(w, stream, mid + Mono(e.payload, e.channels));
    }
  }

  /** The audio the normalizer hands on for a frame, given what has gone before. */
  ghost function PlacedFrame(input: InputConfig, audio: AudioConfig, source: Source, before: seq<nat>, s: nat): Placed
    requires input.maxChannels <= 2 && audio.Valid()
  {
    Push(input, RunPipeline(Preprocess(input, audio, source), before).pipeline.placement, source(s))
  }

  /** Every surviving frame s starts at (s - s0) * n and is marked with the samples lost before it. */
  lemma FramePlacement(input: InputConfig, audio: AudioConfig, source: Source, channels: nat, n: nat,
                       survivors: seq<nat>, s: nat)
    requires input.maxChannels <= 2 && audio.Valid() && Uniform(source, channels, n)
    requires Increasing(survivors + [s])
    ensures var placed := PlacedFrame(input, audio, source, survivors, s).result;
      placed.Ok? ==>
        (var s0, lost := First(survivors, s), if survivors == [] then 0 else s - survivors[|survivors| - 1] - 1;
         && placed.value.samples == Mono(source(s).payload, channels)
         && placed.value.timelineStartSample == Some((s - s0) * n)
         && placed.value.gapSamples == lost * n
         && placed.value.packetGapBefore == placed.value.discontinuityBefore == (lost > 0))
  {
    var s0 := First(survivors, s);
    SurvivorsFollow(survivors, s);
    var mid := StreamSnoc(source, channels, n, s0, Last(survivors), s);
    StaysInStep(input, audio, source, channels, n, survivors);
    var p := RunPipeline(Preprocess(input, audio, source), survivors).pipeline;
    if !p.placement.closed {
      PlacedInStep(input, p.placement, source(s), n, Last(survivors), StreamOf(source, channels, survivors), mid, s);
    }
  }

  /** Whatever the queue drops, whenever frames arrive and are taken: every window is a slice of the lossless
      stream from the first frame that survived. */
  lemma LossyRunsAgree(input: InputConfig, audio: AudioConfig, source: Source, channels: nat, n: nat,
                       maximum: int, steps: seq<QueueStep>)
    requires input.maxChannels <= 2 && audio.Valid() && Uniform(source, channels, n)
    ensures var survivors := RunQueue(maximum, steps).taken;
      && Increasing(survivors)
      && (survivors != [] ==>
            var run := RunPipeline(Preprocess(input, audio, source), survivors);
            && (forall w :: w in run.windows ==> SliceOf(w, StreamOf(source, channels, survivors)))
            && (forall w :: w in FinishOf(audio, run.pipeline.timeline).result
                  ==> SliceOf(w, StreamOf(source, channels, survivors))))
  {
    QueueHoldsNewest(maximum, steps);
    var survivors := RunQueue(maximum, steps).taken;
    if survivors != [] {
      StaysInStep(input, audio, source, channels, n, survivors);
      FinishSlice(audio, RunPipeline(Preprocess(input, audio, source), survivors).pipeline.timeline, StreamOf(source, channels, survivors));
    }
  }

  lemma FinishSlice(audio: AudioConfig, t: Timeline, stream: seq<real>)
    requires audio.Valid()
    requires t.closed || (t.segment.Some? && EndOf(t.segment.value, stream))
    ensures forall w :: w in FinishOf(audio, t).result ==> SliceOf(w, stream)
  {
    if !t.closed {
      var s := t.segment.value;
      Remainder(audio, |s.samples|);
      SliceOfEnd(s, stream, Offset(audio, FullWindows(audio, |s.samples|)), |s.samples|);
    }
  }
}
