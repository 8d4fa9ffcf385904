/**
 Overlapping windows over canonical audio. The buffer keeps only what the next window needs; its meaning is an
 unbounded timeline per segment, of which every emitted window is a slice. Samples are reals.
 */
module RollingWindow {
  import opened Wrappers
  import opened Arithmetic

  /** The rate the configuration loader insists on. */
  const SAMPLE_RATE_HZ: nat := 16000

  /** The window section of the configuration, in milliseconds. */
  datatype WindowConfig = WindowConfig(durationMs: int, strideMs: int, maxBufferMs: int)
  {
    /** The bounds the loader enforces. */
    predicate Accepted() {
      && durationMs > 0 && strideMs > 0 && strideMs <= durationMs && maxBufferMs >= durationMs
    }
  }

  function InSamples(ms: int): int {
    16000 * ms / 1000
  }

  datatype AudioConfig = AudioConfig(windowSamples: nat, strideSamples: nat, maxBufferSamples: nat)
  {
    predicate Valid() {
      0 < strideSamples <= windowSamples <= maxBufferSamples
    }
  }

  /** A configuration the loader accepts has at least one sample per stride, strides no longer than a window, and
      room for a window. */
  function Load(w: WindowConfig): (config: AudioConfig)
    requires w.Accepted()
    ensures config.Valid()
  {
    AudioConfig(InSamples(w.durationMs), InSamples(w.strideMs), InSamples(w.maxBufferMs))
  }

  datatype AudioError = PipelineClosed | InvalidCanonicalAudio | BufferLimitExceeded

  datatype CanonicalAudio = CanonicalAudio(
    samples: seq<real>,
    sampleRateHz: nat,
    sourceSequence: Option<int>,
    discontinuityBefore: bool,
    packetGapBefore: bool,
    timelineStartSample: Option<int>,
    gapSamples: int)

  datatype AudioWindow = AudioWindow(
    sequence: nat,
    samples: seq<real>,
    startSample: int,
    endSample: int,
    startMs: int,
    endMs: int,
    isPartial: bool,
    discontinuityBefore: bool,
    packetGapBefore: bool,
    gapSamples: int)

  predicate ValidAudio(audio: CanonicalAudio) {
    && audio.sampleRateHz == SAMPLE_RATE_HZ
    && audio.samples != []
    && forall i :: 0 <= i < |audio.samples| ==> -1.0 <= audio.samples[i] <= 1.0
  }

  // ---------------------------------------------------------------- the timeline

  /** A stretch of audio without discontinuity: where it starts and every sample since. */
  datatype Segment = Segment(start: int, samples: seq<real>)
  {
    function End(): int { start + |samples| }
  }

  /** What the next window will be marked with. */
  datatype Marks = Marks(discontinuity: bool, packetGap: bool, gapSamples: int)

  const NO_MARKS := Marks(false, false, 0)

  /** The meaning of a buffer. */
  datatype Timeline = Timeline(
    segment: Option<Segment>,
    lastSourceSequence: Option<int>,
    nextSequence: nat,
    marks: Marks,
    closed: bool)

  const FRESH := Timeline(None, None, 1, NO_MARKS, false)

  /** How many full windows fit in the first n samples of a segment. */
  function FullWindows(config: AudioConfig, n: nat): nat
    requires config.Valid()
  {
    if n < config.windowSamples then 0 else 1 + FullWindows(config, n - config.strideSamples)
  }

  /** Where window k of a segment begins. */
  function Offset(config: AudioConfig, k: nat): nat {
    if k == 0 then 0 else Offset(config, k - 1) + config.strideSamples
  }

  lemma {:induction false} OffsetProduct(config: AudioConfig, k: nat)
    ensures Offset(config, k) == k * config.strideSamples
  {
    if k > 0 {
      OffsetProduct(config, k - 1);
      assert k * config.strideSamples == (k - 1) * config.strideSamples + config.strideSamples;
    }
  }

  lemma {:induction false} WindowFits(config: AudioConfig, n: nat, k: nat)
    requires config.Valid()
    ensures k < FullWindows(config, n) <==> Offset(config, k) + config.windowSamples <= n
  {
    if n >= config.windowSamples && k > 0 {
      WindowFits(config, n - config.strideSamples, k - 1);
    } else if k > 0 {
      OffsetGrows(config, 0, k);
    }
  }

  lemma {:induction false} OffsetGrows(config: AudioConfig, k: nat, m: nat)
    requires k <= m
    ensures Offset(config, k) <= Offset(config, m)
  {
    if k < m { OffsetGrows(config, k, m - 1); }
  }

  /** The closed form of the count. */
  lemma {:induction false} FullWindowsQuotient(config: AudioConfig, n: nat)
    requires config.Valid()
    ensures FullWindows(config, n) ==
      if n < config.windowSamples then 0 else (n - config.windowSamples) / config.strideSamples + 1
  {
    if n >= config.windowSamples {
      var m := n - config.strideSamples;
      FullWindowsQuotient(config, m);
      if m >= config.windowSamples {
        OneMore(m - config.windowSamples, config.strideSamples);
      } else {
        Below(n - config.windowSamples, config.strideSamples);
      }
    }
  }

  lemma OneMore(x: nat, s: nat)
    requires s > 0
    ensures (x + s) / s == x / s + 1
  {
    assert x + s == (x / s + 1) * s + x % s;
    QuotientUnique(x + s, s, x / s + 1, x % s);
  }

  lemma Below(x: nat, s: nat)
    requires x < s
    ensures x / s == 0
  {}

  /** Milliseconds by floor division: Dafny's `/` with a positive divisor, as Python's `//`. */
  function ToMs(sample: int): int {
    sample * 1000 / 16000
  }

  function MakeWindow(s: Segment, lo: nat, hi: nat, sequence: nat, isPartial: bool, marks: Marks): AudioWindow
    requires lo <= hi <= |s.samples|
  {
    AudioWindow(sequence, s.samples[lo..hi], s.start + lo, s.start + hi,
                ToMs(s.start + lo), ToMs(s.start + hi),
                isPartial, marks.discontinuity, marks.packetGap, marks.gapSamples)
  }

  /** Where the last of the first k windows of a segment ends. */
  function LastEnd(config: AudioConfig, start: int, k: nat): Option<int>
    requires config.Valid()
  {
    if k == 0 then None else Some(start + Offset(config, k - 1) + config.windowSamples)
  }

  /** Window k of a segment lies k strides after its start. */
  function WindowAt(config: AudioConfig, s: Segment, k: nat, sequence: nat, marks: Marks): AudioWindow
    requires config.Valid() && Offset(config, k) + config.windowSamples <= |s.samples|
  {
    var from := Offset(config, k);
    MakeWindow(s, from, from + config.windowSamples, sequence, false, marks)
  }

  /** Windows `lo` to `hi` of a segment, numbered on from `sequence`; only the first carries the marks. */
  function Emit(config: AudioConfig, s: Segment, lo: nat, hi: nat, sequence: nat, marks: Marks): (ws: seq<AudioWindow>)
    requires config.Valid() && lo <= hi <= FullWindows(config, |s.samples|)
    ensures |ws| == hi - lo
    decreases hi
  {
    if lo == hi then []
    else
      WindowFits(config, |s.samples|, hi - 1);
      Emit(config, s, lo, hi - 1, sequence, marks)
      + [WindowAt(config, s, hi - 1, sequence + (hi - 1 - lo), if hi - 1 == lo then marks else NO_MARKS)]
  }

  lemma EmitSnoc(config: AudioConfig, s: Segment, lo: nat, hi: nat, sequence: nat, marks: Marks)
    requires config.Valid() && lo <= hi < FullWindows(config, |s.samples|)
    ensures Offset(config, hi) + config.windowSamples <= |s.samples|
    ensures Emit(config, s, lo, hi + 1, sequence, marks)
         == Emit(config, s, lo, hi, sequence, marks)
            + [WindowAt(config, s, hi, sequence + (hi - lo), if hi == lo then marks else NO_MARKS)]
  {
    WindowFits(config, |s.samples|, hi);
  }

  datatype Step<+T> = Step(result: T, timeline: Timeline)

  function Close(t: Timeline): Timeline {
    t.(segment := None, closed := true)
  }

  /** Where appended audio is placed. */
  function FrameStart(t: Timeline, audio: CanonicalAudio, startSample: Option<int>): int {
    if startSample.Some? then startSample.value
    else if audio.timelineStartSample.Some? then audio.timelineStartSample.value
    else if t.segment.Some? then t.segment.value.End() else 0
  }

  predicate SequenceBreak(t: Timeline, audio: CanonicalAudio) {
    t.lastSourceSequence.Some? && audio.sourceSequence.Some?
    && audio.sourceSequence.value != t.lastSourceSequence.value + 1
  }

  predicate Discontinuous(t: Timeline, audio: CanonicalAudio, frameStart: int) {
    || (t.segment.Some? && frameStart != t.segment.value.End())
    || SequenceBreak(t, audio)
    || audio.discontinuityBefore || audio.packetGapBefore
  }

  /** How many samples a discontinuity is said to have skipped. */
  function GapSamples(t: Timeline, audio: CanonicalAudio, frameStart: int): int {
    if audio.gapSamples > 0 then audio.gapSamples
    else if t.segment.Some? && frameStart > t.segment.value.End() then frameStart - t.segment.value.End()
    else 0
  }

  /** The timeline on which the audio is appended: the same segment, or a new one. */
  function BeginOrContinue(t: Timeline, audio: CanonicalAudio, frameStart: int): (u: Timeline)
    ensures u.segment.Some? && u.segment.value.End() == frameStart
  {
    if Discontinuous(t, audio, frameStart) then
      var gap := GapSamples(t, audio, frameStart);
      t.(segment := Some(Segment(frameStart, [])),
         marks := Marks(true, SequenceBreak(t, audio) || audio.packetGapBefore || gap > 0, gap))
    else if t.segment.None? then t.(segment := Some(Segment(frameStart, [])), marks := NO_MARKS)
    else t
  }

  /** Adds samples to the current segment and emits every window that has become full. */
  function Extend(config: AudioConfig, t: Timeline, audio: CanonicalAudio): Step<seq<AudioWindow>>
    requires config.Valid() && t.segment.Some?
  {
    var before := t.segment.value;
    var after := Segment(before.start, before.samples + audio.samples);
    var k, k' := FullWindows(config, |before.samples|), FullWindows(config, |after.samples|);
    FullWindowsGrows(config, |before.samples|, |after.samples|);
    Step(Emit(config, after, k, k', t.nextSequence, t.marks),
         t.(segment := Some(after),
            lastSourceSequence := audio.sourceSequence,
            nextSequence := t.nextSequence + (k' - k),
            marks := if k' == k then t.marks else NO_MARKS))
  }

  lemma FullWindowsGrows(config: AudioConfig, n: nat, m: nat)
    requires config.Valid() && n <= m
    ensures FullWindows(config, n) <= FullWindows(config, m)
  {
    if FullWindows(config, n) > 0 {
      WindowFits(config, n, FullWindows(config, n) - 1);
      WindowFits(config, m, FullWindows(config, n) - 1);
    }
  }

  function AppendTo(config: AudioConfig, t: Timeline, audio: CanonicalAudio, startSample: Option<int>): Step<Result<seq<AudioWindow>, AudioError>>
    requires config.Valid()
  {
    if t.closed then Step(Err(PipelineClosed), t)
    else if !ValidAudio(audio) then Step(Err(InvalidCanonicalAudio), Close(t))
    else if |audio.samples| > config.maxBufferSamples then Step(Err(BufferLimitExceeded), Close(t))
    else
      var frameStart := FrameStart(t, audio, startSample);
      if frameStart < 0 then Step(Err(InvalidCanonicalAudio), Close(t))
      else
        var extended := Extend(config, BeginOrContinue(t, audio, frameStart), audio);
        Step(Ok(extended.result), extended.timeline)
  }

  /** Everything after the last full window, as one partial window, unless nothing is new in it. */
  function FinishOf(config: AudioConfig, t: Timeline): Step<seq<AudioWindow>>
    requires config.Valid()
  {
    if t.closed then Step([], t)
    else if t.segment.None? then Step([], Close(t))
    else
      var s := t.segment.value;
      var k := FullWindows(config, |s.samples|);
      Remainder(config, |s.samples|);
      var from := Offset(config, k);
      if from < |s.samples| && (k == 0 || Offset(config, k - 1) + config.windowSamples < |s.samples|)
      then Step([MakeWindow(s, from, |s.samples|, t.nextSequence, true, t.marks)],
                Close(t).(nextSequence := t.nextSequence + 1, marks := NO_MARKS))
      else Step([], Close(t))
  }

  /** What is buffered between calls is shorter than a window. */
  lemma Remainder(config: AudioConfig, n: nat)
    requires config.Valid()
    ensures var k := FullWindows(config, n);
      && Offset(config, k) <= n < Offset(config, k) + config.windowSamples
      && (k > 0 ==> Offset(config, k) <= Offset(config, k - 1) + config.windowSamples <= n)
  {
    var k := FullWindows(config, n);
    WindowFits(config, n, k);
    if k > 0 {
      WindowFits(config, n, k - 1);
    }
  }

  // ---------------------------------------------------------------- the buffer

  class RollingWindowBuffer {
    const config: AudioConfig
    var buffer: array<real>
    var bufferStartSample: Option<int>
    var nextWindowStart: Option<int>
    var timelineEnd: Option<int>
    var lastEmittedEnd: Option<int>
    var lastSourceSequence: Option<int>
    var nextSequence: nat
    var discontinuityPending: bool
    var packetGapPending: bool
    var gapSamplesPending: int
    var closed: bool

    /** The whole current segment, of which the buffer holds the end. */
    ghost var segment: Option<Segment>

    ghost function Meaning(): Timeline
      reads `segment, `lastSourceSequence, `nextSequence, `closed,
            `discontinuityPending, `packetGapPending, `gapSamplesPending
    {
      Timeline(segment, lastSourceSequence, nextSequence, Pending(), closed)
    }

    ghost function Pending(): Marks
      reads `discontinuityPending, `packetGapPending, `gapSamplesPending
    {
      Marks(discontinuityPending, packetGapPending, gapSamplesPending)
    }

    /** The buffer holds the samples of its segment from some offset on. */
    ghost predicate Holds()
      reads `buffer, `bufferStartSample, `timelineEnd, `segment, buffer
    {
      && config.Valid()
      && (segment.None? ==> buffer.Length == 0 && bufferStartSample == timelineEnd == None)
      && (segment.Some? ==>
            var s := segment.value;
            && bufferStartSample.Some?
            && timelineEnd == Some(s.End())
            && s.start <= bufferStartSample.value <= s.End()
            && buffer.Length == s.End() - bufferStartSample.value
            && forall i :: 0 <= i < buffer.Length ==> buffer[i] == s.samples[bufferStartSample.value - s.start + i])
    }

    /** The first k windows of the segment have been emitted. */
    ghost predicate Emitted(k: nat)
      requires config.Valid() && segment.Some?
      reads `segment, `nextWindowStart, `lastEmittedEnd
    {
      && nextWindowStart == Some(segment.value.start + Offset(config, k))
      && lastEmittedEnd == LastEnd(config, segment.value.start, k)
    }

    /** The state between calls: every full window has been emitted and only its successor is buffered. */
    ghost predicate Valid()
      reads this, buffer
    {
      && Holds()
      && (segment.None? ==> nextWindowStart == lastEmittedEnd == None)
      && (segment.Some? ==>
            && Emitted(FullWindows(config, |segment.value.samples|))
            && bufferStartSample == nextWindowStart)
    }

    constructor (config: AudioConfig)
      requires config.Valid()
      ensures Valid() && this.config == config && Meaning() == FRESH && fresh(buffer)
    {
      this.config := config;
      buffer := new real[0];
      bufferStartSample, nextWindowStart, timelineEnd, lastEmittedEnd := None, None, None, None;
      lastSourceSequence := None;
      nextSequence := 1;
      discontinuityPending, packetGapPending, gapSamplesPending := false, false, 0;
      closed := false;
      segment := None;
    }

    /** Fewer samples than one window are ever buffered between calls. */
    lemma BufferedBelowWindow()
      requires Valid()
      ensures buffer.Length < config.windowSamples <= config.maxBufferSamples
    {
      if segment.Some? {
        Remainder(config, |segment.value.samples|);
        assert |buffer[..]| == buffer.Length;
      }
    }

    method ZeroBuffer()
      modifies this, buffer
      ensures fresh(buffer) && buffer.Length == 0
      ensures forall i :: 0 <= i < old(buffer).Length ==> old(buffer)[i] == 0.0
      ensures bufferStartSample == nextWindowStart == timelineEnd == lastEmittedEnd == None && segment == None
      ensures lastSourceSequence == old(lastSourceSequence) && nextSequence == old(nextSequence) && closed == old(closed)
      ensures discontinuityPending == old(discontinuityPending) && packetGapPending == old(packetGapPending)
      ensures gapSamplesPending == old(gapSamplesPending)
    {
      forall i | 0 <= i < buffer.Length {
        buffer[i] := 0.0;
      }
      buffer := new real[0];
      bufferStartSample, nextWindowStart, timelineEnd, lastEmittedEnd := None, None, None, None;
      segment := None;
    }

    method Clear()
      requires Valid()
      modifies this, buffer
      ensures Valid() && Meaning() == Close(old(Meaning()))
      ensures fresh(buffer) && forall i :: 0 <= i < old(buffer).Length ==> old(buffer)[i] == 0.0
    {
      ZeroBuffer();
      closed := true;
    }

    method BeginSegment(startSample: int, discontinuity: bool, packetGap: bool, gapSamples: int)
      requires Valid()
      modifies this, buffer
      ensures Valid() && fresh(buffer)
      ensures Meaning() == old(Meaning()).(segment := Some(Segment(startSample, [])),
                                           marks := Marks(discontinuity, packetGap, gapSamples))
    {
      ZeroBuffer();
      bufferStartSample, nextWindowStart, timelineEnd := Some(startSample), Some(startSample), Some(startSample);
      discontinuityPending, packetGapPending, gapSamplesPending := discontinuity, packetGap, gapSamples;
      segment := Some(Segment(startSample, []));
    }

    /** The preconditions are what the range test of _make_window asks for; they hold at both calls. */
    method EmitWindow(startSample: int, endSample: int, isPartial: bool) returns (window: AudioWindow)
      requires Holds() && segment.Some?
      requires bufferStartSample.value <= startSample < endSample <= timelineEnd.value
      modifies this`nextSequence, this`discontinuityPending, this`packetGapPending, this`gapSamplesPending
      ensures var s := segment.value;
        window == MakeWindow(s, startSample - s.start, endSample - s.start, old(nextSequence), isPartial, old(Pending()))
      ensures nextSequence == old(nextSequence) + 1 && Pending() == NO_MARKS
    {
      var offsetStart := startSample - bufferStartSample.value;
      var offsetEnd := endSample - bufferStartSample.value;
      ghost var s := segment.value;
      assert |buffer[..]| == buffer.Length;
      assert buffer[offsetStart..offsetEnd] == buffer[..][offsetStart..offsetEnd];
      assert buffer[..][offsetStart..offsetEnd] == s.samples[startSample - s.start..endSample - s.start];
      window := AudioWindow(nextSequence, buffer[offsetStart..offsetEnd], startSample, endSample,
                            ToMs(startSample), ToMs(endSample), isPartial,
                            discontinuityPending, packetGapPending, gapSamplesPending);
      nextSequence := nextSequence + 1;
      discontinuityPending, packetGapPending, gapSamplesPending := false, false, 0;
    }

    method DiscardConsumedPrefix()
      requires Holds() && segment.Some? && Emitted(FullWindows(config, |segment.value.samples|))
      requires bufferStartSample.value <= nextWindowStart.value <= timelineEnd.value
      modifies this`buffer, this`bufferStartSample, buffer
      ensures Valid()
      ensures buffer == old(buffer) || (fresh(buffer) && forall i :: 0 <= i < old(buffer).Length ==> old(buffer)[i] == 0.0)
    {
      var discard := nextWindowStart.value - bufferStartSample.value;
      if discard <= 0 {
        return;
      }
      ghost var s := segment.value;
      assert |buffer[..]| == buffer.Length;
      var oldBuffer := buffer;
      var kept := oldBuffer[discard..];
      assert kept == s.samples[nextWindowStart.value - s.start..];
      buffer := new real[|kept|](i requires 0 <= i < |kept| => kept[i]);
      assert buffer[..] == kept;
      forall i | 0 <= i < oldBuffer.Length {
        oldBuffer[i] := 0.0;
      }
      bufferStartSample := nextWindowStart;
      assert buffer[..] == kept;
    }

    method Append(audio: CanonicalAudio, startSample: Option<int>) returns (result: Result<seq<AudioWindow>, AudioError>)
      requires Valid()
      modifies this, buffer
      ensures Valid() && (fresh(buffer) || buffer == old(buffer))
      ensures Step(result, Meaning()) == AppendTo(config, old(Meaning()), audio, startSample)
    {
      if closed {
        return Err(PipelineClosed);
      }
      if !ValidAudio(audio) {
        Clear();
        return Err(InvalidCanonicalAudio);
      }
      if |audio.samples| > config.maxBufferSamples {
        Clear();
        return Err(BufferLimitExceeded);
      }
      var frameStart :=
        if startSample.Some? then startSample.value
        else if audio.timelineStartSample.Some? then audio.timelineStartSample.value
        else if timelineEnd.Some? then timelineEnd.value else 0;
      if frameStart < 0 {
        Clear();
        return Err(InvalidCanonicalAudio);
      }
      Place(audio, frameStart);
      var windows := Write(audio);
      BufferedBelowWindow();
      if buffer.Length > config.maxBufferSamples {
        assert false;  // the second limit check never fires
      }
      result := Ok(windows);
    }

    /** Starts a new segment where the audio does not continue the current one. */
    method Place(audio: CanonicalAudio, frameStart: int)
      requires Valid()
      modifies this, buffer
      ensures Valid() && segment.Some? && (fresh(buffer) || buffer == old(buffer))
      ensures Meaning() == BeginOrContinue(old(Meaning()), audio, frameStart)
    {
      var expectedStart := timelineEnd;
      var positionDiscontinuity := expectedStart.Some? && frameStart != expectedStart.value;
      var sequenceDiscontinuity := lastSourceSequence.Some? && audio.sourceSequence.Some?
        && audio.sourceSequence.value != lastSourceSequence.value + 1;
      var explicitDiscontinuity := audio.discontinuityBefore || audio.packetGapBefore;
      if positionDiscontinuity || sequenceDiscontinuity || explicitDiscontinuity {
        var positionGap := if expectedStart.Some? && frameStart > expectedStart.value
                           then frameStart - expectedStart.value else 0;
        var gapSamples := if audio.gapSamples > 0 then audio.gapSamples else positionGap;
        BeginSegment(frameStart, true, sequenceDiscontinuity || audio.packetGapBefore || gapSamples > 0, gapSamples);
      } else if bufferStartSample.None? {
        BeginSegment(frameStart, false, false, 0);
      }
    }

    /** What follows the checks: the concatenation, the emission of full windows, and the discarding. */
    method Write(audio: CanonicalAudio) returns (windows: seq<AudioWindow>)
      requires Valid() && segment.Some?
      modifies this, buffer
      ensures Valid() && fresh(buffer)
      ensures Step(windows, Meaning()) == Extend(config, old(Meaning()), audio)
    {
      windows := ConcatenateAndEmit(audio);
      DiscardConsumedPrefix();
    }

    method ConcatenateAndEmit(audio: CanonicalAudio) returns (windows: seq<AudioWindow>)
      requires Valid() && segment.Some?
      modifies this
      ensures Holds() && fresh(buffer) && segment.Some? && Emitted(FullWindows(config, |segment.value.samples|))
      ensures bufferStartSample.value <= nextWindowStart.value <= timelineEnd.value
      ensures Step(windows, Meaning()) == Extend(config, old(Meaning()), audio)
    {
      ghost var k := FullWindows(config, |segment.value.samples|);
      Concatenate(audio);
      windows := EmitReady(k);
    }

    method Concatenate(audio: CanonicalAudio)
      requires Valid() && segment.Some?
      modifies this`buffer, this`timelineEnd, this`lastSourceSequence, this`segment
      ensures Holds() && fresh(buffer)
      ensures segment == Some(Segment(old(segment).value.start, old(segment).value.samples + audio.samples))
      ensures Emitted(FullWindows(config, |old(segment).value.samples|)) && bufferStartSample == nextWindowStart
      ensures lastSourceSequence == audio.sourceSequence
      ensures FullWindows(config, |old(segment).value.samples|) <= FullWindows(config, |segment.value.samples|)
    {
      ghost var before := segment.value;
      FullWindowsGrows(config, |before.samples|, |before.samples + audio.samples|);
      var joined := buffer[..] + audio.samples;
      buffer := new real[|joined|](i requires 0 <= i < |joined| => joined[i]);
      timelineEnd := Some(timelineEnd.value + |audio.samples|);
      lastSourceSequence := audio.sourceSequence;
      segment := Some(Segment(before.start, before.samples + audio.samples));
    }

    /** The loop: from window k0 on, every window that fits. */
    method EmitReady(ghost k0: nat) returns (windows: seq<AudioWindow>)
      requires Holds() && segment.Some? && Emitted(k0)
      requires k0 <= FullWindows(config, |segment.value.samples|)
      requires bufferStartSample == nextWindowStart
      modifies this`nextSequence, this`discontinuityPending, this`packetGapPending, this`gapSamplesPending,
               this`nextWindowStart, this`lastEmittedEnd
      ensures var m := FullWindows(config, |segment.value.samples|);
        && Emitted(m)
        && windows == Emit(config, segment.value, k0, m, old(nextSequence), old(Pending()))
        && nextSequence == old(nextSequence) + (m - k0)
        && Pending() == if m == k0 then old(Pending()) else NO_MARKS
      ensures bufferStartSample.value <= nextWindowStart.value <= timelineEnd.value
    {
      ghost var s, sequence, marks := segment.value, nextSequence, Pending();
      ghost var m := FullWindows(config, |s.samples|);
      ghost var k := k0;
      windows := [];
      WindowFits(config, |s.samples|, k);
      while nextWindowStart.value + config.windowSamples <= timelineEnd.value
        invariant k0 <= k <= m && Emitted(k)
        invariant k < m <==> Offset(config, k) + config.windowSamples <= |s.samples|
        invariant Progress(k0, k, sequence, marks, windows)
        decreases m - k
      {
        windows := EmitNext(k0, k, sequence, marks, windows);
        k := k + 1;
        WindowFits(config, |s.samples|, k);
      }
      Remainder(config, |s.samples|);
      OffsetGrows(config, k0, m);
    }

    /** The windows from k0 up to k have been emitted since `sequence` and `marks` were current. */
    ghost predicate Progress(k0: nat, k: nat, sequence: nat, marks: Marks, windows: seq<AudioWindow>)
      requires config.Valid() && segment.Some? && k0 <= k <= FullWindows(config, |segment.value.samples|)
      reads `segment, `nextSequence, `discontinuityPending, `packetGapPending, `gapSamplesPending
    {
      && windows == Emit(config, segment.value, k0, k, sequence, marks)
      && nextSequence == sequence + (k - k0)
      && Pending() == if k == k0 then marks else NO_MARKS
    }

    /** One iteration: window k. */
    method EmitNext(ghost k0: nat, ghost k: nat, ghost sequence: nat, ghost marks: Marks, windows: seq<AudioWindow>)
      returns (windows': seq<AudioWindow>)
      requires Holds() && segment.Some? && Emitted(k)
      requires k0 <= k < FullWindows(config, |segment.value.samples|) && Progress(k0, k, sequence, marks, windows)
      requires bufferStartSample == Some(segment.value.start + Offset(config, k0))
      modifies this`nextSequence, this`discontinuityPending, this`packetGapPending, this`gapSamplesPending,
               this`nextWindowStart, this`lastEmittedEnd
      ensures Emitted(k + 1) && Progress(k0, k + 1, sequence, marks, windows')
    {
      EmitSnoc(config, segment.value, k0, k, sequence, marks);
      OffsetGrows(config, k0, k);
      var window := EmitWindow(nextWindowStart.value, nextWindowStart.value + config.windowSamples, false);
      windows' := windows + [window];
      lastEmittedEnd := Some(window.endSample);
      nextWindowStart := Some(nextWindowStart.value + config.strideSamples);
    }

    method Finish() returns (windows: seq<AudioWindow>)
      requires Valid()
      modifies this, buffer
      ensures Valid() && (fresh(buffer) || buffer == old(buffer))
      ensures Step(windows, Meaning()) == FinishOf(config, old(Meaning()))
    {
      if closed {
        return [];
      }
      windows := [];
      if segment.Some? {
        Remainder(config, |segment.value.samples|);
      }
      if nextWindowStart.Some? && timelineEnd.Some? && timelineEnd.value > nextWindowStart.value
         && (lastEmittedEnd.None? || timelineEnd.value > lastEmittedEnd.value) {
        var window := EmitWindow(nextWindowStart.value, timelineEnd.value, true);
        windows := [window];
      }
      ZeroBuffer();
      closed := true;
    }
  }
}
