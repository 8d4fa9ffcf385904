/**
 Exactly which windows the preprocessor makes of a stream that has lost frames: the slices of every run of consecutive
 survivors, run by run, up to the first frame that is refused.
 */
module LossyRuns {
  import opened Wrappers
  import opened RollingWindow
  import opened Normalizer
  import opened LatestQueue
  import opened LossyStream
  import Windowing

  // ---------------------------------------------------------------- runs of survivors

  /** `count` consecutive frames from number `first` on, after `lost` frames that did not survive. */
  datatype Stretch = Stretch(first: nat, count: nat, lost: nat)
  {
    function Next(): nat { first + count }
  }

  ghost predicate Before(r: seq<Stretch>, s: nat) {
    r != [] ==> r[|r| - 1].Next() <= s
  }

  /** One more survivor, in the last stretch or in one of its own. */
  function Extend(r: seq<Stretch>, s: nat): seq<Stretch>
    requires Before(r, s)
  {
    if r == [] then [Stretch(s, 1, 0)]
    else
      var last := r[|r| - 1];
      if s == last.Next() then r[..|r| - 1] + [last.(count := last.count + 1)]
      else r + [Stretch(s, 1, s - last.Next())]
  }

  /** The survivors cut where a frame is missing. */
  ghost function Stretches(survivors: seq<nat>): (r: seq<Stretch>)
    requires Increasing(survivors)
    ensures if survivors == [] then r == []
            else r != [] && r[0].first == survivors[0] && r[|r| - 1].Next() == survivors[|survivors| - 1] + 1
  {
    if survivors == [] then []
    else Extend(Stretches(survivors[..|survivors| - 1]), survivors[|survivors| - 1])
  }

  ghost predicate Holds(r: seq<Stretch>, s: nat) {
    exists j :: 0 <= j < |r| && r[j].first <= s < r[j].Next()
  }

  /** None is empty, and frames are missing between any two. */
  ghost predicate Apart(r: seq<Stretch>) {
    && (forall j :: 0 <= j < |r| ==> r[j].count > 0)
    && (forall j :: 0 < j < |r| ==> r[j].lost > 0 && r[j].first == r[j - 1].Next() + r[j].lost)
    && (r != [] ==> r[0].lost == 0)
  }

  lemma ExtendHolds(r: seq<Stretch>, s: nat, x: nat)
    requires Before(r, s)
    ensures Holds(Extend(r, s), x) <==> Holds(r, x) || x == s
  {
    var after := Extend(r, s);
    assert after[|after| - 1].first <= s < after[|after| - 1].Next() || r != [];
    if Holds(r, x) {
      var j :| 0 <= j < |r| && r[j].first <= x < r[j].Next();
      assert after[j].first <= x < after[j].Next();
    }
    if Holds(after, x) {
      var j :| 0 <= j < |after| && after[j].first <= x < after[j].Next();
      assert j < |r| ==> r[j].first <= x < r[j].Next() || x == s;
    }
  }

  lemma ExtendApart(r: seq<Stretch>, s: nat)
    requires Before(r, s) && Apart(r)
    ensures Apart(Extend(r, s))
  {
    var after := Extend(r, s);
    forall j | 0 < j < |after| ensures after[j].lost > 0 && after[j].first == after[j - 1].Next() + after[j].lost {
      if j < |r| {
        assert after[j].first == r[j].first && after[j].lost == r[j].lost;
      }
    }
  }

  lemma StretchesSnoc(init: seq<nat>, last: nat)
    requires Increasing(init) && Increasing(init + [last])
    ensures Before(Stretches(init), last) && Stretches(init + [last]) == Extend(Stretches(init), last)
  {
    var all := init + [last];
    SurvivorsFollow(init, last);
    assert all != [] && all[..|all| - 1] == init && all[|all| - 1] == last;
  }

  /** The stretches are the maximal runs: they hold exactly the survivors and between two of them frames are
      missing. */
  lemma {:induction false} StretchesExact(survivors: seq<nat>, x: nat)
    requires Increasing(survivors)
    ensures Apart(Stretches(survivors))
    ensures x in survivors <==> Holds(Stretches(survivors), x)
  {
    if survivors != [] {
      var init, last := survivors[..|survivors| - 1], survivors[|survivors| - 1];
      assert survivors == init + [last];
      SurvivorsFollow(init, last);
      StretchesSnoc(init, last);
      StretchesExact(init, x);
      ExtendApart(Stretches(init), last);
      ExtendHolds(Stretches(init), last, x);
    }
  }

  // ---------------------------------------------------------------- their segments

  /** The audio of a stretch, placed where its first frame lies in the lossless stream from frame s0 on, and the marks
      of what was lost before it. */
  ghost function SegmentOf(source: Source, channels: nat, n: nat, s0: nat, r: Stretch): Windowing.Marked
    requires 1 <= channels <= 2
  {
    Windowing.Marked(Segment((r.first - s0) * n, Lossless(source, channels, r.first, r.count)),
                     if r.lost == 0 then NO_MARKS else Marks(true, true, r.lost * n))
  }

  ghost function SegmentsOf(source: Source, channels: nat, n: nat, s0: nat, r: seq<Stretch>): (all: seq<Windowing.Marked>)
    requires 1 <= channels <= 2
    ensures |all| == |r|
    ensures forall j :: 0 <= j < |r| ==> all[j] == SegmentOf(source, channels, n, s0, r[j])
  {
    seq(|r|, j requires 0 <= j < |r| => SegmentOf(source, channels, n, s0, r[j]))
  }

  /** Nothing in the pipeline refuses the frame for itself. */
  predicate Fits(input: InputConfig, audio: AudioConfig, e: Envelope)
    requires 1 <= e.channels <= 2
  {
    Check(input, e).None? && DecodedBytes(e) <= input.maxFileBytes && FrameCount(e) <= audio.maxBufferSamples
  }

  lemma FittingHasSamples(input: InputConfig, audio: AudioConfig, e: Envelope)
    requires 1 <= e.channels <= 2 && Fits(input, audio, e)
    ensures FrameCount(e) > 0
  {
    assert |e.payload| > 0 && |e.payload| % FrameWidth(e.channels) == 0;
  }

  /** The survivors before the first one that does not fit. */
  ghost function Accepted(input: InputConfig, audio: AudioConfig, source: Source, survivors: seq<nat>): (r: seq<nat>)
    requires forall s: nat {:trigger source(s)} :: 1 <= source(s).channels <= 2
    ensures r <= survivors
    ensures r == survivors <==> forall s :: s in survivors ==> Fits(input, audio, source(s))
    ensures forall s :: s in r ==> Fits(input, audio, source(s))
    ensures |r| < |survivors| ==> !Fits(input, audio, source(survivors[|r|]))
  {
    if survivors == [] then []
    else
      var init, s := survivors[..|survivors| - 1], survivors[|survivors| - 1];
      assert survivors == init + [s];
      var before := Accepted(input, audio, source, init);
      if before == init && Fits(input, audio, source(s)) then survivors else before
  }

  // ---------------------------------------------------------------- one more frame

  /** The windows of a grown segment: those it had filled and those that have become full. */
  lemma EmitGrown(config: AudioConfig, s: Segment, more: seq<real>, sequence: nat, marks: Marks)
    requires config.Valid()
    ensures var k, l := FullWindows(config, |s.samples|), FullWindows(config, |s.samples + more|);
      && k <= l
      && Emit(config, Segment(s.start, s.samples + more), 0, l, sequence, marks)
         == Emit(config, s, 0, k, sequence, marks)
            + Emit(config, Segment(s.start, s.samples + more), k, l, sequence + k, if k == 0 then marks else NO_MARKS)
  {
    var k, l := FullWindows(config, |s.samples|), FullWindows(config, |s.samples + more|);
    Windowing.EmitPrefix(config, s, more, 0, k, sequence, marks);
    Windowing.EmitSplit(config, Segment(s.start, s.samples + more), 0, k, l, sequence, marks);
  }

  /** After the windows of earlier segments exactly the full windows of the segment m have been emitted. */
  ghost predicate Ends(config: AudioConfig, earlier: seq<AudioWindow>, m: Windowing.Marked, out: Step<seq<AudioWindow>>)
    requires config.Valid()
  {
    var k := FullWindows(config, |m.segment.samples|);
    && out.result == earlier + Emit(config, m.segment, 0, k, 1 + |earlier|, m.marks)
    && !out.timeline.closed && out.timeline.segment == Some(m.segment)
    && out.timeline.nextSequence == 1 + |earlier| + k
    && out.timeline.marks == if k == 0 then m.marks else NO_MARKS
  }

  /** When the segment grows, its full windows stay and the new ones follow. */
  lemma EndsGrown(config: AudioConfig, earlier: seq<AudioWindow>, m: Windowing.Marked, more: seq<real>,
                  before: Step<seq<AudioWindow>>, out: Step<seq<AudioWindow>>)
    requires config.Valid() && Ends(config, earlier, m, before)
    requires Windowing.Grown(config, before.timeline, Segment(m.segment.start, m.segment.samples + more), out)
    ensures Ends(config, earlier, m.(segment := Segment(m.segment.start, m.segment.samples + more)),
                 Step(before.result + out.result, out.timeline))
  {
    EmitGrown(config, m.segment, more, 1 + |earlier|, m.marks);
    var k := FullWindows(config, |m.segment.samples|);
    Windowing.Associative(earlier, Emit(config, m.segment, 0, k, 1 + |earlier|, m.marks), out.result);
  }

  /** The run has emitted the lists of the segments `init`, and the full windows of its last segment. */
  ghost predicate Listed(config: AudioConfig, init: seq<Windowing.Marked>, lists: seq<seq<AudioWindow>>,
                         m: Windowing.Marked, out: Step<seq<AudioWindow>>)
    requires config.Valid()
  {
    Windowing.SliceLists(config, init, lists) && Ends(config, Windowing.Flatten(lists), m, out)
  }

  lemma ListLast(config: AudioConfig, init: seq<Windowing.Marked>, lists: seq<seq<AudioWindow>>, m: Windowing.Marked,
                 out: Step<seq<AudioWindow>>)
    returns (all: seq<seq<AudioWindow>>)
    requires config.Valid() && Listed(config, init, lists, m, out)
    ensures out.result == Windowing.Flatten(all) && Windowing.SliceLists(config, init + [m], all)
    ensures out.timeline.nextSequence == 1 + |out.result|
    ensures all[|init|] == Emit(config, m.segment, 0, FullWindows(config, |m.segment.samples|), 1 + |Windowing.Flatten(lists)|, m.marks)
  {
    var sequence := 1 + |Windowing.Flatten(lists)|;
    var emitted := Emit(config, m.segment, 0, FullWindows(config, |m.segment.samples|), sequence, m.marks);
    Windowing.EmittedSlices(config, m.segment, sequence, m.marks);
    Windowing.FlattenSnoc(lists, emitted);
    all := lists + [emitted];
  }

  /** A new segment after those so far. */
  lemma EndsOpened(config: AudioConfig, before: Step<seq<AudioWindow>>, m: Windowing.Marked, out: Step<seq<AudioWindow>>)
    requires config.Valid() && before.timeline.nextSequence == 1 + |before.result|
    requires Windowing.EmitsOne(config, before.timeline, m, out)
    ensures Ends(config, before.result, m, Step(before.result + out.result, out.timeline))
  {}

  // ---------------------------------------------------------------- one more frame

  /** The pipeline is open and in step after the frames up to `last`. */
  ghost predicate Open(p: Pipeline, channels: nat, n: nat, last: Option<nat>, stream: seq<real>) {
    && SoFar(p, n, last, stream) && !p.placement.closed
    && (last.Some? ==> p.placement.signature == Some((SAMPLE_RATE_HZ, channels)))
  }

  /** The frame passes both parts of the pipeline. */
  ghost predicate Passes(audio: AudioConfig, p: Pipeline, channels: nat, out: CanonicalAudio, pushed: Pushed)
    requires audio.Valid()
  {
    && AppendTo(audio, p.timeline, out, None) == Step(Ok(pushed.windows), pushed.pipeline.timeline)
    && !pushed.pipeline.placement.closed && pushed.pipeline.placement.signature == Some((SAMPLE_RATE_HZ, channels))
  }

  lemma FittingPush(input: InputConfig, audio: AudioConfig, p: Pipeline, e: Envelope, n: nat, last: Option<nat>,
                    stream: seq<real>, mid: seq<real>, s: nat)
    returns (out: CanonicalAudio)
    requires input.maxChannels <= 2 && audio.Valid()
    requires 1 <= e.channels <= 2 && e.sampleRateHz == SAMPLE_RATE_HZ && FrameCount(e) == n && e.sourceSequence == Some(s)
    requires Open(p, e.channels, n, last, stream) && UpTo(mid, n, last, stream, s)
    requires Fits(input, audio, e)
    ensures Passes(audio, p, e.channels, out, PushPcm(input, audio, p, e))
    ensures ValidAudio(out) && |out.samples| <= audio.maxBufferSamples
    ensures out.samples == Mono(e.payload, e.channels) && out.timelineStartSample == Some(|mid|) && out.sourceSequence == None
    ensures out.gapSamples == if last.None? then 0 else (s - last.value - 1) * n
    ensures out.packetGapBefore == out.discontinuityBefore == (last.Some? && s > last.value + 1)
  {
    FittingHasSamples(input, audio, e);
    MonoShape(e.payload, e.channels);
    PlacedInStep(input, p.placement, e, n, last, stream, mid, s);
    out := Push(input, p.placement, e).result.value;
  }

  lemma RefusedPush(input: InputConfig, audio: AudioConfig, p: Pipeline, e: Envelope)
    requires input.maxChannels <= 2 && audio.Valid() && 1 <= e.channels <= 2
    requires p.placement.closed || !Fits(input, audio, e)
    ensures var pushed := PushPcm(input, audio, p, e);
      pushed.windows == [] && pushed.pipeline.placement.closed
  {
    MonoShape(e.payload, e.channels);
  }

  /** The frame after the last one grows the segment. */
  lemma ContinuedPush(input: InputConfig, audio: AudioConfig, p: Pipeline, e: Envelope, n: nat, last: nat, stream: seq<real>)
    requires input.maxChannels <= 2 && audio.Valid()
    requires 1 <= e.channels <= 2 && e.sampleRateHz == SAMPLE_RATE_HZ && FrameCount(e) == n && e.sourceSequence == Some(last + 1)
    requires Open(p, e.channels, n, Some(last), stream)
    requires Fits(input, audio, e)
    ensures var pushed, segment := PushPcm(input, audio, p, e), p.timeline.segment.value;
      && !pushed.pipeline.placement.closed && pushed.pipeline.placement.signature == Some((SAMPLE_RATE_HZ, e.channels))
      && Windowing.Grown(audio, p.timeline, Segment(segment.start, segment.samples + Mono(e.payload, e.channels)),
                         Step(pushed.windows, pushed.pipeline.timeline))
  {
    var out := FittingPush(input, audio, p, e, n, Some(last), stream, stream, last + 1);
    Windowing.ContinueStep(audio, p.timeline, Windowing.Chunk(out, None));
  }

  /** The first frame, and a frame after a loss, opens a segment. */
  lemma OpenedPush(input: InputConfig, audio: AudioConfig, p: Pipeline, e: Envelope, n: nat, last: Option<nat>,
                   stream: seq<real>, mid: seq<real>, s: nat, lost: nat)
    requires input.maxChannels <= 2 && audio.Valid()
    requires 1 <= e.channels <= 2 && e.sampleRateHz == SAMPLE_RATE_HZ && FrameCount(e) == n && e.sourceSequence == Some(s)
    requires Open(p, e.channels, n, last, stream) && UpTo(mid, n, last, stream, s)
    requires if last.None? then lost == 0 else lost > 0 && s == last.value + 1 + lost
    requires Fits(input, audio, e)
    ensures var pushed := PushPcm(input, audio, p, e);
      && !pushed.pipeline.placement.closed && pushed.pipeline.placement.signature == Some((SAMPLE_RATE_HZ, e.channels))
      && Windowing.EmitsOne(audio, p.timeline,
           Windowing.Marked(Segment(|mid|, Mono(e.payload, e.channels)),
                            if lost == 0 then NO_MARKS else Marks(true, true, lost * n)),
           Step(pushed.windows, pushed.pipeline.timeline))
  {
    var out := FittingPush(input, audio, p, e, n, last, stream, mid, s);
    FittingHasSamples(input, audio, e);
    if last.Some? {
      Positive(lost, n);
      assert s - last.value - 1 == lost;
    }
    OpenedFrame(audio, p.timeline, out, |mid|);
  }

  lemma Positive(a: nat, b: nat)
    requires a > 0 && b > 0
    ensures a * b > 0
  {}

  lemma OpenedFrame(audio: AudioConfig, t: Timeline, out: CanonicalAudio, start: nat)
    requires audio.Valid() && ValidAudio(out) && |out.samples| <= audio.maxBufferSamples
    requires !t.closed && t.lastSourceSequence == None
    requires out.timelineStartSample == Some(start) && out.packetGapBefore == out.discontinuityBefore
    requires if t.segment.None? then !out.discontinuityBefore else out.discontinuityBefore && out.gapSamples > 0
    ensures var step := AppendTo(audio, t, out, None);
      && step.result.Ok?
      && Windowing.EmitsOne(audio, t,
           Windowing.Marked(Segment(start, out.samples),
                            if t.segment.None? then NO_MARKS else Marks(true, true, out.gapSamples)),
           Step(step.result.value, step.timeline))
  {
    var c := Windowing.Chunk(out, None);
    assert Windowing.Opens(audio, t, [c]);
    Windowing.OneSegment(audio, t, [c]);
    Windowing.FeedOne(Windowing.Append(audio), t, c);
    assert [c][..0] == [] && Windowing.Samples([c]) == [] + out.samples == out.samples;
  }

  // ---------------------------------------------------------------- whole runs

  /** The run has emitted the lists of all stretches but the last, and the full windows of that one. */
  ghost predicate Exact(audio: AudioConfig, source: Source, channels: nat, n: nat, r: seq<Stretch>,
                        lists: seq<seq<AudioWindow>>, out: Step<seq<AudioWindow>>)
    requires audio.Valid() && 1 <= channels <= 2 && r != []
  {
    var s0 := r[0].first;
    Listed(audio, SegmentsOf(source, channels, n, s0, r[..|r| - 1]), lists, SegmentOf(source, channels, n, s0, r[|r| - 1]), out)
  }

  lemma OneFrame(source: Source, channels: nat, n: nat, s0: nat, s: nat, lost: nat)
    requires 1 <= channels <= 2 && s0 <= s
    ensures SegmentOf(source, channels, n, s0, Stretch(s, 1, lost))
         == Windowing.Marked(Segment((s - s0) * n, Mono(source(s).payload, channels)),
                             if lost == 0 then NO_MARKS else Marks(true, true, lost * n))
  {
    assert Lossless(source, channels, s, 0) == [];
    assert [] + Mono(source(s).payload, channels) == Mono(source(s).payload, channels);
  }

  lemma FrameMore(source: Source, channels: nat, n: nat, s0: nat, r: Stretch)
    requires 1 <= channels <= 2
    ensures var m := SegmentOf(source, channels, n, s0, r);
      SegmentOf(source, channels, n, s0, r.(count := r.count + 1))
      == m.(segment := Segment(m.segment.start, m.segment.samples + Mono(source(r.Next()).payload, channels)))
  {}

  lemma ExtendShape(r: seq<Stretch>, s: nat)
    requires r != [] && Before(r, s)
    ensures var last, after := r[|r| - 1], Extend(r, s);
      && after[0].first == r[0].first
      && (s == last.Next() ==> after[..|after| - 1] == r[..|r| - 1] && after[|after| - 1] == last.(count := last.count + 1))
      && (s > last.Next() ==> after[..|after| - 1] == r && after[|after| - 1] == Stretch(s, 1, s - last.Next()))
  {}

  lemma SegmentsSnoc(source: Source, channels: nat, n: nat, s0: nat, r: seq<Stretch>)
    requires 1 <= channels <= 2 && r != []
    ensures SegmentsOf(source, channels, n, s0, r)
         == SegmentsOf(source, channels, n, s0, r[..|r| - 1]) + [SegmentOf(source, channels, n, s0, r[|r| - 1])]
  {}

  /** One more list and a new last segment, or the same lists and a grown one. */
  lemma ExactIs(audio: AudioConfig, source: Source, channels: nat, n: nat, r: seq<Stretch>, init: seq<Windowing.Marked>,
                lists: seq<seq<AudioWindow>>, m: Windowing.Marked, out: Step<seq<AudioWindow>>)
    requires audio.Valid() && 1 <= channels <= 2 && r != []
    requires init == SegmentsOf(source, channels, n, r[0].first, r[..|r| - 1])
    requires m == SegmentOf(source, channels, n, r[0].first, r[|r| - 1])
    requires Windowing.SliceLists(audio, init, lists) && Ends(audio, Windowing.Flatten(lists), m, out)
    ensures Exact(audio, source, channels, n, r, lists, out)
  {}

  lemma ExactFirst(audio: AudioConfig, source: Source, channels: nat, n: nat, s: nat, out: Step<seq<AudioWindow>>)
    requires audio.Valid() && 1 <= channels <= 2
    requires Windowing.EmitsOne(audio, FRESH, Windowing.Marked(Segment(0, Mono(source(s).payload, channels)), NO_MARKS), out)
    ensures Exact(audio, source, channels, n, [Stretch(s, 1, 0)], [], Step([] + out.result, out.timeline))
  {
    OneFrame(source, channels, n, s, s, 0);
    EndsOpened(audio, Step([], FRESH), SegmentOf(source, channels, n, s, Stretch(s, 1, 0)), out);
    assert [Stretch(s, 1, 0)][..0] == [];
  }

  lemma ExactGrown(audio: AudioConfig, source: Source, channels: nat, n: nat, r: seq<Stretch>, init: seq<Windowing.Marked>,
                   lists: seq<seq<AudioWindow>>, m: Windowing.Marked, m': Windowing.Marked, more: seq<real>,
                   before: Step<seq<AudioWindow>>, out: Step<seq<AudioWindow>>)
    requires audio.Valid() && 1 <= channels <= 2 && r != []
    requires init == SegmentsOf(source, channels, n, r[0].first, r[..|r| - 1])
    requires m == SegmentOf(source, channels, n, r[0].first, r[|r| - 1])
    requires m' == SegmentOf(source, channels, n, r[0].first, r[|r| - 1].(count := r[|r| - 1].count + 1))
    requires m' == m.(segment := Segment(m.segment.start, m.segment.samples + more))
    requires Listed(audio, init, lists, m, before) && Windowing.Grown(audio, before.timeline, m'.segment, out)
    ensures Exact(audio, source, channels, n, Extend(r, r[|r| - 1].Next()), lists,
                  Step(before.result + out.result, out.timeline))
  {
    var last := r[|r| - 1];
    var after := Extend(r, last.Next());
    ExtendShape(r, last.Next());
    EndsGrown(audio, Windowing.Flatten(lists), m, more, before, out);
    ExactIs(audio, source, channels, n, after, init, lists, m', Step(before.result + out.result, out.timeline));
  }

  lemma ExactOpened(audio: AudioConfig, source: Source, channels: nat, n: nat, r: seq<Stretch>, init: seq<Windowing.Marked>,
                    lists: seq<seq<AudioWindow>>, m: Windowing.Marked, m': Windowing.Marked,
                    s: nat, before: Step<seq<AudioWindow>>, out: Step<seq<AudioWindow>>)
    returns (all: seq<seq<AudioWindow>>)
    requires audio.Valid() && 1 <= channels <= 2 && r != [] && s > r[|r| - 1].Next()
    requires init == SegmentsOf(source, channels, n, r[0].first, r[..|r| - 1])
    requires m == SegmentOf(source, channels, n, r[0].first, r[|r| - 1])
    requires m' == SegmentOf(source, channels, n, r[0].first, Stretch(s, 1, s - r[|r| - 1].Next()))
    requires Listed(audio, init, lists, m, before) && Windowing.EmitsOne(audio, before.timeline, m', out)
    ensures Exact(audio, source, channels, n, Extend(r, s), all, Step(before.result + out.result, out.timeline))
  {
    all := ListLast(audio, init, lists, m, before);
    SegmentsSnoc(source, channels, n, r[0].first, r);
    EndsOpened(audio, before, m', out);
    ExtendShape(r, s);
    ExactIs(audio, source, channels, n, Extend(r, s), init + [m], all, m', Step(before.result + out.result, out.timeline));
  }

  lemma ExactNext(audio: AudioConfig, source: Source, channels: nat, n: nat, r: seq<Stretch>, lists: seq<seq<AudioWindow>>,
                  before: Step<seq<AudioWindow>>, out: Step<seq<AudioWindow>>)
    requires audio.Valid() && 1 <= channels <= 2 && r != []
    requires Exact(audio, source, channels, n, r, lists, before)
    requires var segment := before.timeline.segment.value;
      Windowing.Grown(audio, before.timeline,
                      Segment(segment.start, segment.samples + Mono(source(r[|r| - 1].Next()).payload, channels)), out)
    ensures Exact(audio, source, channels, n, Extend(r, r[|r| - 1].Next()), lists, Step(before.result + out.result, out.timeline))
  {
    var s0, final := r[0].first, r[|r| - 1];
    FrameMore(source, channels, n, s0, final);
    ExactGrown(audio, source, channels, n, r, SegmentsOf(source, channels, n, s0, r[..|r| - 1]), lists,
               SegmentOf(source, channels, n, s0, final), SegmentOf(source, channels, n, s0, final.(count := final.count + 1)),
               Mono(source(final.Next()).payload, channels), before, out);
  }

  lemma ExactLater(audio: AudioConfig, source: Source, channels: nat, n: nat, r: seq<Stretch>, lists: seq<seq<AudioWindow>>,
                   s: nat, lost: nat, before: Step<seq<AudioWindow>>, out: Step<seq<AudioWindow>>)
    returns (all: seq<seq<AudioWindow>>)
    requires audio.Valid() && 1 <= channels <= 2 && r != [] && s == r[|r| - 1].Next() + lost && lost > 0
    requires Exact(audio, source, channels, n, r, lists, before)
    requires Windowing.EmitsOne(audio, before.timeline, SegmentOf(source, channels, n, r[0].first, Stretch(s, 1, lost)), out)
    ensures Exact(audio, source, channels, n, Extend(r, s), all, Step(before.result + out.result, out.timeline))
  {
    var s0, final := r[0].first, r[|r| - 1];
    all := ExactOpened(audio, source, channels, n, r, SegmentsOf(source, channels, n, s0, r[..|r| - 1]), lists,
                       SegmentOf(source, channels, n, s0, final), SegmentOf(source, channels, n, s0, Stretch(s, 1, lost)), s,
                       before, out);
  }

  lemma FirstSurvivor(input: InputConfig, audio: AudioConfig, source: Source, channels: nat, n: nat, s: nat)
    requires input.maxChannels <= 2 && audio.Valid() && Uniform(source, channels, n)
    requires Fits(input, audio, source(s))
    ensures var pushed := PushPcm(input, audio, START, source(s));
      && !pushed.pipeline.placement.closed && pushed.pipeline.placement.signature == Some((SAMPLE_RATE_HZ, channels))
      && Exact(audio, source, channels, n, [Stretch(s, 1, 0)], [], Step([] + pushed.windows, pushed.pipeline.timeline))
  {
    OpenedPush(input, audio, START, source(s), n, None, [], [], s, 0);
    var pushed := PushPcm(input, audio, START, source(s));
    ExactFirst(audio, source, channels, n, s, Step(pushed.windows, pushed.pipeline.timeline));
  }

  lemma NextSurvivor(input: InputConfig, audio: AudioConfig, source: Source, channels: nat, n: nat, r: seq<Stretch>,
                     lists: seq<seq<AudioWindow>>, before: Pushed, last: nat, stream: seq<real>)
    requires input.maxChannels <= 2 && audio.Valid() && Uniform(source, channels, n)
    requires r != [] && r[|r| - 1].Next() == last + 1 && Open(before.pipeline, channels, n, Some(last), stream)
    requires Exact(audio, source, channels, n, r, lists, Step(before.windows, before.pipeline.timeline))
    requires Fits(input, audio, source(last + 1))
    ensures var pushed := PushPcm(input, audio, before.pipeline, source(last + 1));
      && !pushed.pipeline.placement.closed && pushed.pipeline.placement.signature == Some((SAMPLE_RATE_HZ, channels))
      && Exact(audio, source, channels, n, Extend(r, last + 1), lists,
               Step(before.windows + pushed.windows, pushed.pipeline.timeline))
  {
    ContinuedPush(input, audio, before.pipeline, source(last + 1), n, last, stream);
    var pushed := PushPcm(input, audio, before.pipeline, source(last + 1));
    ExactNext(audio, source, channels, n, r, lists, Step(before.windows, before.pipeline.timeline),
              Step(pushed.windows, pushed.pipeline.timeline));
  }

  lemma LaterPush(input: InputConfig, audio: AudioConfig, source: Source, channels: nat, n: nat, s0: nat, p: Pipeline,
                  last: nat, s: nat, lost: nat)
    requires input.maxChannels <= 2 && audio.Valid() && Uniform(source, channels, n)
    requires s0 <= last && s == last + 1 + lost && lost > 0
    requires Open(p, channels, n, Some(last), StreamUpTo(source, channels, s0, Some(last)))
    requires Fits(input, audio, source(s))
    ensures var pushed := PushPcm(input, audio, p, source(s));
      && !pushed.pipeline.placement.closed && pushed.pipeline.placement.signature == Some((SAMPLE_RATE_HZ, channels))
      && Windowing.EmitsOne(audio, p.timeline, SegmentOf(source, channels, n, s0, Stretch(s, 1, lost)),
                            Step(pushed.windows, pushed.pipeline.timeline))
  {
    var mid := StreamSnoc(source, channels, n, s0, Some(last), s);
    OpenedPush(input, audio, p, source(s), n, Some(last), StreamUpTo(source, channels, s0, Some(last)), mid, s, lost);
    OneFrame(source, channels, n, s0, s, lost);
  }

  lemma LaterSurvivor(input: InputConfig, audio: AudioConfig, source: Source, channels: nat, n: nat, r: seq<Stretch>,
                      lists: seq<seq<AudioWindow>>, before: Pushed, last: nat, s: nat, lost: nat)
    returns (all: seq<seq<AudioWindow>>)
    requires input.maxChannels <= 2 && audio.Valid() && Uniform(source, channels, n)
    requires r != [] && r[0].first <= last && r[|r| - 1].Next() == last + 1 && s == last + 1 + lost && lost > 0
    requires Open(before.pipeline, channels, n, Some(last), StreamUpTo(source, channels, r[0].first, Some(last)))
    requires Exact(audio, source, channels, n, r, lists, Step(before.windows, before.pipeline.timeline))
    requires Fits(input, audio, source(s))
    ensures var pushed := PushPcm(input, audio, before.pipeline, source(s));
      && !pushed.pipeline.placement.closed && pushed.pipeline.placement.signature == Some((SAMPLE_RATE_HZ, channels))
      && Exact(audio, source, channels, n, Extend(r, s), all,
               Step(before.windows + pushed.windows, pushed.pipeline.timeline))
  {
    LaterPush(input, audio, source, channels, n, r[0].first, before.pipeline, last, s, lost);
    var pushed := PushPcm(input, audio, before.pipeline, source(s));
    all := ExactLater(audio, source, channels, n, r, lists, s, lost,
                      Step(before.windows, before.pipeline.timeline), Step(pushed.windows, pushed.pipeline.timeline));
  }

  /** Every survivor has passed, and the windows are those of their stretches. */
  ghost predicate Passed(audio: AudioConfig, source: Source, channels: nat, n: nat, r: seq<Stretch>,
                         lists: seq<seq<AudioWindow>>, run: Pushed)
    requires audio.Valid() && 1 <= channels <= 2
  {
    && !run.pipeline.placement.closed
    && if r == [] then run == Pushed([], START)
       else
         && run.pipeline.placement.signature == Some((SAMPLE_RATE_HZ, channels))
         && Exact(audio, source, channels, n, r, lists, Step(run.windows, run.pipeline.timeline))
  }

  lemma PassedLater(input: InputConfig, audio: AudioConfig, source: Source, channels: nat, n: nat, r: seq<Stretch>,
                    lists: seq<seq<AudioWindow>>, before: Pushed, last: nat, s0: nat, s: nat)
    returns (all: seq<seq<AudioWindow>>)
    requires input.maxChannels <= 2 && audio.Valid() && Uniform(source, channels, n) && Fits(input, audio, source(s))
    requires r != [] && Passed(audio, source, channels, n, r, lists, before)
    requires r[0].first == s0 <= last < s && r[|r| - 1].Next() == last + 1
    requires SoFar(before.pipeline, n, Some(last), StreamUpTo(source, channels, s0, Some(last)))
    ensures var pushed := PushPcm(input, audio, before.pipeline, source(s));
      Passed(audio, source, channels, n, Extend(r, s), all, Pushed(before.windows + pushed.windows, pushed.pipeline))
  {
    if s == last + 1 {
      NextSurvivor(input, audio, source, channels, n, r, lists, before, last, StreamUpTo(source, channels, s0, Some(last)));
      all := lists;
    } else {
      all := LaterSurvivor(input, audio, source, channels, n, r, lists, before, last, s, s - last - 1);
    }
  }

  lemma PassedSnoc(input: InputConfig, audio: AudioConfig, source: Source, channels: nat, n: nat, r: seq<Stretch>,
                   lists: seq<seq<AudioWindow>>, before: Pushed, last: Option<nat>, s0: nat, s: nat)
    returns (all: seq<seq<AudioWindow>>)
    requires input.maxChannels <= 2 && audio.Valid() && Uniform(source, channels, n) && Fits(input, audio, source(s))
    requires Passed(audio, source, channels, n, r, lists, before)
    requires if r == [] then last.None? && s0 == s
             else last.Some? && r[0].first == s0 <= last.value < s && r[|r| - 1].Next() == last.value + 1
    requires SoFar(before.pipeline, n, last, StreamUpTo(source, channels, s0, last))
    ensures var pushed := PushPcm(input, audio, before.pipeline, source(s));
      Passed(audio, source, channels, n, Extend(r, s), all, Pushed(before.windows + pushed.windows, pushed.pipeline))
  {
    if last.None? {
      FirstSurvivor(input, audio, source, channels, n, s);
      all := [];
    } else {
      all := PassedLater(input, audio, source, channels, n, r, lists, before, last.value, s0, s);
    }
  }

  lemma FittingSnoc(input: InputConfig, audio: AudioConfig, source: Source, channels: nat, n: nat, init: seq<nat>, s: nat,
                    survivors: seq<nat>, lists: seq<seq<AudioWindow>>)
    returns (all: seq<seq<AudioWindow>>)
    requires input.maxChannels <= 2 && audio.Valid() && Uniform(source, channels, n)
    requires survivors == init + [s] && Increasing(init) && Increasing(survivors) && Fits(input, audio, source(s))
    requires Passed(audio, source, channels, n, Stretches(init), lists, RunPipeline(Preprocess(input, audio, source), init))
    ensures Passed(audio, source, channels, n, Stretches(survivors), all,
                   RunPipeline(Preprocess(input, audio, source), survivors))
  {
    SurvivorsFollow(init, s);
    RunSnoc(Preprocess(input, audio, source), init, s);
    StretchesSnoc(init, s);
    StaysInStep(input, audio, source, channels, n, init);
    all := PassedSnoc(input, audio, source, channels, n, Stretches(init), lists,
                      RunPipeline(Preprocess(input, audio, source), init), Last(init), First(init, s), s);
  }

  lemma {:induction false} FittingRun(input: InputConfig, audio: AudioConfig, source: Source, channels: nat, n: nat,
                                      survivors: seq<nat>)
    returns (lists: seq<seq<AudioWindow>>)
    requires input.maxChannels <= 2 && audio.Valid() && Uniform(source, channels, n) && Increasing(survivors)
    requires forall s :: s in survivors ==> Fits(input, audio, source(s))
    ensures Passed(audio, source, channels, n, Stretches(survivors), lists,
                   RunPipeline(Preprocess(input, audio, source), survivors))
  {
    lists := [];
    if survivors != [] {
      var init, s := survivors[..|survivors| - 1], survivors[|survivors| - 1];
      assert survivors == init + [s];
      lists := FittingRun(input, audio, source, channels, n, init);
      lists := FittingSnoc(input, audio, source, channels, n, init, s, survivors, lists);
    }
  }

  /** A frame that does not fit closes the pipeline for good, and nothing more is emitted. */
  lemma {:induction false} RefusedRun(input: InputConfig, audio: AudioConfig, source: Source, channels: nat, n: nat,
                                      survivors: seq<nat>)
    requires input.maxChannels <= 2 && audio.Valid() && Uniform(source, channels, n)
    ensures var push, accepted := Preprocess(input, audio, source), Accepted(input, audio, source, survivors);
      accepted != survivors ==>
        && RunPipeline(push, survivors).pipeline.placement.closed
        && RunPipeline(push, survivors).windows == RunPipeline(push, accepted).windows
  {
    if survivors != [] {
      var init, s := survivors[..|survivors| - 1], survivors[|survivors| - 1];
      RefusedRun(input, audio, source, channels, n, init);
      var before := RunPipeline(Preprocess(input, audio, source), init);
      if Accepted(input, audio, source, survivors) != survivors {
        RefusedPush(input, audio, before.pipeline, source(s));
        assert before.windows + [] == before.windows;
      }
    }
  }

  // ---------------------------------------------------------------- what is emitted

  /** The windows of a stretch: so many, each the slice of the stretch at its stride, and the first marked with what was
      lost before the stretch. */
  ghost predicate StretchWindows(audio: AudioConfig, source: Source, channels: nat, n: nat, s0: nat, r: Stretch,
                                 windows: seq<AudioWindow>)
    requires audio.Valid() && 1 <= channels <= 2
  {
    && Windowing.SliceList(audio, SegmentOf(source, channels, n, s0, r), windows)
    && |windows| == if r.count * n < audio.windowSamples then 0
                    else (r.count * n - audio.windowSamples) / audio.strideSamples + 1
  }

  lemma SlicesCounted(audio: AudioConfig, source: Source, channels: nat, n: nat, s0: nat, r: Stretch, windows: seq<AudioWindow>)
    requires audio.Valid() && Uniform(source, channels, n)
    requires Windowing.SliceList(audio, SegmentOf(source, channels, n, s0, r), windows)
    ensures StretchWindows(audio, source, channels, n, s0, r, windows)
  {
    LosslessLength(source, channels, n, r.first, r.count);
  }

  /** Stretch by stretch these windows and nothing else. */
  ghost predicate RunWindows(audio: AudioConfig, source: Source, channels: nat, n: nat, s0: nat, r: seq<Stretch>,
                             windows: seq<seq<AudioWindow>>, emitted: seq<AudioWindow>)
    requires audio.Valid() && 1 <= channels <= 2
  {
    && emitted == Windowing.Flatten(windows) && |windows| == |r|
    && forall j :: 0 <= j < |r| ==> StretchWindows(audio, source, channels, n, s0, r[j], windows[j])
  }

  /** A run all of whose survivors have passed. */
  lemma PassedWindows(audio: AudioConfig, source: Source, channels: nat, n: nat, r: seq<Stretch>,
                      lists: seq<seq<AudioWindow>>, run: Pushed)
    returns (windows: seq<seq<AudioWindow>>)
    requires audio.Valid() && Uniform(source, channels, n) && r != []
    requires Passed(audio, source, channels, n, r, lists, run)
    ensures RunWindows(audio, source, channels, n, r[0].first, r, windows, run.windows)
    ensures Windowing.Covering(audio, SegmentOf(source, channels, n, r[0].first, r[|r| - 1]).segment, windows[|r| - 1],
                               FinishOf(audio, run.pipeline.timeline).result)
  {
    var s0 := r[0].first;
    var init, m := SegmentsOf(source, channels, n, s0, r[..|r| - 1]), SegmentOf(source, channels, n, s0, r[|r| - 1]);
    windows := ListLast(audio, init, lists, m, Step(run.windows, run.pipeline.timeline));
    SegmentsSnoc(source, channels, n, s0, r);
    forall j | 0 <= j < |r| ensures StretchWindows(audio, source, channels, n, s0, r[j], windows[j]) {
      assert (init + [m])[j] == SegmentOf(source, channels, n, s0, r[j]);
      SlicesCounted(audio, source, channels, n, s0, r[j], windows[j]);
    }
    Windowing.FinishedCovering(audio, m.segment, 1 + |Windowing.Flatten(lists)|, m.marks,
                               Step(windows[|r| - 1], run.pipeline.timeline));
  }

  lemma FittingWindows(input: InputConfig, audio: AudioConfig, source: Source, channels: nat, n: nat, survivors: seq<nat>)
    returns (windows: seq<seq<AudioWindow>>)
    requires input.maxChannels <= 2 && audio.Valid() && Uniform(source, channels, n) && Increasing(survivors)
    requires survivors != [] && forall s :: s in survivors ==> Fits(input, audio, source(s))
    ensures var r, run := Stretches(survivors), RunPipeline(Preprocess(input, audio, source), survivors);
      && !run.pipeline.placement.closed
      && RunWindows(audio, source, channels, n, survivors[0], r, windows, run.windows)
      && Windowing.Covering(audio, SegmentOf(source, channels, n, survivors[0], r[|r| - 1]).segment, windows[|r| - 1],
                            FinishOf(audio, run.pipeline.timeline).result)
  {
    var lists := FittingRun(input, audio, source, channels, n, survivors);
    windows := PassedWindows(audio, source, channels, n, Stretches(survivors), lists,
                             RunPipeline(Preprocess(input, audio, source), survivors));
  }

  /** The stretches of survivors are their maximal runs. */
  lemma StretchesOf(survivors: seq<nat>)
    requires Increasing(survivors)
    ensures Apart(Stretches(survivors)) && forall s: nat :: s in survivors <==> Holds(Stretches(survivors), s)
  {
    StretchesExact(survivors, 0);
    var r := Stretches(survivors);
    forall s: nat ensures s in survivors <==> Holds(r, s) {
      StretchesExact(survivors, s);
    }
  }

  /** Which frames survive decides exactly which windows there are. Every maximal run of r survivors before the first
      refused frame has the slices of its own audio, (r * n - window) / stride + 1 of them once it holds a window, in
      order, and nothing else is emitted; if no frame is refused the end of the stream covers the last run too. The
      pipeline closes exactly when a survivor does not fit. */
  lemma LossyWindowsExact(input: InputConfig, audio: AudioConfig, source: Source, channels: nat, n: nat, survivors: seq<nat>)
    returns (windows: seq<seq<AudioWindow>>)
    requires input.maxChannels <= 2 && audio.Valid() && Uniform(source, channels, n) && Increasing(survivors) && survivors != []
    ensures var accepted := Accepted(input, audio, source, survivors);
      var r, run := Stretches(accepted), RunPipeline(Preprocess(input, audio, source), survivors);
      && Apart(r) && (forall s: nat :: s in accepted <==> Holds(r, s))
      && (run.pipeline.placement.closed <==> accepted != survivors)
      && RunWindows(audio, source, channels, n, survivors[0], r, windows, run.windows)
      && (accepted == survivors ==>
            Windowing.Covering(audio, SegmentOf(source, channels, n, survivors[0], r[|r| - 1]).segment, windows[|r| - 1],
                               FinishOf(audio, run.pipeline.timeline).result))
  {
    var accepted := Accepted(input, audio, source, survivors);
    StretchesOf(accepted);
    RefusedRun(input, audio, source, channels, n, survivors);
    windows := [];
    if accepted != [] {
      windows := FittingWindows(input, audio, source, channels, n, accepted);
    }
  }
}