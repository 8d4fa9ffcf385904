/**
 Over whole runs of the rolling buffer: the windows of every segment do not depend on how its audio was cut into
 chunks, they are its consecutive strided slices, they are numbered 1, 2, 3, ... across segments and after finishing
 they cover the last one.
 */
module Windowing {
  import opened Wrappers
  import opened RollingWindow

  datatype Chunk = Chunk(audio: CanonicalAudio, startSample: Option<int>)

  function Windows(r: Result<seq<AudioWindow>, AudioError>): seq<AudioWindow> {
    if r.Ok? then r.value else []
  }

  type Appender = (Timeline, Chunk) -> Step<Result<seq<AudioWindow>, AudioError>>

  function Append(config: AudioConfig): Appender
    requires config.Valid()
  {
    (t: Timeline, c: Chunk) => AppendTo(config, t, c.audio, c.startSample)
  }

  /** Appends the chunks one after the other; a refused chunk emits nothing. */
  ghost function Feed(append: Appender, t: Timeline, chunks: seq<Chunk>): Step<seq<AudioWindow>> {
    if chunks == [] then Step([], t)
    else
      var before := Feed(append, t, chunks[..|chunks| - 1]);
      var step := append(before.timeline, chunks[|chunks| - 1]);
      Step(before.result + Windows(step.result), step.timeline)
  }

  // ---------------------------------------------------------------- emitted windows

  lemma {:induction false} EmitAt(config: AudioConfig, s: Segment, lo: nat, hi: nat, sequence: nat, marks: Marks, i: nat)
    requires config.Valid() && lo <= hi <= FullWindows(config, |s.samples|) && i < hi - lo
    ensures Offset(config, lo + i) + config.windowSamples <= |s.samples|
    ensures Emit(config, s, lo, hi, sequence, marks)[i]
         == WindowAt(config, s, lo + i, sequence + i, if i == 0 then marks else NO_MARKS)
  {
    WindowFits(config, |s.samples|, lo + i);
    if i < hi - lo - 1 {
      EmitAt(config, s, lo, hi - 1, sequence, marks, i);
    }
  }

  /** Emission can be done in two steps. */
  lemma {:induction false} EmitSplit(config: AudioConfig, s: Segment, lo: nat, mid: nat, hi: nat, sequence: nat, marks: Marks)
    requires config.Valid() && lo <= mid <= hi <= FullWindows(config, |s.samples|)
    ensures Emit(config, s, lo, hi, sequence, marks)
         == Emit(config, s, lo, mid, sequence, marks)
            + Emit(config, s, mid, hi, sequence + (mid - lo), if mid == lo then marks else NO_MARKS)
  {
    if mid < hi {
      var rest := if mid == lo then marks else NO_MARKS;
      EmitSplit(config, s, lo, mid, hi - 1, sequence, marks);
      EmitSnoc(config, s, lo, hi - 1, sequence, marks);
      EmitSnoc(config, s, mid, hi - 1, sequence + (mid - lo), rest);
    }
  }

  /** Windows already full do not change when the segment grows. */
  lemma {:induction false} EmitPrefix(config: AudioConfig, s: Segment, more: seq<real>, lo: nat, hi: nat, sequence: nat, marks: Marks)
    requires config.Valid() && lo <= hi <= FullWindows(config, |s.samples|)
    ensures FullWindows(config, |s.samples|) <= FullWindows(config, |s.samples + more|)
    ensures Emit(config, s, lo, hi, sequence, marks)
         == Emit(config, Segment(s.start, s.samples + more), lo, hi, sequence, marks)
  {
    FullWindowsGrows(config, |s.samples|, |s.samples + more|);
    if lo < hi {
      EmitPrefix(config, s, more, lo, hi - 1, sequence, marks);
      WindowFits(config, |s.samples|, hi - 1);
      WindowPrefix(config, s, more, hi - 1, sequence + (hi - 1 - lo), if hi - 1 == lo then marks else NO_MARKS);
    }
  }

  lemma WindowPrefix(config: AudioConfig, s: Segment, more: seq<real>, k: nat, sequence: nat, marks: Marks)
    requires config.Valid() && Offset(config, k) + config.windowSamples <= |s.samples|
    ensures WindowAt(config, Segment(s.start, s.samples + more), k, sequence, marks) == WindowAt(config, s, k, sequence, marks)
  {
    var from := Offset(config, k);
    assert (s.samples + more)[from..from + config.windowSamples] == s.samples[from..from + config.windowSamples];
  }

  // ---------------------------------------------------------------- contiguous runs

  /** The chunk is accepted and continues the current segment. */
  ghost predicate Continues(config: AudioConfig, t: Timeline, c: Chunk) {
    && !t.closed && t.segment.Some? && t.segment.value.End() >= 0
    && ValidAudio(c.audio) && |c.audio.samples| <= config.maxBufferSamples
    && !Discontinuous(t, c.audio, FrameStart(t, c.audio, c.startSample))
  }

  ghost predicate Smooth(config: AudioConfig, t: Timeline, chunks: seq<Chunk>)
    requires config.Valid()
  {
    forall i :: 0 <= i < |chunks| ==> Continues(config, Feed(Append(config), t, chunks[..i]).timeline, chunks[i])
  }

  ghost function Samples(chunks: seq<Chunk>): seq<real> {
    if chunks == [] then [] else Samples(chunks[..|chunks| - 1]) + chunks[|chunks| - 1].audio.samples
  }

  /** What contiguous audio does to a timeline with a segment: the segment becomes `all`, and every window this
      makes full is emitted. */
  ghost predicate Grown(config: AudioConfig, t: Timeline, all: Segment, out: Step<seq<AudioWindow>>)
    requires config.Valid() && t.segment.Some?
  {
    var k, m := FullWindows(config, |t.segment.value.samples|), FullWindows(config, |all.samples|);
    && k <= m
    && out.result == Emit(config, all, k, m, t.nextSequence, t.marks)
    && out.timeline.segment == Some(all)
    && out.timeline.nextSequence == t.nextSequence + (m - k)
    && out.timeline.marks == (if m == k then t.marks else NO_MARKS)
    && out.timeline.closed == t.closed
  }

  lemma ContinueStep(config: AudioConfig, t: Timeline, c: Chunk)
    requires config.Valid() && Continues(config, t, c)
    ensures var s, step := t.segment.value, Append(config)(t, c);
      Grown(config, t, Segment(s.start, s.samples + c.audio.samples), Step(Windows(step.result), step.timeline))
  {
    FullWindowsGrows(config, |t.segment.value.samples|, |t.segment.value.samples + c.audio.samples|);
  }

  lemma GrownTwice(config: AudioConfig, t: Timeline, mid: Segment, more: seq<real>,
                   first: Step<seq<AudioWindow>>, second: Step<seq<AudioWindow>>)
    requires config.Valid() && t.segment.Some? && Grown(config, t, mid, first)
    requires Grown(config, first.timeline, Segment(mid.start, mid.samples + more), second)
    ensures Grown(config, t, Segment(mid.start, mid.samples + more),
                  Step(first.result + second.result, second.timeline))
  {
    var all := Segment(mid.start, mid.samples + more);
    var k, l := FullWindows(config, |t.segment.value.samples|), FullWindows(config, |mid.samples|);
    EmitPrefix(config, mid, more, k, l, t.nextSequence, t.marks);
    EmitSplit(config, all, k, l, FullWindows(config, |all.samples|), t.nextSequence, t.marks);
  }

  /** One more chunk on a run. */
  lemma SmoothJoin(config: AudioConfig, append: Appender, t: Timeline, chunks: seq<Chunk>, start: int, samples: seq<real>)
    requires config.Valid() && t.segment.Some? && chunks != []
    requires var init, last := chunks[..|chunks| - 1], chunks[|chunks| - 1];
      var before := Feed(append, t, init);
      var step := append(before.timeline, last);
      && Grown(config, t, Segment(start, samples + Samples(init)), before)
      && Grown(config, before.timeline, Segment(start, samples + Samples(init) + last.audio.samples),
               Step(Windows(step.result), step.timeline))
    ensures Grown(config, t, Segment(start, samples + Samples(chunks)), Feed(append, t, chunks))
  {
    var init, last := chunks[..|chunks| - 1], chunks[|chunks| - 1];
    var before := Feed(append, t, init);
    var step := append(before.timeline, last);
    GrownTwice(config, t, Segment(start, samples + Samples(init)), last.audio.samples, before,
               Step(Windows(step.result), step.timeline));
    assert samples + Samples(chunks) == samples + Samples(init) + last.audio.samples;
  }

  /** A contiguous run emits exactly the windows that its samples make full. */
  lemma {:induction false} SmoothRun(config: AudioConfig, t: Timeline, chunks: seq<Chunk>)
    requires config.Valid() && t.segment.Some? && Smooth(config, t, chunks)
    ensures var s := t.segment.value;
      Grown(config, t, Segment(s.start, s.samples + Samples(chunks)), Feed(Append(config), t, chunks))
  {
    var s := t.segment.value;
    if chunks == [] {
      assert s.samples + Samples(chunks) == s.samples;
    } else {
      var init := chunks[..|chunks| - 1];
      SmoothPrefix(config, t, chunks);
      SmoothRun(config, t, init);
      ContinueStep(config, Feed(Append(config), t, init).timeline, chunks[|chunks| - 1]);
      SmoothJoin(config, Append(config), t, chunks, s.start, s.samples);
    }
  }

  lemma SmoothPrefix(config: AudioConfig, t: Timeline, chunks: seq<Chunk>)
    requires config.Valid() && chunks != [] && Smooth(config, t, chunks)
    ensures Smooth(config, t, chunks[..|chunks| - 1])
    ensures Continues(config, Feed(Append(config), t, chunks[..|chunks| - 1]).timeline, chunks[|chunks| - 1])
  {
    var init := chunks[..|chunks| - 1];
    forall i | 0 <= i < |init| ensures Continues(config, Feed(Append(config), t, init[..i]).timeline, init[i]) {
      assert init[..i] == chunks[..i];
    }
  }

  function StartOf(t: Timeline, c: Chunk): int {
    FrameStart(t, c.audio, c.startSample)
  }

  /** The timeline on which a first chunk is appended: an empty segment with the marks of its first window. */
  function Opening(t: Timeline, c: Chunk): Timeline {
    BeginOrContinue(t, c.audio, StartOf(t, c))
  }

  /** The first chunk is accepted and begins a segment, because there is none or by a discontinuity; the others
      continue it. */
  ghost predicate Opens(config: AudioConfig, t: Timeline, chunks: seq<Chunk>)
    requires config.Valid()
  {
    && chunks != [] && !t.closed && StartOf(t, chunks[0]) >= 0
    && ValidAudio(chunks[0].audio) && |chunks[0].audio.samples| <= config.maxBufferSamples
    && (t.segment.None? || Discontinuous(t, chunks[0].audio, StartOf(t, chunks[0])))
    && forall i :: 0 < i < |chunks| ==> Continues(config, Feed(Append(config), t, chunks[..i]).timeline, chunks[i])
  }

  lemma Associative(a: seq<AudioWindow>, b: seq<AudioWindow>, c: seq<AudioWindow>)
    ensures (a + b) + c == a + (b + c)
  {}

  lemma FeedSnoc(append: Appender, t: Timeline, chunks: seq<Chunk>, c: Chunk)
    ensures var before := Feed(append, t, chunks);
      var step := append(before.timeline, c);
      Feed(append, t, chunks + [c]) == Step(before.result + Windows(step.result), step.timeline)
  {
    assert (chunks + [c])[..|chunks|] == chunks;
  }

  lemma {:induction false} FeedAppend(append: Appender, t: Timeline, a: seq<Chunk>, b: seq<Chunk>)
    ensures var first := Feed(append, t, a);
      var second := Feed(append, first.timeline, b);
      Feed(append, t, a + b) == Step(first.result + second.result, second.timeline)
  {
    var first := Feed(append, t, a);
    if b == [] {
      assert a + b == a;
      assert first.result + [] == first.result;
    } else {
      var init, last := b[..|b| - 1], b[|b| - 1];
      assert b == init + [last];
      assert a + b == (a + init) + [last];
      FeedAppend(append, t, a, init);
      FeedSnoc(append, t, a + init, last);
      FeedSnoc(append, first.timeline, init, last);
      var middle := Feed(append, first.timeline, init);
      Associative(first.result, middle.result, Windows(append(middle.timeline, last).result));
    }
  }

  lemma SamplesSnoc(chunks: seq<Chunk>, c: Chunk)
    ensures Samples(chunks + [c]) == Samples(chunks) + c.audio.samples
  {
    assert (chunks + [c])[..|chunks|] == chunks;
  }

  lemma {:induction false} SamplesAppend(a: seq<Chunk>, b: seq<Chunk>)
    ensures Samples(a + b) == Samples(a) + Samples(b)
  {
    if b == [] {
      assert a + b == a;
    } else {
      var init, last := b[..|b| - 1], b[|b| - 1];
      assert b == init + [last];
      assert a + b == (a + init) + [last];
      SamplesAppend(a, init);
      SamplesSnoc(a + init, last);
      SamplesSnoc(init, last);
    }
  }

  lemma FeedOne(append: Appender, t: Timeline, c: Chunk)
    ensures Feed(append, t, [c]) == Step(Windows(append(t, c).result), append(t, c).timeline)
  {
    assert [c][..0] == [];
    assert Feed(append, t, [c][..0]) == Step([], t);
    assert [] + Windows(append(t, c).result) == Windows(append(t, c).result);
  }

  /** The first chunk of a run, on the segment it opens. */
  lemma OpeningChunk(config: AudioConfig, t: Timeline, chunks: seq<Chunk>)
    requires config.Valid() && Opens(config, t, chunks)
    ensures var c := chunks[0];
      Grown(config, Opening(t, c), Segment(StartOf(t, c), c.audio.samples), Feed(Append(config), t, [c]))
  {
    var c := chunks[0];
    FeedOne(Append(config), t, c);
    assert [] + c.audio.samples == c.audio.samples;
  }

  lemma OpeningRest(config: AudioConfig, t: Timeline, chunks: seq<Chunk>)
    requires config.Valid() && Opens(config, t, chunks)
    ensures Smooth(config, Feed(Append(config), t, [chunks[0]]).timeline, chunks[1..])
  {
    var rest := chunks[1..];
    var one := Feed(Append(config), t, [chunks[0]]);
    forall i | 0 <= i < |rest| ensures Continues(config, Feed(Append(config), one.timeline, rest[..i]).timeline, rest[i]) {
      FeedFirst(Append(config), t, chunks, i);
    }
  }

  lemma FeedFirst(append: Appender, t: Timeline, chunks: seq<Chunk>, i: nat)
    requires i + 1 < |chunks|
    ensures Feed(append, t, chunks[..i + 1]).timeline == Feed(append, Feed(append, t, [chunks[0]]).timeline, chunks[1..][..i]).timeline
    ensures chunks[1..][i] == chunks[i + 1]
  {
    assert chunks[..i + 1] == [chunks[0]] + chunks[1..][..i];
    FeedAppend(append, t, [chunks[0]], chunks[1..][..i]);
  }

  /** The samples of a run, its first chunk apart. */
  lemma SamplesCons(chunks: seq<Chunk>)
    requires chunks != []
    ensures Samples(chunks) == chunks[0].audio.samples + Samples(chunks[1..])
  {
    var first := [chunks[0]];
    assert chunks == first + chunks[1..];
    SamplesAppend(first, chunks[1..]);
    assert first[..0] == [] && Samples(first[..0]) == [];
    assert Samples(first) == chunks[0].audio.samples;
  }

  /** A run that opens a segment emits exactly the windows that its samples make full, whatever its chunks; the first
      one carries the opening marks. */
  lemma SegmentWindows(config: AudioConfig, t: Timeline, chunks: seq<Chunk>)
    requires config.Valid() && Opens(config, t, chunks)
    ensures Grown(config, Opening(t, chunks[0]), Segment(StartOf(t, chunks[0]), Samples(chunks)), Feed(Append(config), t, chunks))
  {
    var one := Feed(Append(config), t, [chunks[0]]);
    OpeningChunk(config, t, chunks);
    OpeningRest(config, t, chunks);
    SmoothRun(config, one.timeline, chunks[1..]);
    JoinRest(config, Append(config), t, chunks, one);
  }

  lemma JoinRest(config: AudioConfig, append: Appender, t: Timeline, chunks: seq<Chunk>, one: Step<seq<AudioWindow>>)
    requires config.Valid() && chunks != [] && one == Feed(append, t, [chunks[0]])
    requires Grown(config, Opening(t, chunks[0]), Segment(StartOf(t, chunks[0]), chunks[0].audio.samples), one)
    requires Grown(config, one.timeline, Segment(StartOf(t, chunks[0]), chunks[0].audio.samples + Samples(chunks[1..])),
                   Feed(append, one.timeline, chunks[1..]))
    ensures Grown(config, Opening(t, chunks[0]), Segment(StartOf(t, chunks[0]), Samples(chunks)), Feed(append, t, chunks))
  {
    assert chunks == [chunks[0]] + chunks[1..];
    FeedAppend(append, t, [chunks[0]], chunks[1..]);
    SamplesCons(chunks);
    GrownTwice(config, Opening(t, chunks[0]), Segment(StartOf(t, chunks[0]), chunks[0].audio.samples), Samples(chunks[1..]),
               one, Feed(append, one.timeline, chunks[1..]));
  }

  // ---------------------------------------------------------------- several segments

  function Flatten<T>(parts: seq<seq<T>>): seq<T> {
    if parts == [] then [] else Flatten(parts[..|parts| - 1]) + parts[|parts| - 1]
  }

  /** A run cut at its discontinuities: every part opens a segment on what the parts before it left. */
  ghost predicate Segmented(config: AudioConfig, t: Timeline, parts: seq<seq<Chunk>>)
    requires config.Valid()
  {
    parts != [] ==>
      && Segmented(config, t, parts[..|parts| - 1])
      && Opens(config, Feed(Append(config), t, Flatten(parts[..|parts| - 1])).timeline, parts[|parts| - 1])
  }

  /** A segment and the marks its first window carries. */
  datatype Marked = Marked(segment: Segment, marks: Marks)

  ghost function MarkedOf(t: Timeline, chunks: seq<Chunk>): Marked
    requires chunks != []
  {
    Marked(Segment(StartOf(t, chunks[0]), Samples(chunks)), Opening(t, chunks[0]).marks)
  }

  /** The segments of such a run. */
  ghost function SegmentsOf(config: AudioConfig, t: Timeline, parts: seq<seq<Chunk>>): (all: seq<Marked>)
    requires config.Valid() && Segmented(config, t, parts)
    ensures |all| == |parts|
  {
    if parts == [] then []
    else
      var init, last := parts[..|parts| - 1], parts[|parts| - 1];
      var before := Feed(Append(config), t, Flatten(init)).timeline;
      SegmentsOf(config, t, init) + [MarkedOf(before, last)]
  }

  /** The full windows of segments one after the other, numbered on across them. */
  ghost function EmitAll(config: AudioConfig, all: seq<Marked>, sequence: nat): seq<AudioWindow>
    requires config.Valid()
  {
    if all == [] then []
    else
      var before, last := EmitAll(config, all[..|all| - 1], sequence), all[|all| - 1];
      before + Emit(config, last.segment, 0, FullWindows(config, |last.segment.samples|), sequence + |before|, last.marks)
  }

  /** What a run leaves behind, as far as later windows depend on it. */
  ghost predicate Leaves(config: AudioConfig, all: seq<Marked>, sequence: nat, t: Timeline)
    requires config.Valid() && all != []
  {
    var last := all[|all| - 1];
    && !t.closed && t.segment == Some(last.segment)
    && t.nextSequence == sequence + |EmitAll(config, all, sequence)|
    && t.marks == if FullWindows(config, |last.segment.samples|) == 0 then last.marks else NO_MARKS
  }

  /** A run on `t` emitted the full windows of these segments and nothing else. */
  ghost predicate Emits(config: AudioConfig, t: Timeline, all: seq<Marked>, out: Step<seq<AudioWindow>>)
    requires config.Valid()
  {
    && out.result == EmitAll(config, all, t.nextSequence)
    && (all == [] ==> out.timeline == t)
    && (all != [] ==> Leaves(config, all, t.nextSequence, out.timeline))
  }

  /** The same for a single segment. */
  ghost predicate EmitsOne(config: AudioConfig, t: Timeline, m: Marked, out: Step<seq<AudioWindow>>)
    requires config.Valid()
  {
    var n := FullWindows(config, |m.segment.samples|);
    && out.result == Emit(config, m.segment, 0, n, t.nextSequence, m.marks)
    && out.timeline.segment == Some(m.segment) && !out.timeline.closed
    && out.timeline.nextSequence == t.nextSequence + n
    && out.timeline.marks == if n == 0 then m.marks else NO_MARKS
  }

  lemma OneSegment(config: AudioConfig, t: Timeline, chunks: seq<Chunk>)
    requires config.Valid() && Opens(config, t, chunks)
    ensures EmitsOne(config, t, MarkedOf(t, chunks), Feed(Append(config), t, chunks))
  {
    SegmentWindows(config, t, chunks);
    GrownFromOpening(config, t, chunks, Feed(Append(config), t, chunks));
  }

  lemma GrownFromOpening(config: AudioConfig, t: Timeline, chunks: seq<Chunk>, out: Step<seq<AudioWindow>>)
    requires config.Valid() && chunks != [] && !t.closed
    requires t.segment.None? || Discontinuous(t, chunks[0].audio, StartOf(t, chunks[0]))
    requires Grown(config, Opening(t, chunks[0]), MarkedOf(t, chunks).segment, out)
    ensures EmitsOne(config, t, MarkedOf(t, chunks), out)
  {}

  lemma EmitsSnoc(config: AudioConfig, t: Timeline, init: seq<Marked>, before: Step<seq<AudioWindow>>, m: Marked,
                  run: Step<seq<AudioWindow>>)
    requires config.Valid() && Emits(config, t, init, before) && EmitsOne(config, before.timeline, m, run)
    ensures Emits(config, t, init + [m], Step(before.result + run.result, run.timeline))
  {
    assert (init + [m])[..|init|] == init;
    assert EmitAll(config, [], t.nextSequence) == [];
  }

  /** A run of any number of segments emits the full windows of its segments and nothing else. */
  lemma {:induction false} SegmentedWindows(config: AudioConfig, t: Timeline, parts: seq<seq<Chunk>>)
    requires config.Valid() && Segmented(config, t, parts)
    ensures Emits(config, t, SegmentsOf(config, t, parts), Feed(Append(config), t, Flatten(parts)))
  {
    if parts != [] {
      var init, last := parts[..|parts| - 1], parts[|parts| - 1];
      SegmentedWindows(config, t, init);
      var before := Feed(Append(config), t, Flatten(init));
      FeedAppend(Append(config), t, Flatten(init), last);
      OneSegment(config, before.timeline, last);
      EmitsSnoc(config, t, SegmentsOf(config, t, init), before, MarkedOf(before.timeline, last),
                Feed(Append(config), before.timeline, last));
    }
  }

  lemma EmitsSame(config: AudioConfig, t: Timeline, all: seq<Marked>, x: Step<seq<AudioWindow>>, y: Step<seq<AudioWindow>>)
    requires config.Valid() && Emits(config, t, all, x) && Emits(config, t, all, y)
    ensures x.result == y.result && FinishOf(config, x.timeline).result == FinishOf(config, y.timeline).result
  {}

  /** Two ways of cutting the same segments into accepted chunks emit the same windows, before and after finishing. */
  lemma ChunkingInvariant(config: AudioConfig, t: Timeline, a: seq<seq<Chunk>>, b: seq<seq<Chunk>>)
    requires config.Valid() && Segmented(config, t, a) && Segmented(config, t, b)
    requires SegmentsOf(config, t, a) == SegmentsOf(config, t, b)
    ensures var x, y := Feed(Append(config), t, Flatten(a)), Feed(Append(config), t, Flatten(b));
      x.result == y.result && FinishOf(config, x.timeline).result == FinishOf(config, y.timeline).result
  {
    SegmentedWindows(config, t, a);
    SegmentedWindows(config, t, b);
    EmitsSame(config, t, SegmentsOf(config, t, a), Feed(Append(config), t, Flatten(a)), Feed(Append(config), t, Flatten(b)));
  }

  lemma WindowSlice(config: AudioConfig, all: Segment, sequence: nat, marks: Marks, windows: seq<AudioWindow>, k: nat)
    requires config.Valid() && k < |windows|
    requires windows == Emit(config, all, 0, FullWindows(config, |all.samples|), sequence, marks)
    ensures IsSlice(config, all, windows[k], Offset(config, k)) && windows[k].sequence == sequence + k
  {
    EmitAt(config, all, 0, FullWindows(config, |all.samples|), sequence, marks, k);
  }

  /** In every segment of a run the k-th full window is exactly timeline[start + k*stride .. start + k*stride + window],
      there are (length - window) / stride + 1 of them once there is one window of audio, and the first carries the
      marks of whatever interrupted the stream; nothing else is emitted. */
  lemma WindowsAreSlices(config: AudioConfig, t: Timeline, parts: seq<seq<Chunk>>) returns (windows: seq<seq<AudioWindow>>)
    requires config.Valid() && Segmented(config, t, parts)
    ensures Feed(Append(config), t, Flatten(parts)).result == Flatten(windows)
    ensures SliceLists(config, SegmentsOf(config, t, parts), windows)
  {
    SegmentedWindows(config, t, parts);
    windows := SlicesOfAll(config, SegmentsOf(config, t, parts), t.nextSequence);
  }

  function MarksOf(w: AudioWindow): Marks {
    Marks(w.discontinuityBefore, w.packetGapBefore, w.gapSamples)
  }

  /** Window by window, the slices of every segment, with its marks first. */
  ghost predicate SliceLists(config: AudioConfig, all: seq<Marked>, windows: seq<seq<AudioWindow>>)
    requires config.Valid()
  {
    |windows| == |all| && forall j :: 0 <= j < |all| ==> SliceList(config, all[j], windows[j])
  }

  ghost predicate SliceList(config: AudioConfig, m: Marked, windows: seq<AudioWindow>)
    requires config.Valid()
  {
    Slices(config, m.segment, windows) && (windows != [] ==> MarksOf(windows[0]) == m.marks)
  }

  lemma FlattenSnoc<T>(parts: seq<seq<T>>, last: seq<T>)
    ensures Flatten(parts + [last]) == Flatten(parts) + last
  {
    assert (parts + [last])[..|parts|] == parts;
  }

  lemma {:induction false} SlicesOfAll(config: AudioConfig, all: seq<Marked>, sequence: nat) returns (windows: seq<seq<AudioWindow>>)
    requires config.Valid()
    ensures EmitAll(config, all, sequence) == Flatten(windows) && SliceLists(config, all, windows)
  {
    if all == [] {
      windows := [];
    } else {
      var init, last := all[..|all| - 1], all[|all| - 1];
      var before := SlicesOfAll(config, init, sequence);
      var n := sequence + |EmitAll(config, init, sequence)|;
      var emitted := Emit(config, last.segment, 0, FullWindows(config, |last.segment.samples|), n, last.marks);
      EmittedSlices(config, last.segment, n, last.marks);
      FlattenSnoc(before, emitted);
      windows := before + [emitted];
    }
  }

  ghost predicate Slices(config: AudioConfig, all: Segment, windows: seq<AudioWindow>)
    requires config.Valid()
  {
    && |windows| == (if |all.samples| < config.windowSamples then 0
                     else (|all.samples| - config.windowSamples) / config.strideSamples + 1)
    && forall k :: 0 <= k < |windows| ==> IsSlice(config, all, windows[k], k * config.strideSamples)
  }

  lemma EmittedSlices(config: AudioConfig, all: Segment, sequence: nat, marks: Marks)
    requires config.Valid()
    ensures var out := Emit(config, all, 0, FullWindows(config, |all.samples|), sequence, marks);
      Slices(config, all, out) && (out != [] ==> MarksOf(out[0]) == marks)
  {
    var out := Emit(config, all, 0, FullWindows(config, |all.samples|), sequence, marks);
    FullWindowsQuotient(config, |all.samples|);
    forall k | 0 <= k < |out| ensures IsSlice(config, all, out[k], k * config.strideSamples) {
      WindowSlice(config, all, sequence, marks, out, k);
      OffsetProduct(config, k);
    }
    if out != [] {
      EmitAt(config, all, 0, FullWindows(config, |all.samples|), sequence, marks, 0);
    }
  }

  ghost predicate IsSlice(config: AudioConfig, all: Segment, w: AudioWindow, offset: int) {
    && 0 <= offset <= offset + config.windowSamples <= |all.samples|
    && w.samples == all.samples[offset..offset + config.windowSamples]
    && w.startSample == all.start + offset
    && w.endSample == all.start + offset + config.windowSamples
    && !w.isPartial
  }

  // ---------------------------------------------------------------- coverage

  ghost predicate Covers(w: AudioWindow, position: int) {
    w.startSample <= position < w.endSample
  }

  /** The window shows the audio of its own stretch of the timeline. */
  ghost predicate Shows(w: AudioWindow, s: Segment) {
    && s.start <= w.startSample <= w.endSample <= s.End()
    && w.samples == s.samples[w.startSample - s.start..w.endSample - s.start]
  }

  ghost predicate Covered(windows: seq<AudioWindow>, position: int) {
    exists w :: w in windows && Covers(w, position)
  }

  /** Windows of a finished segment: all of them show it, together they cover it, and only the last can be
      partial, and then it is shorter than a window. */
  ghost predicate Covering(config: AudioConfig, all: Segment, full: seq<AudioWindow>, last: seq<AudioWindow>) {
    && |last| <= 1
    && (forall w :: w in full ==> Shows(w, all) && !w.isPartial)
    && (forall w :: w in last ==> Shows(w, all) && w.isPartial && |w.samples| < config.windowSamples)
    && forall position :: all.start <= position < all.End() ==> Covered(full + last, position)
  }

  /** After finishing a run without discontinuities, however its segment began, the windows cover everything that was
      appended. */
  lemma FinishCovers(config: AudioConfig, t: Timeline, chunks: seq<Chunk>)
    requires config.Valid() && Opens(config, t, chunks)
    ensures var fed := Feed(Append(config), t, chunks);
      Covering(config, Segment(StartOf(t, chunks[0]), Samples(chunks)), fed.result, FinishOf(config, fed.timeline).result)
  {
    OneSegment(config, t, chunks);
    FinishedCovering(config, Segment(StartOf(t, chunks[0]), Samples(chunks)), t.nextSequence, Opening(t, chunks[0]).marks,
                     Feed(Append(config), t, chunks));
  }

  lemma FinishedCovering(config: AudioConfig, all: Segment, sequence: nat, marks: Marks, fed: Step<seq<AudioWindow>>)
    requires config.Valid() && !fed.timeline.closed && fed.timeline.segment == Some(all)
    requires fed.result == Emit(config, all, 0, FullWindows(config, |all.samples|), sequence, marks)
    ensures Covering(config, all, fed.result, FinishOf(config, fed.timeline).result)
  {
    var last := FinishOf(config, fed.timeline).result;
    forall w | w in fed.result ensures Shows(w, all) && !w.isPartial {
      FullShows(config, all, sequence, marks, fed.result, w);
    }
    LastShows(config, fed.timeline, all);
    forall position | all.start <= position < all.End() ensures Covered(fed.result + last, position) {
      PositionCovered(config, fed.timeline, fed.result, all, sequence, marks, position);
    }
  }

  lemma FullShows(config: AudioConfig, all: Segment, sequence: nat, marks: Marks, windows: seq<AudioWindow>, w: AudioWindow)
    requires config.Valid() && w in windows
    requires windows == Emit(config, all, 0, FullWindows(config, |all.samples|), sequence, marks)
    ensures Shows(w, all) && !w.isPartial
  {
    var k :| 0 <= k < |windows| && windows[k] == w;
    WindowSlice(config, all, sequence, marks, windows, k);
  }

  lemma LastShows(config: AudioConfig, t: Timeline, all: Segment)
    requires config.Valid() && !t.closed && t.segment == Some(all)
    ensures |FinishOf(config, t).result| <= 1
    ensures forall w :: w in FinishOf(config, t).result ==>
      Shows(w, all) && w.isPartial && |w.samples| < config.windowSamples
  {
    Remainder(config, |all.samples|);
  }

  lemma PositionCovered(config: AudioConfig, t: Timeline, windows: seq<AudioWindow>, all: Segment, sequence: nat,
                        marks: Marks, position: int)
    requires config.Valid() && !t.closed && t.segment == Some(all) && all.start <= position < all.End()
    requires windows == Emit(config, all, 0, FullWindows(config, |all.samples|), sequence, marks)
    ensures Covered(windows + FinishOf(config, t).result, position)
  {
    var m := FullWindows(config, |all.samples|);
    if m > 0 && position - all.start < Offset(config, m - 1) + config.windowSamples {
      var i := FullCover(config, all, m, position - all.start);
      EmitAt(config, all, 0, m, sequence, marks, i);
      assert windows[i] in windows + FinishOf(config, t).result && Covers(windows[i], position);
    } else {
      var last := RestCover(config, t, all, position);
      assert last in windows + FinishOf(config, t).result;
    }
  }

  /** What the full windows do not show the final partial one does. */
  lemma RestCover(config: AudioConfig, t: Timeline, all: Segment, position: int) returns (last: AudioWindow)
    requires config.Valid() && !t.closed && t.segment == Some(all) && all.start <= position < all.End()
    requires var m := FullWindows(config, |all.samples|);
      m == 0 || position - all.start >= Offset(config, m - 1) + config.windowSamples
    ensures last in FinishOf(config, t).result && Covers(last, position)
  {
    Remainder(config, |all.samples|);
    last := FinishOf(config, t).result[0];
  }

  /** Consecutive full windows leave no hole. */
  lemma {:induction false} FullCover(config: AudioConfig, s: Segment, m: nat, offset: int) returns (i: nat)
    requires config.Valid() && 0 < m <= FullWindows(config, |s.samples|)
    requires 0 <= offset < Offset(config, m - 1) + config.windowSamples
    ensures i < m && Offset(config, i) <= offset < Offset(config, i) + config.windowSamples
  {
    if Offset(config, m - 1) <= offset {
      i := m - 1;
    } else {
      i := FullCover(config, s, m - 1, offset);
    }
  }

  // ---------------------------------------------------------------- numbering

  /** Whatever is appended, refused or interrupted, windows are numbered on without a hole. */
  lemma {:induction false} NumberedInOrder(config: AudioConfig, t: Timeline, chunks: seq<Chunk>)
    requires config.Valid()
    ensures var out := Feed(Append(config), t, chunks);
      && out.timeline.nextSequence == t.nextSequence + |out.result|
      && forall i :: 0 <= i < |out.result| ==> out.result[i].sequence == t.nextSequence + i
  {
    if chunks != [] {
      var init, last := chunks[..|chunks| - 1], chunks[|chunks| - 1];
      NumberedInOrder(config, t, init);
      var before := Feed(Append(config), t, init);
      var step := AppendTo(config, before.timeline, last.audio, last.startSample);
      if step.result.Ok? {
        AppendNumbers(config, before.timeline, last);
      }
    }
  }

  lemma AppendNumbers(config: AudioConfig, t: Timeline, c: Chunk)
    requires config.Valid() && AppendTo(config, t, c.audio, c.startSample).result.Ok?
    ensures var step := AppendTo(config, t, c.audio, c.startSample);
      && step.timeline.nextSequence == t.nextSequence + |step.result.value|
      && forall i :: 0 <= i < |step.result.value| ==> step.result.value[i].sequence == t.nextSequence + i
  {
    var u := BeginOrContinue(t, c.audio, FrameStart(t, c.audio, c.startSample));
    var before := u.segment.value;
    var after := Segment(before.start, before.samples + c.audio.samples);
    var k, m := FullWindows(config, |before.samples|), FullWindows(config, |after.samples|);
    FullWindowsGrows(config, |before.samples|, |after.samples|);
    forall i | 0 <= i < m - k ensures Emit(config, after, k, m, u.nextSequence, u.marks)[i].sequence == t.nextSequence + i {
      EmitAt(config, after, k, m, u.nextSequence, u.marks, i);
    }
  }
}
