/**
 The streaming normalizer on its native path: 16-bit little-endian PCM at 16 kHz, one or two channels, placed on a
 timeline that leaves room for the frames the queue has lost.
 */
module Normalizer {
  import opened Wrappers
  import opened RollingWindow

  datatype InputConfig = InputConfig(
    allowedSampleRatesHz: set<nat>,
    maxChannels: nat,
    maxFrameDurationMs: nat,
    maxInputBytes: nat,
    maxFileBytes: nat)

  /** One PCM_S16LE payload with its media metadata. */
  datatype Envelope = Envelope(
    payload: seq<int>,
    sampleRateHz: nat,
    channels: nat,
    samplesPerChannel: Option<nat>,
    sourceSequence: Option<int>)
  {
    ghost predicate Bytes() {
      forall i :: 0 <= i < |payload| ==> 0 <= payload[i] < 256
    }
  }

  datatype PcmError =
    | StreamClosed | UnsupportedSampleRate | UnsupportedChannels | EmptyAudio | PayloadTooLarge
    | InvalidPcmLength | DeclaredLengthMismatch | MediaFormatChanged

  /** Two bytes per sample; the configuration allows one or two channels. */
  function FrameWidth(channels: nat): nat {
    if channels == 1 then 2 else 4
  }

  function FrameCount(e: Envelope): nat {
    if e.channels == 1 then |e.payload| / 2 else |e.payload| / 4
  }

  /** The checks of decode_pcm, in order. */
  function Check(config: InputConfig, e: Envelope): Option<PcmError> {
    if e.sampleRateHz !in config.allowedSampleRatesHz then Some(UnsupportedSampleRate)
    else if e.channels < 1 || e.channels > config.maxChannels then Some(UnsupportedChannels)
    else if e.payload == [] then Some(EmptyAudio)
    else if |e.payload| > config.maxInputBytes then Some(PayloadTooLarge)
    else if |e.payload| % FrameWidth(e.channels) != 0 then Some(InvalidPcmLength)
    else if e.samplesPerChannel.Some? && e.samplesPerChannel.value != FrameCount(e) then Some(DeclaredLengthMismatch)
    else if FrameCount(e) * 1000 > e.sampleRateHz * config.maxFrameDurationMs then Some(PayloadTooLarge)
    else None
  }

  /** The frame is not one the source would resample. */
  predicate Native(config: InputConfig, e: Envelope) {
    e.sampleRateHz in config.allowedSampleRatesHz ==> e.sampleRateHz == SAMPLE_RATE_HZ
  }

  /** A signed 16-bit little-endian sample, divided by the PCM scale. */
  function Sample(low: int, high: int): real {
    var word := low + 256 * high;
    (if word < 32768 then word else word - 65536) as real / 32768.0
  }

  function Clip(x: real): real {
    if x < -1.0 then -1.0 else if x > 1.0 then 1.0 else x
  }

  lemma SampleInRange(low: int, high: int)
    requires 0 <= low < 256 && 0 <= high < 256
    ensures -1.0 <= Sample(low, high) < 1.0
  {}

  predicate Word(x: int) {
    -32768 <= x < 32768
  }

  /** The little-endian two's complement bytes of a word. */
  function EncodeWord(word: int): (s: seq<int>)
    requires Word(word)
    ensures |s| == 2 && 0 <= s[0] < 256 && 0 <= s[1] < 256
  {
    var unsigned := if word < 0 then word + 65536 else word;
    [unsigned % 256, unsigned / 256]
  }

  /** Interleaved samples as PCM_S16LE. */
  function Encode(words: seq<int>): (s: seq<int>)
    requires forall i :: 0 <= i < |words| ==> Word(words[i])
    ensures |s| == 2 * |words|
  {
    if words == [] then [] else EncodeWord(words[0]) + Encode(words[1..])
  }

  /** Reading the bytes of a word gives the word back, as a fraction of full scale. */
  lemma SampleInvertsEncoding(word: int)
    requires Word(word)
    ensures Sample(EncodeWord(word)[0], EncodeWord(word)[1]) == word as real / 32768.0
  {}

  lemma {:induction false} EncodedAt(words: seq<int>, k: nat)
    requires (forall i :: 0 <= i < |words| ==> Word(words[i])) && k < |words|
    ensures Encode(words)[2 * k] == EncodeWord(words[k])[0] && Encode(words)[2 * k + 1] == EncodeWord(words[k])[1]
  {
    if k > 0 {
      EncodedAt(words[1..], k - 1);
    }
  }

  /** Word k of an encoding is read as the fraction of full scale that it is, and no sample is clipped. */
  lemma ReadsWord(words: seq<int>, k: nat)
    requires (forall i :: 0 <= i < |words| ==> Word(words[i])) && k < |words|
    ensures Clip(Sample(Encode(words)[2 * k], Encode(words)[2 * k + 1])) == words[k] as real / 32768.0
  {
    EncodedAt(words, k);
    SampleInvertsEncoding(words[k]);
    SampleInRange(EncodeWord(words[k])[0], EncodeWord(words[k])[1]);
  }

  /** The first frame of an interleaved payload, mixed down. */
  function MonoHead(payload: seq<int>, channels: nat): real
    requires 1 <= channels <= 2 && |payload| >= FrameWidth(channels)
  {
    var left := Clip(Sample(payload[0], payload[1]));
    if channels == 1 then left else (left + Clip(Sample(payload[2], payload[3]))) / 2.0
  }

  /** Frames-by-channels decoding and mix-down of a whole payload. */
  function Mono(payload: seq<int>, channels: nat): seq<real>
    requires 1 <= channels <= 2
  {
    if |payload| < FrameWidth(channels) then []
    else [MonoHead(payload, channels)] + Mono(payload[FrameWidth(channels)..], channels)
  }

  lemma {:induction false} MonoShape(payload: seq<int>, channels: nat)
    requires 1 <= channels <= 2
    ensures |Mono(payload, channels)| == if channels == 1 then |payload| / 2 else |payload| / 4
    ensures forall i :: 0 <= i < |Mono(payload, channels)| ==> -1.0 <= Mono(payload, channels)[i] <= 1.0
  {
    if |payload| >= FrameWidth(channels) {
      MonoShape(payload[FrameWidth(channels)..], channels);
    }
  }

  /** Output frame i is mixed from the i-th group of interleaved samples. */
  lemma {:induction false} MonoAt(payload: seq<int>, channels: nat, i: nat)
    requires 1 <= channels <= 2 && i < |Mono(payload, channels)|
    ensures FrameWidth(channels) * (i + 1) <= |payload|
    ensures Mono(payload, channels)[i] == MonoHead(payload[FrameWidth(channels) * i..], channels)
  {
    if i > 0 {
      var rest := payload[FrameWidth(channels)..];
      MonoAt(rest, channels, i - 1);
      assert rest[FrameWidth(channels) * (i - 1)..] == payload[FrameWidth(channels) * i..];
    }
  }

  /** Frame i of interleaved words: word i, or the mean of words 2i and 2i + 1, over full scale. */
  function Mixed(words: seq<int>, channels: nat, i: nat): real
    requires 1 <= channels <= 2 && i < |words| / channels
  {
    if channels == 1 then words[i] as real / 32768.0
    else (words[2 * i] as real / 32768.0 + words[2 * i + 1] as real / 32768.0) / 2.0
  }

  lemma FrameInvertsEncoding(words: seq<int>, channels: nat, i: nat)
    requires 1 <= channels <= 2 && |words| % channels == 0 && forall k :: 0 <= k < |words| ==> Word(words[k])
    requires i < |words| / channels && i < |Mono(Encode(words), channels)|
    ensures Mono(Encode(words), channels)[i] == Mixed(words, channels, i)
  {
    var payload := Encode(words);
    var rest := payload[FrameWidth(channels) * i..];
    MonoAt(payload, channels, i);
    if channels == 1 {
      ReadsWord(words, i);
      assert rest[0] == payload[2 * i] && rest[1] == payload[2 * i + 1];
    } else {
      ReadsWord(words, 2 * i);
      ReadsWord(words, 2 * i + 1);
      assert rest[0] == payload[4 * i] && rest[1] == payload[4 * i + 1];
      assert rest[2] == payload[4 * i + 2] && rest[3] == payload[4 * i + 3];
    }
  }

  /** Decoding inverts the encoding, in one or two channels. */
  lemma MonoInvertsEncoding(words: seq<int>, channels: nat)
    requires 1 <= channels <= 2 && |words| % channels == 0 && forall k :: 0 <= k < |words| ==> Word(words[k])
    ensures |Mono(Encode(words), channels)| == |words| / channels
    ensures forall i :: 0 <= i < |words| / channels ==> Mono(Encode(words), channels)[i] == Mixed(words, channels, i)
  {
    MonoShape(Encode(words), channels);
    forall i | 0 <= i < |words| / channels ensures Mono(Encode(words), channels)[i] == Mixed(words, channels, i) {
      FrameInvertsEncoding(words, channels, i);
    }
  }

  /** What the normalizer remembers; the resampler is absent on this path. */
  datatype Placement = Placement(
    signature: Option<(nat, nat)>,
    lastSourceSequence: Option<int>,
    discontinuity: bool,
    packetGap: bool,
    gapSamples: int,
    base: int,
    segmentSamples: nat,
    nextStart: int,
    lastFrameCount: Option<nat>,
    closed: bool)

  const UNPLACED := Placement(None, None, false, false, 0, 0, 0, 0, None, false)

  function ClosePlacement(p: Placement): Placement {
    p.(gapSamples := 0, closed := true)
  }

  predicate SequenceGap(p: Placement, e: Envelope) {
    p.lastSourceSequence.Some? && e.sourceSequence.Some? && e.sourceSequence.value != p.lastSourceSequence.value + 1
  }

  /** At the native rate a source sample is an output sample, so nothing is rounded. */
  function MissingSamples(p: Placement, e: Envelope): int {
    if p.lastFrameCount.Some? && p.lastSourceSequence.Some? && e.sourceSequence.Some?
       && e.sourceSequence.value > p.lastSourceSequence.value + 1
    then (e.sourceSequence.value - p.lastSourceSequence.value - 1) * p.lastFrameCount.value
    else 0
  }

  /** Moves past a gap in the sequence numbers. */
  function Skip(p: Placement, e: Envelope): Placement {
    if !SequenceGap(p, e) then p
    else
      var base := p.base + p.segmentSamples + MissingSamples(p, e);
      p.(base := base, segmentSamples := 0, nextStart := base,
         discontinuity := true, packetGap := true, gapSamples := MissingSamples(p, e))
  }

  function BuildOutput(p: Placement, output: seq<real>): CanonicalAudio {
    CanonicalAudio(output, SAMPLE_RATE_HZ, None, p.discontinuity, p.packetGap, Some(p.nextStart), p.gapSamples)
  }

  datatype Placed = Placed(result: Result<CanonicalAudio, PcmError>, after: Placement)

  /** The size of the decoded float32 array. */
  function DecodedBytes(e: Envelope): nat
    requires 1 <= e.channels <= 2
  {
    FrameCount(e) * (if e.channels == 1 then 4 else 8)
  }

  /** The frame is appended where the placement stands. */
  function Advance(p: Placement, frameCount: nat, sourceSequence: Option<int>): Placement {
    p.(segmentSamples := p.segmentSamples + frameCount, lastFrameCount := Some(frameCount),
       lastSourceSequence := sourceSequence, nextStart := p.nextStart + frameCount,
       discontinuity := false, packetGap := false, gapSamples := 0)
  }

  /** One push of a native-rate stream; every error closes it. */
  function Push(config: InputConfig, p: Placement, e: Envelope): Placed
    requires config.maxChannels <= 2
  {
    if p.closed then Placed(Err(StreamClosed), ClosePlacement(p))
    else if Check(config, e).Some? then Placed(Err(Check(config, e).value), ClosePlacement(p))
    else if p.signature.Some? && p.signature.value != (e.sampleRateHz, e.channels) then
      Placed(Err(MediaFormatChanged), ClosePlacement(p))
    else
      var skipped := Skip(p.(signature := Some((e.sampleRateHz, e.channels))), e);
      if DecodedBytes(e) > config.maxFileBytes then Placed(Err(PayloadTooLarge), ClosePlacement(skipped))
      else Placed(Ok(BuildOutput(skipped, Mono(e.payload, e.channels))),
                  Advance(skipped, FrameCount(e), e.sourceSequence))
  }

  class StreamingPcmNormalizer {
    const config: InputConfig
    var mediaSignature: Option<(nat, nat)>
    var lastSourceSequence: Option<int>
    var pendingDiscontinuity: bool
    var pendingPacketGap: bool
    var pendingGapSamples: int
    var segmentBaseSample: int
    var segmentSourceSamples: nat
    var nextOutputStartSample: int
    var lastFrameCount: Option<nat>
    var closed: bool

    constructor (config: InputConfig)
      ensures this.config == config && Meaning() == UNPLACED
    {
      this.config := config;
      mediaSignature, lastSourceSequence, lastFrameCount := None, None, None;
      pendingDiscontinuity, pendingPacketGap, pendingGapSamples := false, false, 0;
      segmentBaseSample, segmentSourceSamples, nextOutputStartSample := 0, 0, 0;
      closed := false;
    }

    ghost function Meaning(): Placement
      reads this
    {
      Placement(mediaSignature, lastSourceSequence, pendingDiscontinuity, pendingPacketGap, pendingGapSamples,
                segmentBaseSample, segmentSourceSamples, nextOutputStartSample, lastFrameCount, closed)
    }

    method Clear()
      modifies this
      ensures Meaning() == ClosePlacement(old(Meaning()))
    {
      pendingGapSamples := 0;
      closed := true;
    }

    method PushFrame(e: Envelope) returns (result: Result<CanonicalAudio, PcmError>)
      requires config.maxChannels <= 2 && Native(config, e)
      modifies this
      ensures Placed(result, Meaning()) == Push(config, old(Meaning()), e)
    {
      result := Transform(e);
      if result.Err? {
        Clear();
      }
    }

    /** The body of the push, without the closing on error. */
    method Transform(e: Envelope) returns (result: Result<CanonicalAudio, PcmError>)
      requires config.maxChannels <= 2 && Native(config, e)
      modifies this
      ensures var placed := Push(config, old(Meaning()), e);
        && result == placed.result
        && (result.Ok? ==> Meaning() == placed.after)
        && (result.Err? ==> ClosePlacement(Meaning()) == placed.after)
    {
      if closed {
        return Err(StreamClosed);
      }
      var invalid := Check(config, e);
      if invalid.Some? {
        return Err(invalid.value);
      }
      if mediaSignature.None? {
        mediaSignature := Some((e.sampleRateHz, e.channels));
      } else if mediaSignature.value != (e.sampleRateHz, e.channels) {
        Clear();
        return Err(MediaFormatChanged);
      }
      var sequenceGap := lastSourceSequence.Some? && e.sourceSequence.Some?
        && e.sourceSequence.value != lastSourceSequence.value + 1;
      if sequenceGap {
        MovePast(e.sourceSequence.value);
      }
      if DecodedBytes(e) > config.maxFileBytes {
        return Err(PayloadTooLarge);
      }
      var audio := Emit(e);
      result := Ok(audio);
    }

    /** The samples are placed and described, and what was pending is reported with them. */
    method Emit(e: Envelope) returns (audio: CanonicalAudio)
      requires 1 <= e.channels <= 2
      modifies this
      ensures audio == BuildOutput(old(Meaning()), Mono(e.payload, e.channels))
      ensures Meaning() == Advance(old(Meaning()), FrameCount(e), e.sourceSequence)
    {
      var frameCount := FrameCount(e);
      segmentSourceSamples := segmentSourceSamples + frameCount;
      lastFrameCount := Some(frameCount);
      lastSourceSequence := e.sourceSequence;
      var output := Mono(e.payload, e.channels);
      MonoShape(e.payload, e.channels);
      audio := CanonicalAudio(output, SAMPLE_RATE_HZ, None, pendingDiscontinuity, pendingPacketGap,
                              Some(nextOutputStartSample), pendingGapSamples);
      nextOutputStartSample := nextOutputStartSample + |output|;
      pendingDiscontinuity, pendingPacketGap, pendingGapSamples := false, false, 0;
    }

    /** The branch for a gap in the sequence numbers. */
    method MovePast(sourceSequence: int)
      requires lastSourceSequence.Some? && sourceSequence != lastSourceSequence.value + 1
      modifies this
      ensures forall e: Envelope :: e.sourceSequence == Some(sourceSequence) ==> Meaning() == Skip(old(Meaning()), e)
    {
      var missingSamples := 0;
      if lastFrameCount.Some? && sourceSequence > lastSourceSequence.value + 1 {
        missingSamples := (sourceSequence - lastSourceSequence.value - 1) * lastFrameCount.value;
      }
      segmentBaseSample := segmentBaseSample + segmentSourceSamples + missingSamples;
      segmentSourceSamples := 0;
      nextOutputStartSample := segmentBaseSample;
      pendingDiscontinuity, pendingPacketGap := true, true;
      pendingGapSamples := missingSamples;
    }
  }
}
