/** From WAVE data to decoded audio frames: sample cutting, 16-bit decoding, and the bounded frame queue. */
module Pcm {
  import opened Bytes
  import opened Division
  import opened MachineInts
  import opened Wave
  import opened Wrappers

  const FRAMES_PER_SAMPLE := 1_024
  const MAX_SAMPLE_DURATION_US := 10 * 60 * 1_000_000
  const MAX_ABSOLUTE_TIMESTAMP_US := 7 * 24 * 60 * 60 * 1_000_000

  datatype EncodedSample = EncodedSample(
    trackId: nat, decodeTimestamp: int, presentationTimestamp: int, duration: nat, keyframe: bool, data: seq<Byte>)

  function ToI64(x: nat): (i: int) {
    if x > I64_MAX then I64_MAX else x
  }

  function Micros(frames: nat, rate: nat): (us: nat)
    requires rate > 0
  {
    SaturatingMul(frames, 1_000_000) / rate
  }

  // ---- Cutting the data into samples ---------------------------------------------------------

  function SampleOf(f: PcmFormat, chunk: seq<Byte>, frameOffset: nat): (s: EncodedSample)
    requires IsPcm(f)
  {
    var timestamp := ToI64(Micros(frameOffset, f.sampleRate));
    var duration := Micros(|chunk| / f.BlockAlign(), f.sampleRate);
    EncodedSample(1, timestamp, timestamp, if duration < 1 then 1 else duration, true, chunk)
  }

  function SampleBytes(f: PcmFormat): (n: nat)
    requires IsPcm(f)
    ensures n > 0
  {
    FRAMES_PER_SAMPLE * f.BlockAlign()
  }

  function Samples(f: PcmFormat, data: seq<Byte>, frameOffset: nat): (s: seq<EncodedSample>)
    requires IsPcm(f)
    decreases |data|
  {
    if data == [] then []
    else if |data| <= SampleBytes(f) then [SampleOf(f, data, frameOffset)]
    else [SampleOf(f, data[..SampleBytes(f)], frameOffset)]
         + Samples(f, data[SampleBytes(f)..], frameOffset + FRAMES_PER_SAMPLE)
  }

  method PcmBytesToSamples(f: PcmFormat, data: seq<Byte>) returns (samples: seq<EncodedSample>)
    requires IsPcm(f)
    ensures samples == Samples(f, data, 0)
  {
    samples := [];
    var rest, frameOffset: nat := data, 0;
    while rest != []
      invariant samples + Samples(f, rest, frameOffset) == Samples(f, data, 0)
      decreases |rest|
    {
      var size := if |rest| <= SampleBytes(f) then |rest| else SampleBytes(f);
      var chunk := rest[..size];
      assert |rest| <= SampleBytes(f) ==> chunk == rest && rest[size..] == [];
      FullSample(f);
      var frames := |chunk| / f.BlockAlign();
      samples := samples + [SampleOf(f, chunk, frameOffset)];
      rest := rest[size..];
      frameOffset := frameOffset + frames;
    }
  }

  lemma FullSample(f: PcmFormat)
    requires IsPcm(f)
    ensures SampleBytes(f) / f.BlockAlign() == FRAMES_PER_SAMPLE
  {
    ExactMultiple(FRAMES_PER_SAMPLE, f.BlockAlign());
  }

  function DataOf(samples: seq<EncodedSample>): (s: seq<Byte>) {
    if samples == [] then [] else samples[0].data + DataOf(samples[1..])
  }

  /** The samples hold the data chunk, all of it, in order. */
  lemma {:induction false} SamplesConserveData(f: PcmFormat, data: seq<Byte>, frameOffset: nat)
    requires IsPcm(f)
    ensures DataOf(Samples(f, data, frameOffset)) == data
    decreases |data|
  {
    if data != [] {
      var samples := Samples(f, data, frameOffset);
      if |data| <= SampleBytes(f) {
        assert samples[1..] == [];
      } else {
        var n := SampleBytes(f);
        SamplesConserveData(f, data[n..], frameOffset + FRAMES_PER_SAMPLE);
        assert samples[1..] == Samples(f, data[n..], frameOffset + FRAMES_PER_SAMPLE);
      }
    }
  }

  // ---- Timestamps -----------------------------------------------------------------------------

  /** Validation before decoding or queueing. */
  predicate IsValid(s: EncodedSample) {
    && s.trackId != 0 && s.data != [] && 0 < s.duration <= MAX_SAMPLE_DURATION_US
    && -MAX_ABSOLUTE_TIMESTAMP_US <= s.decodeTimestamp <= MAX_ABSOLUTE_TIMESTAMP_US
    && -MAX_ABSOLUTE_TIMESTAMP_US <= s.presentationTimestamp <= MAX_ABSOLUTE_TIMESTAMP_US
  }

  /** More frames than any accepted file can hold. */
  const MAX_FRAMES := MAX_WAVE_BYTES

  lemma MicrosExact(frames: nat, rate: nat)
    requires frames <= MAX_FRAMES && 8_000 <= rate
    ensures Micros(frames, rate) == frames * 1_000_000 / rate
    ensures Micros(frames, rate) <= frames * 125
    ensures ToI64(Micros(frames, rate)) == Micros(frames, rate)
  {
    ScaleBound(frames * 125, 8_000, rate);
    DivAtMost(frames * 1_000_000, rate, frames * 125);
  }

  lemma ScaleBound(x: nat, low: nat, high: nat)
    requires low <= high
    ensures x * low <= x * high
  {
  }

  /** Over a full sample the clock moves on by its duration, or one microsecond more. */
  lemma MicrosStep(frames: nat, rate: nat)
    requires 8_000 <= rate <= 384_000
    ensures var d := FRAMES_PER_SAMPLE * 1_000_000 / rate;
            d >= 1 && d <= (frames + FRAMES_PER_SAMPLE) * 1_000_000 / rate - frames * 1_000_000 / rate <= d + 1
  {
    DivStep(frames * 1_000_000, FRAMES_PER_SAMPLE * 1_000_000, rate);
    DivideLow(FRAMES_PER_SAMPLE * 1_000_000, rate);
  }

  lemma DivideLow(n: nat, d: nat)
    requires 0 < d <= n
    ensures n / d >= 1
  {
  }

  /** What holds of the samples cut from `data`, the first one starting at frame `frameOffset`. */
  ghost predicate Timed(f: PcmFormat, samples: seq<EncodedSample>, frameOffset: nat)
    requires IsPcm(f)
  {
    && (forall k :: 0 <= k < |samples| ==>
          IsValid(samples[k]) && samples[k].presentationTimestamp == samples[k].decodeTimestamp)
    && (samples != [] ==> samples[0].decodeTimestamp == frameOffset * 1_000_000 / f.sampleRate)
    && (forall k :: 0 <= k < |samples| - 1 ==> Follows(samples[k], samples[k + 1]))
  }

  predicate Follows(a: EncodedSample, b: EncodedSample) {
    a.decodeTimestamp + a.duration <= b.decodeTimestamp <= a.decodeTimestamp + a.duration + 1
  }

  lemma OneSample(f: PcmFormat, chunk: seq<Byte>, frameOffset: nat)
    requires IsPcm(f) && 0 < |chunk| <= SampleBytes(f) && |chunk| % f.BlockAlign() == 0
    requires frameOffset + |chunk| <= MAX_FRAMES
    ensures IsValid(SampleOf(f, chunk, frameOffset))
    ensures SampleOf(f, chunk, frameOffset).decodeTimestamp == frameOffset * 1_000_000 / f.sampleRate
  {
    var frames := |chunk| / f.BlockAlign();
    DivAtMost(|chunk|, f.BlockAlign(), FRAMES_PER_SAMPLE);
    MicrosExact(frameOffset, f.sampleRate);
    MicrosExact(frames, f.sampleRate);
  }

  lemma FullSampleStep(f: PcmFormat, chunk: seq<Byte>, frameOffset: nat, next: EncodedSample)
    requires IsPcm(f) && |chunk| == SampleBytes(f) && frameOffset + FRAMES_PER_SAMPLE <= MAX_FRAMES
    requires next.decodeTimestamp == (frameOffset + FRAMES_PER_SAMPLE) * 1_000_000 / f.sampleRate
    ensures Follows(SampleOf(f, chunk, frameOffset), next)
  {
    FullSample(f);
    MicrosExact(frameOffset, f.sampleRate);
    MicrosExact(FRAMES_PER_SAMPLE, f.sampleRate);
    MicrosStep(frameOffset, f.sampleRate);
  }

  lemma TimedCons(f: PcmFormat, first: EncodedSample, rest: seq<EncodedSample>, frameOffset: nat, restOffset: nat)
    requires IsPcm(f) && Timed(f, rest, restOffset) && IsValid(first)
    requires first.presentationTimestamp == first.decodeTimestamp == frameOffset * 1_000_000 / f.sampleRate
    requires rest != [] ==> Follows(first, rest[0])
    ensures Timed(f, [first] + rest, frameOffset)
  {
    var all := [first] + rest;
    forall k | 0 <= k < |all| - 1 ensures Follows(all[k], all[k + 1]) {
      if k > 0 {
        assert all[k] == rest[k - 1] && all[k + 1] == rest[k];
      }
    }
  }

  /**
   * Every sample passes validation, the first starts on time, and each next one starts when the one
   * before ends or one microsecond later: timestamps strictly increase and never drift.
   */
  lemma {:induction false} SamplesAreTimed(f: PcmFormat, data: seq<Byte>, frameOffset: nat)
    requires IsPcm(f) && |data| % f.BlockAlign() == 0 && frameOffset + |data| <= MAX_FRAMES
    ensures Timed(f, Samples(f, data, frameOffset), frameOffset)
    decreases |data|
  {
    if data != [] {
      var n := SampleBytes(f);
      if |data| <= n {
        OneSample(f, data, frameOffset);
      } else {
        var first, rest := data[..n], data[n..];
        Aligned(f, |data|);
        OneSample(f, first, frameOffset);
        SamplesAreTimed(f, rest, frameOffset + FRAMES_PER_SAMPLE);
        FullSampleStep(f, first, frameOffset, Samples(f, rest, frameOffset + FRAMES_PER_SAMPLE)[0]);
        TimedCons(f, SampleOf(f, first, frameOffset), Samples(f, rest, frameOffset + FRAMES_PER_SAMPLE), frameOffset,
                  frameOffset + FRAMES_PER_SAMPLE);
      }
    }
  }

  lemma Aligned(f: PcmFormat, n: nat)
    requires IsPcm(f) && n > SampleBytes(f) && n % f.BlockAlign() == 0
    ensures SampleBytes(f) % f.BlockAlign() == 0 && (n - SampleBytes(f)) % f.BlockAlign() == 0
    ensures SampleBytes(f) >= FRAMES_PER_SAMPLE
  {
    ExactMultiple(FRAMES_PER_SAMPLE, f.BlockAlign());
    LessMultiple(n, FRAMES_PER_SAMPLE, f.BlockAlign());
  }

  // ---- Decoding -------------------------------------------------------------------------------

  newtype I16 = i: int | -0x8000 <= i < 0x8000

  function ToI16(v: nat): (i: I16)
    requires v < 0x1_0000
  {
    if v >= 0x8000 then (v - 0x1_0000) as I16 else v as I16
  }

  function FromI16(i: I16): (v: nat)
    ensures v < 0x1_0000
  {
    if i < 0 then i as int + 0x1_0000 else i as int
  }

  function Word(low: Byte, high: Byte): (i: I16) {
    ToI16(low + 256 * high)
  }

  /** Little-endian 16-bit words; an odd byte at the end is left over. */
  function Words(s: seq<Byte>): (w: seq<I16>) {
    if |s| < 2 then [] else [Word(s[0], s[1])] + Words(s[2..])
  }

  function WordBytes(w: seq<I16>): (s: seq<Byte>)
    ensures |s| == 2 * |w|
  {
    if w == [] then [] else [FromI16(w[0]) % 256, FromI16(w[0]) / 256] + WordBytes(w[1..])
  }

  lemma {:induction false} WordsRoundTrip(w: seq<I16>)
    ensures Words(WordBytes(w)) == w
  {
    if w != [] {
      WordsRoundTrip(w[1..]);
      assert WordBytes(w)[2..] == WordBytes(w[1..]);
    }
  }

  lemma WordsStep(s: seq<Byte>, rest: seq<Byte>)
    requires |s| >= 2 && rest == s[2..]
    ensures Words(s) == [Word(s[0], s[1])] + Words(rest)
  {
  }

  lemma {:induction false} WordsAppend(a: seq<Byte>, b: seq<Byte>)
    requires |a| % 2 == 0
    ensures Words(a + b) == Words(a) + Words(b)
  {
    if a == [] {
      assert a + b == b;
    } else {
      WordsAppend(a[2..], b);
      assert (a + b)[2..] == a[2..] + b && (a + b)[0] == a[0] && (a + b)[1] == a[1];
      WordsStep(a, a[2..]);
      WordsStep(a + b, a[2..] + b);
      assert ([Word(a[0], a[1])] + Words(a[2..])) + Words(b) == [Word(a[0], a[1])] + (Words(a[2..]) + Words(b));
    }
  }

  datatype AudioFrame = AudioFrame(timestamp: int, duration: nat, sampleRate: nat, channels: nat, samples: seq<I16>)

  datatype DecodeError = InvalidSample | Misaligned

  function Decode(f: PcmFormat, s: EncodedSample): (r: Result<AudioFrame, DecodeError>)
    requires IsPcm(f)
  {
    if !IsValid(s) then Err(InvalidSample)
    else if |s.data| % f.BlockAlign() != 0 || |s.data| % 2 != 0 then Err(Misaligned)
    else Ok(AudioFrame(s.presentationTimestamp, s.duration, f.sampleRate, f.channels, Words(s.data)))
  }

  method DecodeSample(f: PcmFormat, sample: EncodedSample) returns (r: Result<AudioFrame, DecodeError>)
    requires IsPcm(f)
    ensures r == Decode(f, sample)
  {
    if !IsValid(sample) {
      return Err(InvalidSample);
    }
    if |sample.data| % f.BlockAlign() != 0 || |sample.data| % 2 != 0 {
      return Err(Misaligned);
    }
    var words := ReadWords(sample.data);
    r := Ok(AudioFrame(sample.presentationTimestamp, sample.duration, f.sampleRate, f.channels, words));
  }

  method ReadWords(data: seq<Byte>) returns (words: seq<I16>)
    ensures words == Words(data)
  {
    words := [];
    assert data[0..] == data;
    for i := 0 to |data| / 2
      invariant words + Words(data[2 * i..]) == Words(data)
    {
      assert data[2 * i..][2..] == data[2 * i + 2..];
      words := words + [Word(data[2 * i], data[2 * i + 1])];
    }
  }

  function DecodeAll(f: PcmFormat, samples: seq<EncodedSample>): (r: Result<seq<AudioFrame>, DecodeError>)
    requires IsPcm(f)
  {
    if samples == [] then Ok([])
    else
      var first :- Decode(f, samples[0]);
      var rest :- DecodeAll(f, samples[1..]);
      Ok([first] + rest)
  }

  function Played(frames: seq<AudioFrame>): (w: seq<I16>) {
    if frames == [] then [] else frames[0].samples + Played(frames[1..])
  }

  predicate Ordered(frames: seq<AudioFrame>) {
    forall i, j :: 0 <= i < j < |frames| ==> frames[i].timestamp < frames[j].timestamp
  }

  /** Decoding keeps every sample's words and timestamp. */
  ghost predicate Decodes(samples: seq<EncodedSample>, r: Result<seq<AudioFrame>, DecodeError>) {
    && r.Ok? && |r.value| == |samples|
    && Played(r.value) == Words(DataOf(samples))
    && forall k :: 0 <= k < |samples| ==> r.value[k].timestamp == samples[k].presentationTimestamp
  }

  predicate Decodable(f: PcmFormat, s: EncodedSample)
    requires IsPcm(f)
  {
    IsValid(s) && |s.data| % f.BlockAlign() == 0
  }

  lemma BlocksAreEven(f: PcmFormat, n: nat)
    requires IsPcm(f) && n % f.BlockAlign() == 0
    ensures n % 2 == 0
  {
    var k := n / f.BlockAlign();
    assert n == k * f.BlockAlign() && f.BlockAlign() == 2 * f.channels;
    assert n == 2 * (k * f.channels);
  }

  lemma OneDecodes(f: PcmFormat, s: EncodedSample)
    requires IsPcm(f) && Decodable(f, s)
    ensures Decode(f, s).Ok? && Decode(f, s).value.samples == Words(s.data)
    ensures Decode(f, s).value.timestamp == s.presentationTimestamp && |s.data| % 2 == 0
  {
    BlocksAreEven(f, |s.data|);
  }

  lemma DecodeStep(s: EncodedSample, frame: AudioFrame, samples: seq<EncodedSample>, frames: seq<AudioFrame>)
    requires frame.samples == Words(s.data) && frame.timestamp == s.presentationTimestamp && |s.data| % 2 == 0
    requires Decodes(samples, Ok(frames))
    ensures Decodes([s] + samples, Ok([frame] + frames))
  {
    assert ([s] + samples)[1..] == samples && ([frame] + frames)[1..] == frames;
    WordsAppend(s.data, DataOf(samples));
  }

  lemma {:induction false} DecodingKeepsEverything(f: PcmFormat, samples: seq<EncodedSample>)
    requires IsPcm(f) && forall s <- samples :: Decodable(f, s)
    ensures Decodes(samples, DecodeAll(f, samples))
  {
    if samples != [] {
      DecodingKeepsEverything(f, samples[1..]);
      OneDecodes(f, samples[0]);
      var frame, frames := Decode(f, samples[0]).value, DecodeAll(f, samples[1..]).value;
      DecodeStep(samples[0], frame, samples[1..], frames);
      assert samples == [samples[0]] + samples[1..];
    }
  }

  lemma {:induction false} SamplesAreAligned(f: PcmFormat, data: seq<Byte>, frameOffset: nat)
    requires IsPcm(f) && |data| % f.BlockAlign() == 0
    ensures forall s <- Samples(f, data, frameOffset) :: |s.data| % f.BlockAlign() == 0
    decreases |data|
  {
    if |data| > SampleBytes(f) {
      Aligned(f, |data|);
      SamplesAreAligned(f, data[SampleBytes(f)..], frameOffset + FRAMES_PER_SAMPLE);
    }
  }

  lemma {:induction false} TimedIsOrdered(f: PcmFormat, samples: seq<EncodedSample>, frameOffset: nat, i: nat, j: nat)
    requires IsPcm(f) && Timed(f, samples, frameOffset) && i < j < |samples|
    ensures samples[i].presentationTimestamp < samples[j].presentationTimestamp
    decreases j
  {
    assert Follows(samples[j - 1], samples[j]) && IsValid(samples[j - 1]);
    if i < j - 1 {
      TimedIsOrdered(f, samples, frameOffset, i, j - 1);
    }
  }

  /** What playing a file comes to: every sample is accepted, in order, and nothing is lost or invented. */
  ghost predicate Plays(f: PcmFormat, data: seq<Byte>, words: seq<I16>)
    requires IsPcm(f)
  {
    var frames := DecodeAll(f, Samples(f, data, 0));
    frames.Ok? && Ordered(frames.value) && Played(frames.value) == words
  }

  lemma DataPlays(f: PcmFormat, data: seq<Byte>)
    requires IsPcm(f) && |data| % f.BlockAlign() == 0 && |data| <= MAX_FRAMES
    ensures Plays(f, data, Words(data))
  {
    var samples := Samples(f, data, 0);
    SamplesAreTimed(f, data, 0);
    SamplesAreAligned(f, data, 0);
    SamplesConserveData(f, data, 0);
    DecodingKeepsEverything(f, samples);
    var frames := DecodeAll(f, samples).value;
    forall i, j | 0 <= i < j < |frames| ensures frames[i].timestamp < frames[j].timestamp {
      TimedIsOrdered(f, samples, 0, i, j);
    }
  }

  /**
   * End to end: 16-bit words written to a file, cut anywhere, demuxed and decoded come back as the
   * same words, in frames of strictly increasing timestamps.
   */
  lemma AudioSurvives(f: PcmFormat, byteRate: nat, words: seq<I16>, pieces: seq<seq<Byte>>)
    requires IsPcm(f) && words != [] && |words| % f.channels == 0
    requires pieces != [] && Joined(pieces) == PcmFile(f, byteRate, WordBytes(words)) && |Joined(pieces)| <= MAX_WAVE_BYTES
    ensures PushAll(FRESH, pieces).1 == Ok(Some((f, WordBytes(words))))
    ensures Plays(f, WordBytes(words), words)
  {
    var data := WordBytes(words);
    WholeFrames(f, |words|);
    CutFileIsDemuxed(f, byteRate, data, pieces);
    PcmFileHolds(f, byteRate, data);
    DataPlays(f, data);
    WordsRoundTrip(words);
  }

  lemma WholeFrames(f: PcmFormat, n: nat)
    requires IsPcm(f) && n % f.channels == 0
    ensures 2 * n % f.BlockAlign() == 0
  {
    var k := n / f.channels;
    assert n == k * f.channels && f.BlockAlign() == 2 * f.channels;
    assert 2 * n == k * f.BlockAlign();
    ExactMultiple(k, f.BlockAlign());
  }

  /** The demuxer only ever hands on data that plays: whatever the bytes, what it accepts is decoded without failure. */
  lemma AcceptedDataPlays(d: Demuxer, bytes: seq<Byte>, f: PcmFormat, data: seq<Byte>)
    requires Push(d, bytes, true).1 == Ok(Some((f, data)))
    ensures IsPcm(f) && data != [] && Plays(f, data, Words(data))
  {
    ChunksAreSound(d.buffered + bytes, 12, 0, NOTHING);
    DataPlays(f, data);
  }

  ghost predicate FoundIsSound(found: Found, size: nat) {
    && (found.format.Some? ==> IsPcm(found.format.value))
    && (found.data.Some? ==> |found.data.value| <= size)
  }

  lemma {:induction false} ChunksAreSound(bytes: seq<Byte>, offset: nat, taken: nat, found: Found)
    requires FoundIsSound(found, |bytes|)
    ensures Chunks(bytes, offset, taken, found).Ok? ==> FoundIsSound(Chunks(bytes, offset, taken, found).value, |bytes|)
    decreases |bytes| - offset
  {
    if offset + 8 <= |bytes| && taken + 1 <= MAX_CHUNKS {
      var length := FromLe(bytes[offset + 4..offset + 8]);
      var end := offset + 8 + length;
      if end <= |bytes| {
        var next := TakeChunk(bytes[offset..offset + 4], bytes[offset + 8..end], found);
        if next.Ok? {
          ChunksAreSound(bytes, end + length % 2, taken + 1, next.value);
        }
      }
    }
  }
}
