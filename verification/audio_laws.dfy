/** Samples, frames and the frame queue, told by their numbers. */
module AudioLaws {
  import opened Bytes
  import opened Division
  import opened FrameQueue
  import opened MachineInts
  import opened Pcm
  import opened Wave
  import opened Wrappers

  // ---- Formats and samples ------------------------------------------------------------------

  /** 16-bit PCM of one to eight channels at 8 to 384 kHz. */
  lemma FormatsTaken(f: PcmFormat)
    ensures IsPcm(f) <==> f.bitsPerSample == 16 && 0 < f.channels < 9 && 7_999 < f.sampleRate < 384_001
    ensures f.bitsPerSample == 16 ==> f.BlockAlign() == 2 * f.channels
  {
  }

  /** Samples are key frames of track 1, presented when decoded; every one but the last holds exactly 1024 frames. */
  lemma {:induction false} SamplesAreAlike(f: PcmFormat, data: seq<Byte>, frameOffset: nat, i: nat)
    requires IsPcm(f) && i < |Samples(f, data, frameOffset)|
    ensures var samples := Samples(f, data, frameOffset);
            var s := samples[i];
            && s.trackId == 1 && s.keyframe && s.presentationTimestamp == s.decodeTimestamp
            && (i < |samples| - 1 ==> |s.data| == 2_048 * f.channels)
            && 0 < |s.data| <= 2_048 * f.channels
    decreases |data|
  {
    if |data| > SampleBytes(f) && i > 0 {
      SamplesAreAlike(f, data[SampleBytes(f)..], frameOffset + FRAMES_PER_SAMPLE, i - 1);
    }
  }

  // ---- WAVE files ---------------------------------------------------------------------------

  /** Little-endian numbers of two and four bytes. */
  function Half(bytes: seq<Byte>, at: nat): (v: nat)
    requires at + 2 <= |bytes|
  {
    bytes[at] as int + 0x100 * (bytes[at + 1] as int)
  }

  function Whole(bytes: seq<Byte>, at: nat): (v: nat)
    requires at + 4 <= |bytes|
  {
    Half(bytes, at) + 0x1_0000 * Half(bytes, at + 2)
  }

  lemma HalfIs(bytes: seq<Byte>, at: nat)
    requires at + 2 <= |bytes|
    ensures FromLe(bytes[at..at + 2]) == Half(bytes, at)
  {
    var s := bytes[at..at + 2];
    assert s[1..][1..] == [] && FromLe(s[1..]) == s[1] as int;
  }

  lemma WholeIs(bytes: seq<Byte>, at: nat)
    requires at + 4 <= |bytes|
    ensures FromLe(bytes[at..at + 4]) == Whole(bytes, at)
  {
    var s := bytes[at..at + 4];
    assert s[1..][1..] == bytes[at + 2..at + 4];
    HalfIs(bytes, at + 2);
    assert FromLe(s) == s[0] + 256 * FromLe(s[1..]);
    assert FromLe(s[1..]) == s[1] + 256 * FromLe(s[1..][1..]);
  }

  /** A format chunk is taken if it says PCM, 16 bits, a channel count and rate in range, and frames of two bytes a channel. */
  lemma FormatIsRead(chunk: seq<Byte>)
    ensures ParseFormat(chunk).Ok?
            <==> && |chunk| >= 16 && Half(chunk, 0) == 1 && 0 < Half(chunk, 2) < 9 && 7_999 < Whole(chunk, 4) < 384_001
                 && Half(chunk, 12) == 2 * Half(chunk, 2) && Half(chunk, 14) == 16
    ensures ParseFormat(chunk).Ok? ==> ParseFormat(chunk).value == PcmFormat(Whole(chunk, 4), Half(chunk, 2), 16)
  {
    if |chunk| >= 16 {
      HalfIs(chunk, 0);
      HalfIs(chunk, 2);
      WholeIs(chunk, 4);
      HalfIs(chunk, 12);
      HalfIs(chunk, 14);
    }
  }

  function Ascii(s: string): (bytes: seq<Byte>) {
    seq(|s|, i requires 0 <= i < |s| => s[i] as int % 128)
  }

  /** A `fmt ` chunk is the format and a `data` chunk the data from then on; every other chunk is passed over. */
  lemma ChunksCount(id: seq<Byte>, chunk: seq<Byte>, found: Found)
    ensures TakeChunk(id, chunk, found)
            == if id == Ascii("fmt ") then
                 (if ParseFormat(chunk).Ok? then Ok(Found(Some(ParseFormat(chunk).value), found.data))
                  else Err(ParseFormat(chunk).error))
               else if id == Ascii("data") then Ok(Found(found.format, Some(chunk)))
               else Ok(found)
  {
    NamesAreBytes();
  }

  lemma NamesAreBytes()
    ensures Ascii("fmt ") == FMT && Ascii("data") == DATA && Ascii("RIFF") == RIFF && Ascii("WAVE") == WAVE
    ensures FMT[0] != DATA[0]
  {
  }

  /**
   * A file must start with `RIFF`, its length and `WAVE`, and hold as many bytes as it says; what its chunks then give
   * must be a format and a data chunk of one or more whole frames.
   */
  lemma FileIsRead(bytes: seq<Byte>)
    ensures ParseWave(bytes).Ok?
            <==> && |bytes| >= 12 && bytes[..4] == Ascii("RIFF") && bytes[8..12] == Ascii("WAVE")
                 && Whole(bytes, 4) + 8 <= |bytes|
                 && var found := Chunks(bytes, 12, 0, Found(None, None));
                    && found.Ok? && found.value.format.Some? && found.value.data.Some?
                    && found.value.format.value.BlockAlign() > 0 && found.value.data.value != []
                    && |found.value.data.value| % found.value.format.value.BlockAlign() == 0
    ensures ParseWave(bytes).Ok? ==>
              var found := Chunks(bytes, 12, 0, Found(None, None)).value;
              ParseWave(bytes).value == (found.format.value, found.data.value)
  {
    NamesAreBytes();
    if |bytes| >= 12 {
      WholeIs(bytes, 4);
    }
  }

  // ---- Decoding -----------------------------------------------------------------------------

  /** Two bytes are the number that differs from their unsigned value by nothing or by 65536. */
  lemma WordIsSigned(low: Byte, high: Byte)
    ensures var (word, plain) := (Word(low, high) as int, low + 256 * high);
            word == if high < 128 then plain else plain - 65_536
  {
  }

  lemma {:induction false} WordAt(data: seq<Byte>, i: nat)
    requires 2 * i + 1 < |data|
    ensures |Words(data)| == |data| / 2 && Words(data)[i] == Word(data[2 * i], data[2 * i + 1])
  {
    if i > 0 {
      WordAt(data[2..], i - 1);
    } else if |data| > 3 {
      WordAt(data[2..], 0);
    }
  }

  const WEEK_US := 604_800_000_000

  /**
   * A sample is decoded if and only if it has a track, whole frames of data, a duration of at most ten minutes, and
   * times within a week; the frame has its time, its duration, the format's rate and channels, and word `i` from bytes
   * `2 * i` and `2 * i + 1`.
   */
  lemma DecodingTakes(f: PcmFormat, s: EncodedSample)
    requires IsPcm(f)
    ensures var ok := s.trackId > 0 && |s.data| > 0 && |s.data| % (2 * f.channels) == 0
                      && 0 < s.duration < 600_000_001
                      && -WEEK_US <= s.decodeTimestamp && s.decodeTimestamp <= WEEK_US
                      && -WEEK_US <= s.presentationTimestamp && s.presentationTimestamp <= WEEK_US;
            && (Decode(f, s).Ok? <==> ok)
            && (ok ==> var frame := Decode(f, s).value;
                       && frame.timestamp == s.presentationTimestamp && frame.duration == s.duration
                       && frame.sampleRate == f.sampleRate && frame.channels == f.channels
                       && |frame.samples| == |s.data| / 2
                       && forall i :: 0 <= i < |frame.samples| ==>
                            frame.samples[i] == Word(s.data[2 * i], s.data[2 * i + 1]))
  {
    if |s.data| % (2 * f.channels) == 0 {
      EvenMultiple(|s.data|, f.channels);
    }
    if |s.data| >= 2 {
      WordAt(s.data, 0);
    }
    forall i | 0 <= i < |s.data| / 2 ensures Words(s.data)[i] == Word(s.data[2 * i], s.data[2 * i + 1]) {
      WordAt(s.data, i);
    }
  }

  lemma EvenMultiple(n: nat, c: nat)
    requires 0 < c <= 8
    requires n % (2 * c) == 0
    ensures n % 2 == 0
  {
    var q := n / (2 * c);
    DivBounds(n, 2 * c);
    assert n == q * (2 * c);
    Twice(q, c);
  }

  lemma Twice(q: nat, c: nat)
    ensures q * (2 * c) == 2 * (q * c)
  {
  }

  // ---- The queue ----------------------------------------------------------------------------

  /** The bytes of frames, from the first on. */
  function Sum(frames: seq<DecodedFrame>): (n: nat) {
    if frames == [] then 0
    else
      var first := if frames[0].Audio? then 2 * |frames[0].frame.samples| else frames[0].pixelBytes;
      (if frames[0].Audio? && first > USIZE_MAX then USIZE_MAX else first) + Sum(frames[1..])
  }

  lemma {:induction false} TotalIsSum(frames: seq<DecodedFrame>)
    ensures TotalBytes(frames) == Sum(frames)
  {
    if frames != [] {
      TotalSplits(frames);
      TotalIsSum(frames[1..]);
    }
  }

  /** A frame is taken if and only if there is room for one more, room for its bytes, and it is not older than the last. */
  lemma PushTakesWhatFits(q: Queue, frame: DecodedFrame)
    ensures var bytes := Sum(q.frames) + Sum([frame]);
            var fits := |q.frames| < q.maxFrames && bytes <= q.maxBytes && bytes <= USIZE_MAX
                        && (q.frames == [] || q.frames[|q.frames| - 1].Timestamp() <= frame.Timestamp());
            && (Refusal(q, frame).None? <==> fits)
            && Pushed(q, frame) == (if fits then q.(frames := q.frames + [frame]) else q)
            && (Refusal(q, frame) == Some(CountBudget) <==> |q.frames| >= q.maxFrames)
            && (Refusal(q, frame) == Some(NonMonotonic) ==> bytes <= q.maxBytes)
            && (Refusal(q, frame) == Some(ByteBudget) ==> bytes > q.maxBytes)
            && (Refusal(q, frame) == Some(ByteOverflow) ==> bytes > USIZE_MAX)
  {
    TotalIsSum(q.frames);
    assert [frame][1..] == [];
  }

  datatype Call = PushCall(frame: DecodedFrame) | PopCall | ClearCall

  /** The queue after some calls, what was handed out, and what was taken in and not cleared. */
  datatype Flow = Flow(queue: Queue, out: seq<DecodedFrame>, kept: seq<DecodedFrame>)

  function Next(f: Flow, call: Call): (g: Flow) {
    match call
    case PushCall(frame) =>
      Flow(Pushed(f.queue, frame), f.out, if Refusal(f.queue, frame).None? then f.kept + [frame] else f.kept)
    case PopCall =>
      Flow(Popped(f.queue), if f.queue.frames == [] then f.out else f.out + [f.queue.frames[0]], f.kept)
    case ClearCall => Flow(f.queue.(frames := []), f.out, f.out)
  }

  function After(f: Flow, calls: seq<Call>): (g: Flow) {
    if calls == [] then f else Next(After(f, calls[..|calls| - 1]), calls[|calls| - 1])
  }

  ghost predicate InOrder(f: Flow) {
    f.out + f.queue.frames == f.kept && Sound(f.queue)
  }

  lemma NextKeepsOrder(f: Flow, call: Call)
    requires InOrder(f)
    ensures InOrder(Next(f, call))
  {
    match call
    case PushCall(frame) =>
      PushKeepsSound(f.queue, frame);
      assert f.out + (f.queue.frames + [frame]) == (f.out + f.queue.frames) + [frame];
    case PopCall =>
      PopKeepsSound(f.queue);
      if f.queue.frames != [] {
        assert (f.out + [f.queue.frames[0]]) + f.queue.frames[1..] == f.out + f.queue.frames;
      }
    case ClearCall => assert f.out + [] == f.out;
  }

  /**
   * Over every run of pushes, pops and clears the frames come out in the order they went in, each once: what was
   * handed out and what is still queued are the frames taken and not cleared. The queue never exceeds its budgets.
   */
  lemma {:induction false} FirstInFirstOut(maxFrames: nat, maxBytes: nat, calls: seq<Call>)
    ensures InOrder(After(Flow(Queue(maxFrames, maxBytes, []), [], []), calls))
  {
    if calls != [] {
      FirstInFirstOut(maxFrames, maxBytes, calls[..|calls| - 1]);
      NextKeepsOrder(After(Flow(Queue(maxFrames, maxBytes, []), [], []), calls[..|calls| - 1]), calls[|calls| - 1]);
    }
  }
}
