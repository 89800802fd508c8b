/** RIFF/WAVE: the chunk parser, its printer, and the demuxer that buffers a stream cut anywhere. */
module Wave {
  import opened Bytes
  import opened MachineInts
  import opened Wrappers

  const MAX_WAVE_BYTES := 128 * 1024 * 1024
  const MAX_CHUNKS := 1_024

  const RIFF: seq<Byte> := [0x52, 0x49, 0x46, 0x46]
  const WAVE: seq<Byte> := [0x57, 0x41, 0x56, 0x45]
  const FMT: seq<Byte> := [0x66, 0x6d, 0x74, 0x20]
  const DATA: seq<Byte> := [0x64, 0x61, 0x74, 0x61]

  datatype Error =
    | BadHeader | TruncatedResource | ChunkBudget | TruncatedChunk | NotPcm | BadSampleRate | Not16Bit | BadAlignment
    | FormatMissing | DataMissing | DataMisaligned | BufferBudget | AlreadyEnded

  datatype PcmFormat = PcmFormat(sampleRate: nat, channels: nat, bitsPerSample: nat) {
    function BlockAlign(): (n: nat) {
      channels * (bitsPerSample / 8)
    }
  }

  function Validate(f: PcmFormat): (r: Result<PcmFormat, Error>) {
    if !(8_000 <= f.sampleRate <= 384_000) then Err(BadSampleRate)
    else if !(1 <= f.channels <= 8) || f.bitsPerSample != 16 then Err(Not16Bit)
    else Ok(f)
  }

  predicate IsPcm(f: PcmFormat) {
    Validate(f).Ok?
  }

  // ---- Parsing ------------------------------------------------------------------------------

  /** What the chunks read so far provide; a later chunk replaces an earlier one. */
  datatype Found = Found(format: Option<PcmFormat>, data: Option<seq<Byte>>)

  const NOTHING := Found(None, None)

  function ParseFormat(chunk: seq<Byte>): (r: Result<PcmFormat, Error>) {
    if |chunk| < 16 || FromLe(chunk[0..2]) != 1 then Err(NotPcm)
    else
      var parsed :- Validate(PcmFormat(FromLe(chunk[4..8]), FromLe(chunk[2..4]), FromLe(chunk[14..16])));
      if FromLe(chunk[12..14]) != parsed.BlockAlign() then Err(BadAlignment) else Ok(parsed)
  }

  function TakeChunk(id: seq<Byte>, chunk: seq<Byte>, found: Found): (r: Result<Found, Error>) {
    if id == FMT then
      var format :- ParseFormat(chunk);
      Ok(found.(format := Some(format)))
    else if id == DATA then Ok(found.(data := Some(chunk)))
    else Ok(found)
  }

  /** The chunks from `offset` on, `taken` of them being counted already; odd ones are padded to even length. */
  function Chunks(bytes: seq<Byte>, offset: nat, taken: nat, found: Found): (r: Result<Found, Error>)
    decreases |bytes| - offset
  {
    if offset + 8 > |bytes| then Ok(found)
    else if taken + 1 > MAX_CHUNKS then Err(ChunkBudget)
    else
      var length := FromLe(bytes[offset + 4..offset + 8]);
      var end := offset + 8 + length;
      if end > |bytes| then Err(TruncatedChunk)
      else
        var next :- TakeChunk(bytes[offset..offset + 4], bytes[offset + 8..end], found);
        Chunks(bytes, end + length % 2, taken + 1, next)
  }

  function Finish(found: Found): (r: Result<(PcmFormat, seq<Byte>), Error>) {
    if found.format.None? then Err(FormatMissing)
    else if found.data.None? then Err(DataMissing)
    else
      var format, data := found.format.value, found.data.value;
      if data == [] || format.BlockAlign() == 0 || |data| % format.BlockAlign() != 0 then Err(DataMisaligned)
      else Ok((format, data))
  }

  function ParseWave(bytes: seq<Byte>): (r: Result<(PcmFormat, seq<Byte>), Error>) {
    if |bytes| < 12 || bytes[..4] != RIFF || bytes[8..12] != WAVE then Err(BadHeader)
    else if FromLe(bytes[4..8]) + 8 > |bytes| then Err(TruncatedResource)
    else
      var found :- Chunks(bytes, 12, 0, NOTHING);
      Finish(found)
  }

  /** `r` is what the chunks from `offset` on come to, after those already taken. */
  predicate Leads(bytes: seq<Byte>, offset: nat, taken: nat, found: Found, r: Result<Found, Error>) {
    r == Chunks(bytes, offset, taken, found)
  }

  lemma LeadsOn(bytes: seq<Byte>, offset: nat, taken: nat, found: Found, r: Result<Found, Error>)
    requires offset + 8 <= |bytes| && Leads(bytes, offset, taken, found, r)
    ensures taken + 1 > MAX_CHUNKS ==> r == Err(ChunkBudget)
    ensures var length := FromLe(bytes[offset + 4..offset + 8]);
            var end := offset + 8 + length;
            taken + 1 <= MAX_CHUNKS ==>
              if end > |bytes| then r == Err(TruncatedChunk)
              else
                var next := TakeChunk(bytes[offset..offset + 4], bytes[offset + 8..end], found);
                if next.Err? then r == Err(next.error)
                else Leads(bytes, end + length % 2, taken + 1, next.value, r)
  {
  }

  method ParseWavePcm(bytes: seq<Byte>) returns (r: Result<(PcmFormat, seq<Byte>), Error>)
    ensures r == ParseWave(bytes)
  {
    if |bytes| < 12 || bytes[..4] != RIFF || bytes[8..12] != WAVE {
      return Err(BadHeader);
    }
    var declared := FromLe(bytes[4..8]);
    if declared + 8 > |bytes| {
      return Err(TruncatedResource);
    }
    var offset: nat := 12;
    var found := NOTHING;
    var chunks: nat := 0;
    while offset + 8 <= |bytes|
      invariant Leads(bytes, offset, chunks, found, Chunks(bytes, 12, 0, NOTHING))
      decreases |bytes| - offset
    {
      LeadsOn(bytes, offset, chunks, found, Chunks(bytes, 12, 0, NOTHING));
      chunks := chunks + 1;
      if chunks > MAX_CHUNKS {
        return Err(ChunkBudget);
      }
      var id := bytes[offset..offset + 4];
      var length := FromLe(bytes[offset + 4..offset + 8]);
      var end := offset + 8 + length;
      if end > |bytes| {
        return Err(TruncatedChunk);
      }
      var chunk := bytes[offset + 8..end];
      if id == FMT {
        var format := ParseFormat(chunk);
        if format.Err? {
          return Err(format.error);
        }
        found := found.(format := Some(format.value));
      } else if id == DATA {
        found := found.(data := Some(chunk));
      }
      offset := end + length % 2;
    }
    r := Finish(found);
  }

  // ---- Printing -----------------------------------------------------------------------------

  datatype Chunk = Chunk(id: seq<Byte>, payload: seq<Byte>)

  predicate Printable(c: Chunk) {
    |c.id| == 4 && |c.payload| < U32_LIMIT
  }

  function Pad(n: nat): (s: seq<Byte>)
    ensures |s| == n % 2
  {
    if n % 2 == 1 then [0] else []
  }

  function PrintChunk(c: Chunk): (s: seq<Byte>) {
    c.id + ToLe(|c.payload|, 4) + c.payload + Pad(|c.payload|)
  }

  function PrintChunks(cs: seq<Chunk>): (s: seq<Byte>) {
    if cs == [] then [] else PrintChunk(cs[0]) + PrintChunks(cs[1..])
  }

  function PrintWave(cs: seq<Chunk>): (s: seq<Byte>) {
    RIFF + ToLe(4 + |PrintChunks(cs)|, 4) + WAVE + PrintChunks(cs)
  }

  /** What a list of chunks means: each is taken in order, up to the count budget. */
  function Meaning(cs: seq<Chunk>, taken: nat, found: Found): (r: Result<Found, Error>) {
    if cs == [] then Ok(found)
    else if taken + 1 > MAX_CHUNKS then Err(ChunkBudget)
    else
      var next :- TakeChunk(cs[0].id, cs[0].payload, found);
      Meaning(cs[1..], taken + 1, next)
  }

  lemma LeLength(n: nat)
    requires n < U32_LIMIT
    ensures FromLe(ToLe(n, 4)) == n
  {
    Widths();
    LeRoundTrip(n, 4);
  }

  /** Where the parts of a printed chunk stand. */
  lemma ChunkLayout(whole: seq<Byte>, prefix: seq<Byte>, c: Chunk, rest: seq<Byte>)
    requires Printable(c) && whole == prefix + PrintChunk(c) + rest
    ensures var at, n := |prefix|, |c.payload|;
            && at + 8 + n + n % 2 == |prefix + PrintChunk(c)| <= |whole|
            && whole[at..at + 4] == c.id && whole[at + 4..at + 8] == ToLe(n, 4)
            && whole[at + 8..at + 8 + n] == c.payload
  {
    var size, pad := ToLe(|c.payload|, 4), Pad(|c.payload|);
    ChunkRegroups(prefix, c.id, size, c.payload, pad, rest);
    Middle(prefix, c.id, size + c.payload + pad + rest, whole);
    Middle(prefix + c.id, size, c.payload + pad + rest, whole);
    Middle(prefix + c.id + size, c.payload, pad + rest, whole);
  }

  lemma ChunkRegroups(prefix: seq<Byte>, id: seq<Byte>, size: seq<Byte>, payload: seq<Byte>, pad: seq<Byte>, rest: seq<Byte>)
    ensures var whole := prefix + (id + size + payload + pad) + rest;
            && whole == prefix + id + (size + payload + pad + rest)
            && whole == (prefix + id) + size + (payload + pad + rest)
            && whole == (prefix + id + size) + payload + (pad + rest)
  {
  }

  lemma Middle(a: seq<Byte>, b: seq<Byte>, c: seq<Byte>, whole: seq<Byte>)
    requires whole == a + b + c
    ensures whole[|a|..|a| + |b|] == b
  {
  }

  ghost predicate Same(a: Result<Found, Error>, b: Result<Found, Error>) {
    a == b
  }

  lemma ChunkStep(whole: seq<Byte>, prefix: seq<Byte>, c: Chunk, rest: seq<Byte>, taken: nat, found: Found,
                  next: Result<Found, Error>, meaning: Result<Found, Error>)
    requires Printable(c) && whole == prefix + PrintChunk(c) + rest && next == TakeChunk(c.id, c.payload, found)
    requires if next.Ok? then Same(Chunks(whole, |prefix + PrintChunk(c)|, taken + 1, next.value), meaning)
             else Same(next, meaning)
    ensures Same(Chunks(whole, |prefix|, taken, found), if taken + 1 > MAX_CHUNKS then Err(ChunkBudget) else meaning)
  {
    ChunkLayout(whole, prefix, c, rest);
    LeLength(|c.payload|);
  }

  lemma {:induction false} ChunksUndoPrint(whole: seq<Byte>, prefix: seq<Byte>, cs: seq<Chunk>, taken: nat, found: Found)
    requires forall c <- cs :: Printable(c)
    requires whole == prefix + PrintChunks(cs)
    ensures Same(Chunks(whole, |prefix|, taken, found), Meaning(cs, taken, found))
    decreases |cs|
  {
    if cs != [] {
      var more := prefix + PrintChunk(cs[0]);
      assert whole == more + PrintChunks(cs[1..]);
      var next := TakeChunk(cs[0].id, cs[0].payload, found);
      if next.Ok? {
        ChunksUndoPrint(whole, more, cs[1..], taken + 1, next.value);
      }
      ChunkStep(whole, prefix, cs[0], PrintChunks(cs[1..]), taken, found, next,
                if next.Ok? then Meaning(cs[1..], taken + 1, next.value) else next);
    }
  }

  /**
   * The parser undoes the printer, for every list of chunks in any order, known or not, of even or odd
   * length: it finds the last format and the last data chunk, or the error of the first bad one.
   */
  lemma ParseUndoesPrint(cs: seq<Chunk>)
    requires (forall c <- cs :: Printable(c)) && 4 + |PrintChunks(cs)| < U32_LIMIT
    ensures ParseWave(PrintWave(cs))
            == var found := Meaning(cs, 0, NOTHING); if found.Err? then Err(found.error) else Finish(found.value)
  {
    var bytes, body := PrintWave(cs), PrintChunks(cs);
    var head := RIFF + ToLe(4 + |body|, 4) + WAVE;
    assert bytes == head + body && |head| == 12;
    assert bytes[..4] == RIFF && bytes[4..8] == ToLe(4 + |body|, 4) && bytes[8..12] == WAVE;
    LeLength(4 + |body|);
    ChunksUndoPrint(bytes, head, cs, 0, NOTHING);
  }

  /** The format chunk of a file; `byteRate` is not read back. */
  function FormatChunk(f: PcmFormat, byteRate: nat): (c: Chunk) {
    Chunk(FMT, ToLe(1, 2) + ToLe(f.channels, 2) + ToLe(f.sampleRate, 4) + ToLe(byteRate, 4) + ToLe(f.BlockAlign(), 2)
               + ToLe(f.bitsPerSample, 2))
  }

  lemma Le2(n: nat)
    requires n < 0x1_0000
    ensures FromLe(ToLe(n, 2)) == n
  {
    Widths();
    LeRoundTrip(n, 2);
  }

  lemma FormatRoundTrip(f: PcmFormat, byteRate: nat)
    requires IsPcm(f)
    ensures |FormatChunk(f, byteRate).payload| == 16 && ParseFormat(FormatChunk(f, byteRate).payload) == Ok(f)
  {
    var p := FormatChunk(f, byteRate).payload;
    assert p[0..2] == ToLe(1, 2) && p[2..4] == ToLe(f.channels, 2) && p[4..8] == ToLe(f.sampleRate, 4);
    assert p[12..14] == ToLe(f.BlockAlign(), 2) && p[14..16] == ToLe(f.bitsPerSample, 2);
    Le2(1);
    Le2(f.channels);
    Le2(f.BlockAlign());
    Le2(f.bitsPerSample);
    LeLength(f.sampleRate);
  }

  /** A file of one format chunk and one data chunk. */
  function PcmFile(f: PcmFormat, byteRate: nat, data: seq<Byte>): (s: seq<Byte>) {
    PrintWave([FormatChunk(f, byteRate), Chunk(DATA, data)])
  }

  /** Every such file is read back exactly. */
  lemma PcmFileRoundTrip(f: PcmFormat, byteRate: nat, data: seq<Byte>)
    requires IsPcm(f) && data != [] && |data| % f.BlockAlign() == 0 && |data| + 37 < U32_LIMIT
    ensures ParseWave(PcmFile(f, byteRate, data)) == Ok((f, data))
  {
    var a, b := FormatChunk(f, byteRate), Chunk(DATA, data);
    var cs := [a, b];
    FormatRoundTrip(f, byteRate);
    assert cs[1..] == [b] && [b][1..] == [];
    assert PrintChunks([b]) == PrintChunk(b) + [] && PrintChunks(cs) == PrintChunk(a) + PrintChunks([b]);
    assert forall c <- cs :: c == a || c == b;
    ParseUndoesPrint(cs);
    assert FMT[0] != DATA[0];
    assert Meaning([b], 1, Found(Some(f), None)) == Meaning([], 2, Found(Some(f), Some(data)));
  }

  // ---- The demuxer ----------------------------------------------------------------------------

  datatype Demuxer = Demuxer(buffered: seq<Byte>, format: Option<PcmFormat>, emitted: bool)

  const FRESH := Demuxer([], None, false)

  /** One push: the new state, and at the end of the stream the format and data it holds. */
  function Push(d: Demuxer, bytes: seq<Byte>, last: bool): (r: (Demuxer, Result<Option<(PcmFormat, seq<Byte>)>, Error>)) {
    if d.emitted then (d, Err(AlreadyEnded))
    else if |d.buffered| + |bytes| > MAX_WAVE_BYTES then (d, Err(BufferBudget))
    else
      var grown := d.(buffered := d.buffered + bytes);
      if !last then (grown, Ok(None))
      else
        var parsed := ParseWave(grown.buffered);
        if parsed.Err? then (grown, Err(parsed.error))
        else (grown.(format := Some(parsed.value.0), emitted := true), Ok(Some(parsed.value)))
  }

  class WavePcmDemuxer {
    var buffered: seq<Byte>
    var format: Option<PcmFormat>
    var emitted: bool

    function View(): (d: Demuxer)
      reads this
    {
      Demuxer(buffered, format, emitted)
    }

    constructor ()
      ensures View() == FRESH
    {
      buffered, format, emitted := [], None, false;
    }

    /** What `push_bytes` hands on to be cut into samples. */
    method PushBytes(bytes: seq<Byte>, endOfStream: bool) returns (r: Result<Option<(PcmFormat, seq<Byte>)>, Error>)
      modifies this
      ensures (View(), r) == Push(old(View()), bytes, endOfStream)
    {
      if emitted {
        return Err(AlreadyEnded);
      }
      var projected := |buffered| + |bytes|;
      if projected > MAX_WAVE_BYTES {
        return Err(BufferBudget);
      }
      buffered := buffered + bytes;
      if !endOfStream {
        return Ok(None);
      }
      var parsed := ParseWavePcm(buffered);
      if parsed.Err? {
        return Err(parsed.error);
      }
      format := Some(parsed.value.0);
      emitted := true;
      r := Ok(Some(parsed.value));
    }
  }

  function Joined(pieces: seq<seq<Byte>>): (s: seq<Byte>) {
    if pieces == [] then [] else pieces[0] + Joined(pieces[1..])
  }

  /** Pushing pieces in order, the last one with the end of the stream; stops at the first failure. */
  function PushAll(d: Demuxer, pieces: seq<seq<Byte>>): (r: (Demuxer, Result<Option<(PcmFormat, seq<Byte>)>, Error>))
    requires pieces != []
    decreases |pieces|
  {
    var step := Push(d, pieces[0], |pieces| == 1);
    if |pieces| == 1 || step.1.Err? then step else PushAll(step.0, pieces[1..])
  }

  /**
   * However a stream is cut, pushing the pieces comes to the same state and the same result as pushing
   * it in one piece when it fits the buffer, and otherwise fails for the budget.
   */
  lemma {:induction false} CutsDoNotMatter(d: Demuxer, pieces: seq<seq<Byte>>)
    requires pieces != [] && |d.buffered| <= MAX_WAVE_BYTES
    ensures PushAll(d, pieces).1 == Push(d, Joined(pieces), true).1
    ensures |d.buffered| + |Joined(pieces)| <= MAX_WAVE_BYTES ==> PushAll(d, pieces) == Push(d, Joined(pieces), true)
    decreases |pieces|
  {
    if |pieces| == 1 {
      assert pieces[1..] == [] && Joined(pieces) == pieces[0];
    } else {
      var step := Push(d, pieces[0], false);
      if step.1.Ok? {
        CutsDoNotMatter(step.0, pieces[1..]);
        assert d.buffered + pieces[0] + Joined(pieces[1..]) == d.buffered + (pieces[0] + Joined(pieces[1..]));
      }
    }
  }

  /** So a printed file, cut anywhere into any number of pieces, gives back its format and data. */
  lemma CutFileIsDemuxed(f: PcmFormat, byteRate: nat, data: seq<Byte>, pieces: seq<seq<Byte>>)
    requires IsPcm(f) && data != [] && |data| % f.BlockAlign() == 0
    requires pieces != [] && Joined(pieces) == PcmFile(f, byteRate, data) && |Joined(pieces)| <= MAX_WAVE_BYTES
    ensures PushAll(FRESH, pieces).1 == Ok(Some((f, data)))
    ensures PushAll(FRESH, pieces).0 == Demuxer(Joined(pieces), Some(f), true)
  {
    PcmFileHolds(f, byteRate, data);
    PcmFileRoundTrip(f, byteRate, data);
    CutsDoNotMatter(FRESH, pieces);
    assert FRESH.buffered + Joined(pieces) == Joined(pieces);
  }

  lemma PcmFileHolds(f: PcmFormat, byteRate: nat, data: seq<Byte>)
    ensures |PcmFile(f, byteRate, data)| > |data| + 37
  {
    var a, b := FormatChunk(f, byteRate), Chunk(DATA, data);
    assert [a, b][1..] == [b] && [b][1..] == [];
    assert PrintChunks([b]) == PrintChunk(b) + [] && PrintChunks([a, b]) == PrintChunk(a) + PrintChunks([b]);
  }
}
