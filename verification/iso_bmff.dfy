/** Fragmented MP4: initialization segments (ftyp, moov) and media segments (moof, mdat). */
module IsoBmff {
  import opened Bytes
  import opened IsoBoxes
  import opened MachineInts
  import opened Wrappers

  const MAX_TRACKS := 32
  const MAX_SAMPLES_PER_SEGMENT := 100_000
  const MAX_SEGMENT_BYTES := 64 * 1024 * 1024
  const MAX_TIMESCALE := 10_000_000
  const MICROS := 1_000_000
  const I128_LIMIT := 0x8000_0000_0000_0000_0000_0000_0000_0000

  const FTYP: seq<Byte> := [0x66, 0x74, 0x79, 0x70]
  const MOOV: seq<Byte> := [0x6d, 0x6f, 0x6f, 0x76]
  const TRAK: seq<Byte> := [0x74, 0x72, 0x61, 0x6b]
  const TKHD: seq<Byte> := [0x74, 0x6b, 0x68, 0x64]
  const MDIA: seq<Byte> := [0x6d, 0x64, 0x69, 0x61]
  const MDHD: seq<Byte> := [0x6d, 0x64, 0x68, 0x64]
  const HDLR: seq<Byte> := [0x68, 0x64, 0x6c, 0x72]
  const MINF: seq<Byte> := [0x6d, 0x69, 0x6e, 0x66]
  const STBL: seq<Byte> := [0x73, 0x74, 0x62, 0x6c]
  const STSD: seq<Byte> := [0x73, 0x74, 0x73, 0x64]
  const MOOF: seq<Byte> := [0x6d, 0x6f, 0x6f, 0x66]
  const MDAT: seq<Byte> := [0x6d, 0x64, 0x61, 0x74]
  const TRAF: seq<Byte> := [0x74, 0x72, 0x61, 0x66]
  const TFHD: seq<Byte> := [0x74, 0x66, 0x68, 0x64]
  const TFDT: seq<Byte> := [0x74, 0x66, 0x64, 0x74]
  const TRUN: seq<Byte> := [0x74, 0x72, 0x75, 0x6e]
  const SOUN: seq<Byte> := [0x73, 0x6f, 0x75, 0x6e]
  const VIDE: seq<Byte> := [0x76, 0x69, 0x64, 0x65]

  datatype TrackKind = Audio | Video | UnknownKind

  datatype Codec = Avc | Hevc | Vp8 | Vp9 | Av1 | Aac | Opus | UnknownCodec(fourcc: seq<Byte>)

  datatype TrackInfo = TrackInfo(trackId: nat, timescale: nat, kind: TrackKind, codec: Codec)

  datatype Defaults = Defaults(trackId: nat, duration: nat, size: nat, flags: nat)

  datatype RunSample = RunSample(duration: nat, size: nat, flags: nat, compositionOffset: int)

  datatype TrackRun = TrackRun(trackId: nat, baseDecodeTime: nat, samples: seq<RunSample>)

  datatype EncodedSample = EncodedSample(
    trackId: nat, decodeTimestampUs: int, presentationTimestampUs: int, durationUs: nat,
    keyframe: bool, data: seq<Byte>)

  // ---- Field access ---------------------------------------------------------------------

  function U32At(bytes: seq<Byte>, offset: nat): (r: Result<nat, Error>) {
    match ReadBe(bytes, offset, 4)
    case None => Err(TruncatedInteger)
    case Some(v) => Ok(v)
  }

  /** The payload of the first box of a kind. */
  function Child(boxes: seq<Box>, kind: seq<Byte>): (r: Result<seq<Byte>, Error>) {
    if boxes == [] then Err(MissingBox(kind))
    else if boxes[0].kind == kind then Ok(boxes[0].payload)
    else Child(boxes[1..], kind)
  }

  /** Bit test for a mask that is a power of two. */
  predicate Has(flags: nat, mask: nat)
    requires mask > 0
  {
    (flags / mask) % 2 == 1
  }

  // ---- Initialization segment -----------------------------------------------------------

  /** `tkhd` and `mdhd` keep their field at byte 20 in version 1 and at byte 12 otherwise. */
  function VersionedField(bytes: seq<Byte>, kind: seq<Byte>): (r: Result<nat, Error>) {
    if bytes == [] then Err(TruncatedBox(kind)) else U32At(bytes, if bytes[0] == 1 then 20 else 12)
  }

  function TimescaleOf(mdhd: seq<Byte>): (r: Result<nat, Error>) {
    var timescale :- VersionedField(mdhd, MDHD);
    if timescale == 0 || timescale > MAX_TIMESCALE then Err(InvalidTimescale) else Ok(timescale)
  }

  function KindOfHandler(handler: seq<Byte>): (k: TrackKind) {
    if handler == SOUN then Audio else if handler == VIDE then Video else UnknownKind
  }

  function HandlerOf(hdlr: seq<Byte>): (r: Result<TrackKind, Error>) {
    if |hdlr| < 12 then Err(TruncatedBox(HDLR)) else Ok(KindOfHandler(hdlr[8..12]))
  }

  function CodecOfFourcc(fourcc: seq<Byte>): (c: Codec) {
    if fourcc == [0x61, 0x76, 0x63, 0x31] || fourcc == [0x61, 0x76, 0x63, 0x33] then Avc
    else if fourcc == [0x68, 0x76, 0x63, 0x31] || fourcc == [0x68, 0x65, 0x76, 0x31] then Hevc
    else if fourcc == [0x76, 0x70, 0x30, 0x38] then Vp8
    else if fourcc == [0x76, 0x70, 0x30, 0x39] then Vp9
    else if fourcc == [0x61, 0x76, 0x30, 0x31] then Av1
    else if fourcc == [0x6d, 0x70, 0x34, 0x61] then Aac
    else if fourcc == [0x4f, 0x70, 0x75, 0x73] then Opus
    else UnknownCodec(fourcc)
  }

  function SampleEntryCodec(minf: seq<Byte>): (r: Result<Codec, Error>) {
    var inMinf :- BoxesOf(minf);
    var stbl :- Child(inMinf, STBL);
    var inStbl :- BoxesOf(stbl);
    var stsd :- Child(inStbl, STSD);
    if |stsd| < 8 || FromBe(stsd[4..8]) == 0 then Err(NoSampleEntry) else
    var entries :- BoxesOf(stsd[8..]);
    if entries == [] then Err(TruncatedBox(STSD)) else Ok(CodecOfFourcc(entries[0].kind))
  }

  function TrackOf(trak: seq<Byte>): (r: Result<TrackInfo, Error>)
    ensures r.Ok? ==> r.value.trackId != 0 && 1 <= r.value.timescale <= MAX_TIMESCALE
  {
    var children :- BoxesOf(trak);
    var tkhd :- Child(children, TKHD);
    var trackId :- VersionedField(tkhd, TKHD);
    if trackId == 0 then Err(ZeroTrackId) else
    var mdia :- Child(children, MDIA);
    var inMdia :- BoxesOf(mdia);
    var mdhd :- Child(inMdia, MDHD);
    var timescale :- TimescaleOf(mdhd);
    var hdlr :- Child(inMdia, HDLR);
    var kind :- HandlerOf(hdlr);
    var minf :- Child(inMdia, MINF);
    var codec :- SampleEntryCodec(minf);
    Ok(TrackInfo(trackId, timescale, kind, codec))
  }

  /** The tracks of the `trak` boxes, in file order; `count` of them are already read. */
  function TracksFrom(boxes: seq<Box>, count: nat): (r: Result<seq<TrackInfo>, Error>) {
    if boxes == [] then Ok([])
    else if boxes[0].kind != TRAK then TracksFrom(boxes[1..], count)
    else if count >= MAX_TRACKS then Err(TrackBudget)
    else
      var track :- TrackOf(boxes[0].payload);
      var rest :- TracksFrom(boxes[1..], count + 1);
      Ok([track] + rest)
  }

  function InsertById(track: TrackInfo, sorted: seq<TrackInfo>): (r: seq<TrackInfo>) {
    if sorted == [] || track.trackId <= sorted[0].trackId then [track] + sorted
    else [sorted[0]] + InsertById(track, sorted[1..])
  }

  /** `sort_by_key(track_id)`: stable. */
  function SortById(tracks: seq<TrackInfo>): (r: seq<TrackInfo>) {
    if tracks == [] then [] else InsertById(tracks[0], SortById(tracks[1..]))
  }

  predicate AdjacentDuplicate(tracks: seq<TrackInfo>) {
    exists i :: 0 <= i < |tracks| - 1 && tracks[i].trackId == tracks[i + 1].trackId
  }

  function ValidateSegmentSize(bytes: seq<Byte>): (r: Result<(), Error>) {
    if bytes == [] || |bytes| > MAX_SEGMENT_BYTES then Err(SegmentSizeBudget) else Ok(())
  }

  /** The `trak` boxes' tracks before they are ordered. */
  function UnorderedTracks(bytes: seq<Byte>): (r: Result<seq<TrackInfo>, Error>) {
    var _ :- ValidateSegmentSize(bytes);
    var top :- BoxesOf(bytes);
    var _ :- Child(top, FTYP);
    var moov :- Child(top, MOOV);
    var children :- BoxesOf(moov);
    TracksFrom(children, 0)
  }

  function InitSegment(bytes: seq<Byte>): (r: Result<seq<TrackInfo>, Error>) {
    var tracks :- UnorderedTracks(bytes);
    if tracks == [] then Err(NoTracks)
    else if AdjacentDuplicate(SortById(tracks)) then Err(DuplicateTrackIds)
    else Ok(SortById(tracks))
  }

  /** `r` is what the tracks read so far and the boxes from `i` on come to. */
  predicate TracksGoOn(boxes: seq<Box>, i: nat, tracks: seq<TrackInfo>, r: Result<seq<TrackInfo>, Error>)
    requires i <= |boxes|
  {
    r == Prefixed(tracks, TracksFrom(boxes[i..], |tracks|))
  }

  method CollectTracks(children: seq<Box>) returns (r: Result<seq<TrackInfo>, Error>)
    ensures r == TracksFrom(children, 0)
  {
    var tracks: seq<TrackInfo> := [];
    var i := 0;
    while i < |children|
      invariant i <= |children|
      invariant TracksGoOn(children, i, tracks, TracksFrom(children, 0))
    {
      TracksStep(children, i, tracks);
      if children[i].kind == TRAK {
        if |tracks| >= MAX_TRACKS {
          return Err(TrackBudget);
        }
        var track :- TrackOf(children[i].payload);
        tracks := tracks + [track];
      }
      i := i + 1;
    }
    return Ok(tracks);
  }

  method ParseInitSegment(bytes: seq<Byte>) returns (r: Result<seq<TrackInfo>, Error>)
    ensures r == InitSegment(bytes)
  {
    var _ :- ValidateSegmentSize(bytes);
    var parsed := ParseBoxes(bytes);
    var top :- parsed;
    var _ :- Child(top, FTYP);
    var moov :- Child(top, MOOV);
    parsed := ParseBoxes(moov);
    var children :- parsed;
    var collected := CollectTracks(children);
    var tracks :- collected;
    if tracks == [] {
      return Err(NoTracks);
    }
    tracks := SortById(tracks);
    if AdjacentDuplicate(tracks) {
      return Err(DuplicateTrackIds);
    }
    return Ok(tracks);
  }

  /** Results already collected, in front of what the rest of a loop yields. */
  function Prefixed<T>(done: seq<T>, rest: Result<seq<T>, Error>): (r: Result<seq<T>, Error>)
    ensures done == [] ==> r == rest
    ensures rest == Ok([]) ==> r == Ok(done)
  {
    if rest.Err? then rest
    else
      assert done == [] ==> done + rest.value == rest.value;
      assert done + [] == done;
      Ok(done + rest.value)
  }

  lemma PrefixedAssoc<T>(done: seq<T>, item: T, rest: Result<seq<T>, Error>)
    ensures rest.Ok? ==> Prefixed(done, Ok([item] + rest.value)) == Prefixed(done + [item], rest)
  {
    if rest.Ok? {
      assert done + ([item] + rest.value) == (done + [item]) + rest.value;
    }
  }

  lemma TracksStep(boxes: seq<Box>, i: nat, tracks: seq<TrackInfo>)
    requires i < |boxes|
    ensures var here := Prefixed(tracks, TracksFrom(boxes[i..], |tracks|));
            if boxes[i].kind != TRAK then here == Prefixed(tracks, TracksFrom(boxes[i + 1..], |tracks|))
            else if |tracks| >= MAX_TRACKS then here == Err(TrackBudget)
            else var track := TrackOf(boxes[i].payload);
                 if track.Err? then here == Err(track.error)
                 else here == Prefixed(tracks + [track.value], TracksFrom(boxes[i + 1..], |tracks| + 1))
  {
    assert boxes[i..][0] == boxes[i] && boxes[i..][1..] == boxes[i + 1..];
    var track := TrackOf(boxes[i].payload);
    if track.Ok? {
      PrefixedAssoc(tracks, track.value, TracksFrom(boxes[i + 1..], |tracks| + 1));
    }
  }

  // ---- Movie fragment -------------------------------------------------------------------

  function Skip(bytes: seq<Byte>, offset: nat, present: bool, length: nat): (r: Result<nat, Error>) {
    if !present then Ok(offset)
    else if offset + length > |bytes| then Err(TruncatedOptionalField)
    else Ok(offset + length)
  }

  /** An optional 32-bit field: its value, or a default, and the offset behind it. */
  function Optional(bytes: seq<Byte>, offset: nat, present: bool, default: nat): (r: Result<(nat, nat), Error>) {
    if !present then Ok((default, offset))
    else
      var v :- U32At(bytes, offset);
      Ok((v, offset + 4))
  }

  function TfhdOf(bytes: seq<Byte>): (r: Result<Defaults, Error>) {
    if |bytes| < 8 then Err(TruncatedBox(TFHD)) else
    var flags := FromBe(bytes[1..4]);
    var trackId := FromBe(bytes[4..8]);
    var o1 :- Skip(bytes, 8, Has(flags, 0x1), 8);
    var o2 :- Skip(bytes, o1, Has(flags, 0x2), 4);
    var duration :- Optional(bytes, o2, Has(flags, 0x8), 0);
    var size :- Optional(bytes, duration.1, Has(flags, 0x10), 0);
    var sampleFlags :- Optional(bytes, size.1, Has(flags, 0x20), 0);
    if trackId == 0 then Err(ZeroTrackId)
    else Ok(Defaults(trackId, duration.0, size.0, sampleFlags.0))
  }

  function TfdtOf(bytes: seq<Byte>): (r: Result<nat, Error>) {
    if bytes == [] then Err(TruncatedBox(TFDT))
    else match ReadBe(bytes, 4, if bytes[0] == 1 then 8 else 4)
      case None => Err(TruncatedInteger)
      case Some(v) => Ok(v)
  }

  datatype TrunHeader = TrunHeader(version: Byte, flags: nat, count: nat, firstFlags: Option<nat>, table: nat)

  function TrunHeaderOf(bytes: seq<Byte>): (r: Result<TrunHeader, Error>) {
    if |bytes| < 8 then Err(TruncatedBox(TRUN)) else
    var flags := FromBe(bytes[1..4]);
    var count := FromBe(bytes[4..8]);
    if count == 0 || count > MAX_SAMPLES_PER_SEGMENT then Err(SampleCountBudget) else
    var offset :- Skip(bytes, 8, Has(flags, 0x1), 4);
    if Has(flags, 0x4) then
      var first :- U32At(bytes, offset);
      Ok(TrunHeader(bytes[0], flags, count, Some(first), offset + 4))
    else Ok(TrunHeader(bytes[0], flags, count, None, offset))
  }

  function AsI32(raw: nat): (v: int) {
    if raw >= 0x8000_0000 then raw - U32_LIMIT else raw
  }

  /** The sample flags an entry without its own flags inherits. */
  function InheritedFlags(h: TrunHeader, defaults: Defaults, index: nat): (flags: nat) {
    if index == 0 && h.firstFlags.Some? then h.firstFlags.value else defaults.flags
  }

  /** One row of the sample table and the offset behind it. */
  function EntryAt(bytes: seq<Byte>, offset: nat, h: TrunHeader, defaults: Defaults, index: nat)
    : (r: Result<(RunSample, nat), Error>)
    ensures r.Ok? ==> offset <= r.value.1
  {
    var duration :- Optional(bytes, offset, Has(h.flags, 0x100), defaults.duration);
    var size :- Optional(bytes, duration.1, Has(h.flags, 0x200), defaults.size);
    var flags :- Optional(bytes, size.1, Has(h.flags, 0x400), InheritedFlags(h, defaults, index));
    var raw :- Optional(bytes, flags.1, Has(h.flags, 0x800), 0);
    Ok((RunSample(duration.0, size.0, flags.0, if h.version == 1 then AsI32(raw.0) else raw.0), raw.1))
  }

  function EntriesFrom(bytes: seq<Byte>, offset: nat, h: TrunHeader, defaults: Defaults, index: nat)
    : (r: Result<seq<RunSample>, Error>)
    requires index <= h.count
    ensures r.Ok? ==> |r.value| == h.count - index
    decreases h.count - index
  {
    if index == h.count then if offset > |bytes| then Err(TruncatedBox(TRUN)) else Ok([])
    else
      var entry :- EntryAt(bytes, offset, h, defaults, index);
      var rest :- EntriesFrom(bytes, entry.1, h, defaults, index + 1);
      Ok([entry.0] + rest)
  }

  function TrunOf(bytes: seq<Byte>, defaults: Defaults): (r: Result<seq<RunSample>, Error>) {
    var h :- TrunHeaderOf(bytes);
    EntriesFrom(bytes, h.table, h, defaults, 0)
  }

  method ParseTrun(bytes: seq<Byte>, defaults: Defaults) returns (r: Result<seq<RunSample>, Error>)
    ensures r == TrunOf(bytes, defaults)
  {
    var h :- TrunHeaderOf(bytes);
    var offset: nat := h.table;
    var samples: seq<RunSample> := [];
    for index := 0 to h.count
      invariant |samples| == index
      invariant Prefixed(samples, EntriesFrom(bytes, offset, h, defaults, index)) == TrunOf(bytes, defaults)
    {
      var entry :- EntryAt(bytes, offset, h, defaults, index);
      PrefixedAssoc(samples, entry.0, EntriesFrom(bytes, entry.1, h, defaults, index + 1));
      samples := samples + [entry.0];
      offset := entry.1;
    }
    if offset > |bytes| {
      return Err(TruncatedBox(TRUN));
    }
    return Ok(samples);
  }

  function Duration(samples: seq<RunSample>): (d: nat) {
    if samples == [] then 0 else Duration(samples[..|samples| - 1]) + samples[|samples| - 1].duration
  }

  /** The runs of one `traf`, each starting where the one before it ends, and the new sample total. */
  function RunsFrom(children: seq<Box>, defaults: Defaults, time: nat, cumulative: nat)
    : (r: Result<(seq<TrackRun>, nat), Error>)
  {
    if children == [] then Ok(([], cumulative))
    else if children[0].kind != TRUN then RunsFrom(children[1..], defaults, time, cumulative)
    else
      var declared :- U32At(children[0].payload, 4);
      if cumulative + declared > MAX_SAMPLES_PER_SEGMENT then Err(SampleCountBudget) else
      var samples :- TrunOf(children[0].payload, defaults);
      if time + Duration(samples) >= U64_LIMIT then Err(TimestampOverflow) else
      var rest :- RunsFrom(children[1..], defaults, time + Duration(samples), cumulative + declared);
      Ok(([TrackRun(defaults.trackId, time, samples)] + rest.0, rest.1))
  }

  function TrafOf(bytes: seq<Byte>, cumulative: nat): (r: Result<(seq<TrackRun>, nat), Error>) {
    var children :- BoxesOf(bytes);
    var tfhd :- Child(children, TFHD);
    var defaults :- TfhdOf(tfhd);
    var tfdt :- Child(children, TFDT);
    var base :- TfdtOf(tfdt);
    RunsFrom(children, defaults, base, cumulative)
  }

  /** The runs of every `traf` of a fragment, one group a `traf`. */
  function GroupsFrom(boxes: seq<Box>, cumulative: nat): (r: Result<seq<seq<TrackRun>>, Error>) {
    if boxes == [] then Ok([])
    else if boxes[0].kind != TRAF then GroupsFrom(boxes[1..], cumulative)
    else
      var traf :- TrafOf(boxes[0].payload, cumulative);
      var rest :- GroupsFrom(boxes[1..], traf.1);
      Ok([traf.0] + rest)
  }

  function Flatten<T>(groups: seq<seq<T>>): (s: seq<T>) {
    if groups == [] then [] else groups[0] + Flatten(groups[1..])
  }

  function FragmentGroups(moof: seq<Byte>): (r: Result<seq<seq<TrackRun>>, Error>) {
    var boxes :- BoxesOf(moof);
    GroupsFrom(boxes, 0)
  }

  /** Runs already collected, in front of what the rest of a `traf` yields. */
  function PrefixedRuns(done: seq<TrackRun>, rest: Result<(seq<TrackRun>, nat), Error>)
    : (r: Result<(seq<TrackRun>, nat), Error>)
    ensures done == [] ==> r == rest
    ensures rest.Ok? && rest.value.0 == [] ==> r == Ok((done, rest.value.1))
  {
    if rest.Err? then rest
    else
      assert done == [] ==> done + rest.value.0 == rest.value.0;
      assert done + [] == done;
      Ok((done + rest.value.0, rest.value.1))
  }

  lemma RunsStep(children: seq<Box>, i: nat, defaults: Defaults, time: nat, cumulative: nat, done: seq<TrackRun>,
                 samples: seq<RunSample>)
    requires i < |children| && children[i].kind == TRUN && U32At(children[i].payload, 4).Ok?
    requires TrunOf(children[i].payload, defaults) == Ok(samples)
    requires time + Duration(samples) < U64_LIMIT
    requires cumulative + U32At(children[i].payload, 4).value <= MAX_SAMPLES_PER_SEGMENT
    ensures PrefixedRuns(done, RunsFrom(children[i..], defaults, time, cumulative))
            == PrefixedRuns(done + [TrackRun(defaults.trackId, time, samples)],
                            RunsFrom(children[i + 1..], defaults, time + Duration(samples),
                                     cumulative + U32At(children[i].payload, 4).value))
  {
    assert children[i..][0] == children[i] && children[i..][1..] == children[i + 1..];
    var run := TrackRun(defaults.trackId, time, samples);
    var rest := RunsFrom(children[i + 1..], defaults, time + Duration(samples),
                         cumulative + U32At(children[i].payload, 4).value);
    if rest.Ok? {
      assert done + ([run] + rest.value.0) == (done + [run]) + rest.value.0;
    }
  }

  method RunDuration(samples: seq<RunSample>) returns (total: nat)
    ensures total == Duration(samples)
  {
    total := 0;
    assert samples[..0] == [];
    for i := 0 to |samples|
      invariant total == Duration(samples[..i])
    {
      assert samples[..i + 1][..i] == samples[..i];
      total := total + samples[i].duration;
    }
    assert samples[..|samples|] == samples;
  }

  method ParseRuns(children: seq<Box>, defaults: Defaults, base: nat, cumulative: nat)
    returns (r: Result<(seq<TrackRun>, nat), Error>)
    ensures r == RunsFrom(children, defaults, base, cumulative)
  {
    var runs: seq<TrackRun> := [];
    var nextTime: nat, samplesSoFar: nat := base, cumulative;
    var i := 0;
    while i < |children|
      invariant i <= |children|
      invariant PrefixedRuns(runs, RunsFrom(children[i..], defaults, nextTime, samplesSoFar))
                == RunsFrom(children, defaults, base, cumulative)
    {
      assert children[i..][0] == children[i] && children[i..][1..] == children[i + 1..];
      if children[i].kind == TRUN {
        var declared :- U32At(children[i].payload, 4);
        if samplesSoFar + declared > MAX_SAMPLES_PER_SEGMENT {
          return Err(SampleCountBudget);
        }
        var parsed := ParseTrun(children[i].payload, defaults);
        var samples :- parsed;
        var duration := RunDuration(samples);
        if nextTime + duration >= U64_LIMIT {
          return Err(TimestampOverflow);
        }
        RunsStep(children, i, defaults, nextTime, samplesSoFar, runs, samples);
        runs := runs + [TrackRun(defaults.trackId, nextTime, samples)];
        nextTime, samplesSoFar := nextTime + duration, samplesSoFar + declared;
      }
      i := i + 1;
    }
    return Ok((runs, samplesSoFar));
  }

  method ParseTraf(bytes: seq<Byte>, cumulative: nat) returns (r: Result<(seq<TrackRun>, nat), Error>)
    ensures r == TrafOf(bytes, cumulative)
  {
    var parsed := ParseBoxes(bytes);
    var children :- parsed;
    var tfhd :- Child(children, TFHD);
    var defaults :- TfhdOf(tfhd);
    var tfdt :- Child(children, TFDT);
    var base :- TfdtOf(tfdt);
    r := ParseRuns(children, defaults, base, cumulative);
  }

  /** Runs already collected, in front of the flattened groups of the rest of a `moof`. */
  function PrefixedGroups(done: seq<TrackRun>, rest: Result<seq<seq<TrackRun>>, Error>)
    : (r: Result<seq<TrackRun>, Error>)
    ensures rest == Ok([]) ==> r == Ok(done)
  {
    if rest.Err? then Err(rest.error)
    else
      assert done + [] == done;
      Ok(done + Flatten(rest.value))
  }

  lemma GroupsStep(boxes: seq<Box>, i: nat, cumulative: nat, done: seq<TrackRun>, traf: (seq<TrackRun>, nat))
    requires i < |boxes| && boxes[i].kind == TRAF && TrafOf(boxes[i].payload, cumulative) == Ok(traf)
    ensures PrefixedGroups(done, GroupsFrom(boxes[i..], cumulative))
            == PrefixedGroups(done + traf.0, GroupsFrom(boxes[i + 1..], traf.1))
  {
    assert boxes[i..][0] == boxes[i] && boxes[i..][1..] == boxes[i + 1..];
    var rest := GroupsFrom(boxes[i + 1..], traf.1);
    if rest.Ok? {
      var groups := [traf.0] + rest.value;
      assert groups[1..] == rest.value;
      assert done + (traf.0 + Flatten(rest.value)) == (done + traf.0) + Flatten(rest.value);
    }
  }

  method ParseMovieFragment(bytes: seq<Byte>) returns (r: Result<seq<TrackRun>, Error>)
    ensures var groups := FragmentGroups(bytes);
            r == if groups.Ok? then Ok(Flatten(groups.value)) else Err(groups.error)
  {
    var parsed := ParseBoxes(bytes);
    var boxes :- parsed;
    var runs: seq<TrackRun> := [];
    var cumulative, i := 0, 0;
    assert forall s: seq<TrackRun> :: [] + s == s;
    while i < |boxes|
      invariant i <= |boxes|
      invariant PrefixedGroups(runs, GroupsFrom(boxes[i..], cumulative))
                == PrefixedGroups([], GroupsFrom(boxes, 0))
    {
      assert boxes[i..][0] == boxes[i] && boxes[i..][1..] == boxes[i + 1..];
      if boxes[i].kind == TRAF {
        var parsedTraf := ParseTraf(boxes[i].payload, cumulative);
        var traf :- parsedTraf;
        GroupsStep(boxes, i, cumulative, runs, traf);
        runs := runs + traf.0;
        cumulative := traf.1;
      }
      i := i + 1;
    }
    return Ok(runs);
  }

  // ---- Media segment --------------------------------------------------------------------

  /** Rust's integer division truncates toward zero. */
  function TruncDiv(a: int, b: nat): (q: int)
    requires b > 0
  {
    if a >= 0 then a / b else -((-a) / b)
  }

  function ScaleTime(value: int, timescale: nat): (r: Result<int, Error>)
    requires timescale > 0
  {
    var product := value * MICROS;
    if product < -I128_LIMIT || product >= I128_LIMIT then Err(TimestampOverflow) else
    var scaled := TruncDiv(product, timescale);
    if scaled < I64_MIN || scaled > I64_MAX then Err(TimestampOverflow) else Ok(scaled)
  }

  function ScaleDuration(value: nat, timescale: nat): (r: Result<nat, Error>)
    requires timescale > 0
  {
    if value * MICROS >= U64_LIMIT then Err(TimestampOverflow)
    else if value * MICROS / timescale == 0 then Err(DurationRoundsToZero)
    else Ok(value * MICROS / timescale)
  }

  function TrackWithId(tracks: seq<TrackInfo>, trackId: nat): (r: Result<TrackInfo, Error>)
    ensures r.Ok? ==> r.value in tracks && r.value.trackId == trackId
  {
    if tracks == [] then Err(UnknownTrack)
    else if tracks[0].trackId == trackId then Ok(tracks[0])
    else TrackWithId(tracks[1..], trackId)
  }

  /** One output sample: `size` bytes of `mdat` at `offset`, decoded at `time` ticks. */
  function Sample(s: RunSample, track: TrackInfo, time: nat, mdat: seq<Byte>, offset: nat)
    : (r: Result<EncodedSample, Error>)
    requires track.timescale > 0
    ensures r.Ok? ==> s.duration > 0 && s.size > 0 && offset + s.size <= |mdat|
  {
    if s.duration == 0 || s.size == 0 then Err(EmptySample)
    else if offset + s.size > |mdat| then Err(SampleExceedsMdat)
    else
      var dts :- ScaleTime(time, track.timescale);
      var pts :- ScaleTime(time + s.compositionOffset, track.timescale);
      var duration :- ScaleDuration(s.duration, track.timescale);
      if time + s.duration >= U64_LIMIT then Err(TimestampOverflow)
      else Ok(EncodedSample(track.trackId, dts, pts, duration, !Has(s.flags, 0x1_0000),
                            mdat[offset..offset + s.size]))
  }

  function TotalSize(samples: seq<RunSample>): (n: nat) {
    if samples == [] then 0 else TotalSize(samples[..|samples| - 1]) + samples[|samples| - 1].size
  }

  /** The sample row `i` of a run produces. */
  function RowSample(run: TrackRun, track: TrackInfo, mdat: seq<Byte>, offset: nat, i: nat)
    : (r: Result<EncodedSample, Error>)
    requires track.timescale > 0 && i < |run.samples|
  {
    var done := run.samples[..i];
    Sample(run.samples[i], track, run.baseDecodeTime + Duration(done), mdat, offset + TotalSize(done))
  }

  /** The first `n` samples of a run that starts at `time` and reads `mdat` from `offset`. */
  function RunOutput(run: TrackRun, track: TrackInfo, mdat: seq<Byte>, offset: nat, n: nat)
    : (r: Result<seq<EncodedSample>, Error>)
    requires track.timescale > 0 && n <= |run.samples|
    ensures r.Ok? ==> |r.value| == n
  {
    if n == 0 then Ok([])
    else
      var before :- RunOutput(run, track, mdat, offset, n - 1);
      var sample :- RowSample(run, track, mdat, offset, n - 1);
      Ok(before + [sample])
  }

  /** The output of the first `n` runs; run `n` reads `mdat` where run `n - 1` stopped. */
  function RunsOutput(runs: seq<TrackRun>, tracks: seq<TrackInfo>, mdat: seq<Byte>, n: nat)
    : (r: Result<seq<EncodedSample>, Error>)
    requires n <= |runs|
    requires forall t <- tracks :: t.timescale > 0
  {
    if n == 0 then Ok([])
    else
      var before :- RunsOutput(runs, tracks, mdat, n - 1);
      var track :- TrackWithId(tracks, runs[n - 1].trackId);
      var here :- RunOutput(runs[n - 1], track, mdat, TotalSize(AllSamples(runs[..n - 1])), |runs[n - 1].samples|);
      Ok(before + here)
  }

  function AllSamples(runs: seq<TrackRun>): (s: seq<RunSample>) {
    if runs == [] then [] else AllSamples(runs[..|runs| - 1]) + runs[|runs| - 1].samples
  }

  /** The sample budget, the output of every run, and the check that it uses up the `mdat`. */
  function SegmentOfRuns(runs: seq<TrackRun>, tracks: seq<TrackInfo>, mdat: seq<Byte>)
    : (r: Result<seq<EncodedSample>, Error>)
    requires forall t <- tracks :: t.timescale > 0
  {
    var count := |AllSamples(runs)|;
    if count == 0 || count > MAX_SAMPLES_PER_SEGMENT then Err(SampleCountBudget) else
    var output :- RunsOutput(runs, tracks, mdat, |runs|);
    if TotalSize(AllSamples(runs)) != |mdat| then Err(UnreferencedPayload) else Ok(output)
  }

  function MediaSegment(bytes: seq<Byte>, tracks: seq<TrackInfo>): (r: Result<seq<EncodedSample>, Error>) {
    var _ :- ValidateSegmentSize(bytes);
    if tracks == [] || |tracks| > MAX_TRACKS then Err(NoTrackConfiguration) else
    var top :- BoxesOf(bytes);
    var moof :- Child(top, MOOF);
    var mdat :- Child(top, MDAT);
    if exists t <- tracks :: t.timescale == 0 then Err(InvalidTimescale) else
    var groups :- FragmentGroups(moof);
    SegmentOfRuns(Flatten(groups), tracks, mdat)
  }

  lemma {:induction false} RunErrorSticks(run: TrackRun, track: TrackInfo, mdat: seq<Byte>, offset: nat, i: nat, n: nat)
    requires track.timescale > 0 && i <= n <= |run.samples|
    requires RunOutput(run, track, mdat, offset, i).Err?
    ensures RunOutput(run, track, mdat, offset, n) == RunOutput(run, track, mdat, offset, i)
  {
    if i < n {
      RunErrorSticks(run, track, mdat, offset, i, n - 1);
    }
  }

  lemma {:induction false} RunsErrorSticks(runs: seq<TrackRun>, tracks: seq<TrackInfo>, mdat: seq<Byte>, i: nat, n: nat)
    requires i <= n <= |runs|
    requires forall t <- tracks :: t.timescale > 0
    requires RunsOutput(runs, tracks, mdat, i).Err?
    ensures RunsOutput(runs, tracks, mdat, n) == RunsOutput(runs, tracks, mdat, i)
  {
    if i < n {
      RunsErrorSticks(runs, tracks, mdat, i, n - 1);
    }
  }

  lemma SamplePrefix(samples: seq<RunSample>, i: nat)
    requires i < |samples|
    ensures Duration(samples[..i + 1]) == Duration(samples[..i]) + samples[i].duration
    ensures TotalSize(samples[..i + 1]) == TotalSize(samples[..i]) + samples[i].size
  {
    assert samples[..i + 1][..i] == samples[..i];
  }

  lemma {:induction false} TotalSizeAppends(a: seq<RunSample>, b: seq<RunSample>)
    ensures TotalSize(a + b) == TotalSize(a) + TotalSize(b)
  {
    if b == [] {
      assert a + b == a;
    } else {
      TotalSizeAppends(a, b[..|b| - 1]);
      assert (a + b)[..|a + b| - 1] == a + b[..|b| - 1];
    }
  }

  /** The samples of the runs before run `i + 1` are those before run `i` and then run `i`'s. */
  lemma RunPrefix(runs: seq<TrackRun>, i: nat)
    requires i < |runs|
    ensures AllSamples(runs[..i + 1]) == AllSamples(runs[..i]) + runs[i].samples
    ensures TotalSize(AllSamples(runs[..i + 1])) == TotalSize(AllSamples(runs[..i])) + TotalSize(runs[i].samples)
  {
    assert runs[..i + 1][..i] == runs[..i];
    TotalSizeAppends(AllSamples(runs[..i]), runs[i].samples);
  }

  predicate Emits(run: TrackRun, track: TrackInfo, mdat: seq<Byte>, offset: nat, n: nat, output: seq<EncodedSample>)
    requires track.timescale > 0 && n <= |run.samples|
  {
    RunOutput(run, track, mdat, offset, n) == Ok(output)
  }

  lemma EmitStep(run: TrackRun, track: TrackInfo, mdat: seq<Byte>, offset: nat, i: nat, output: seq<EncodedSample>)
    requires track.timescale > 0 && i < |run.samples| && Emits(run, track, mdat, offset, i, output)
    ensures var row := RowSample(run, track, mdat, offset, i);
            if row.Ok? then Emits(run, track, mdat, offset, i + 1, output + [row.value])
            else RunOutput(run, track, mdat, offset, i + 1) == Err(row.error)
  {
  }

  method EmitRun(run: TrackRun, track: TrackInfo, mdat: seq<Byte>, start: nat)
    returns (r: Result<seq<EncodedSample>, Error>, end: nat)
    requires track.timescale > 0
    ensures r == RunOutput(run, track, mdat, start, |run.samples|)
    ensures r.Ok? ==> end == start + TotalSize(run.samples)
  {
    var output: seq<EncodedSample> := [];
    var decodeTime: nat := run.baseDecodeTime;
    end := start;
    assert run.samples[..0] == [];
    for i := 0 to |run.samples|
      invariant Emits(run, track, mdat, start, i, output)
      invariant decodeTime == run.baseDecodeTime + Duration(run.samples[..i])
      invariant end == start + TotalSize(run.samples[..i])
    {
      var sample := Sample(run.samples[i], track, decodeTime, mdat, end);
      EmitStep(run, track, mdat, start, i, output);
      if sample.Err? {
        RunErrorSticks(run, track, mdat, start, i + 1, |run.samples|);
        return Err(sample.error), end;
      }
      SamplePrefix(run.samples, i);
      output := output + [sample.value];
      end := end + run.samples[i].size;
      decodeTime := decodeTime + run.samples[i].duration;
    }
    assert run.samples[..|run.samples|] == run.samples;
    return Ok(output), end;
  }

  method EmitRuns(runs: seq<TrackRun>, tracks: seq<TrackInfo>, mdat: seq<Byte>)
    returns (r: Result<seq<EncodedSample>, Error>)
    requires forall t <- tracks :: t.timescale > 0
    ensures var output := RunsOutput(runs, tracks, mdat, |runs|);
            r == if output.Ok? && TotalSize(AllSamples(runs)) != |mdat| then Err(UnreferencedPayload) else output
  {
    var output: seq<EncodedSample> := [];
    var payloadOffset: nat := 0;
    assert runs[..0] == [];
    for i := 0 to |runs|
      invariant RunsOutput(runs, tracks, mdat, i) == Ok(output)
      invariant payloadOffset == TotalSize(AllSamples(runs[..i]))
    {
      var track := TrackWithId(tracks, runs[i].trackId);
      if track.Err? {
        RunsErrorSticks(runs, tracks, mdat, i + 1, |runs|);
        return Err(track.error);
      }
      var emitted, end := EmitRun(runs[i], track.value, mdat, payloadOffset);
      if emitted.Err? {
        RunsErrorSticks(runs, tracks, mdat, i + 1, |runs|);
        return Err(emitted.error);
      }
      RunPrefix(runs, i);
      output := output + emitted.value;
      payloadOffset := end;
    }
    assert runs[..|runs|] == runs;
    return if payloadOffset != |mdat| then Err(UnreferencedPayload) else Ok(output);
  }

  method SampleCount(runs: seq<TrackRun>) returns (count: nat)
    ensures count == |AllSamples(runs)|
  {
    count := 0;
    assert runs[..0] == [];
    for i := 0 to |runs|
      invariant count == |AllSamples(runs[..i])|
    {
      RunPrefix(runs, i);
      count := count + |runs[i].samples|;
    }
    assert runs[..|runs|] == runs;
  }

  method ParseMediaSegment(bytes: seq<Byte>, tracks: seq<TrackInfo>) returns (r: Result<seq<EncodedSample>, Error>)
    ensures r == MediaSegment(bytes, tracks)
  {
    var _ :- ValidateSegmentSize(bytes);
    if tracks == [] || |tracks| > MAX_TRACKS {
      return Err(NoTrackConfiguration);
    }
    var parsed := ParseBoxes(bytes);
    var top :- parsed;
    var moof :- Child(top, MOOF);
    var mdat :- Child(top, MDAT);
    for i := 0 to |tracks|
      invariant forall j :: 0 <= j < i ==> tracks[j].timescale > 0
    {
      if tracks[i].timescale == 0 {
        return Err(InvalidTimescale);
      }
    }
    var fragment := ParseMovieFragment(moof);
    var runs :- fragment;
    var count := SampleCount(runs);
    if count == 0 || count > MAX_SAMPLES_PER_SEGMENT {
      return Err(SampleCountBudget);
    }
    r := EmitRuns(runs, tracks, mdat);
  }
}
