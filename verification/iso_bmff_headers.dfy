/** The remaining boxes, field by field: which box a name means, where its fields stand, and how lists of boxes are read. */
module IsoBmffHeaders {
  import opened Bytes
  import opened IsoBmff
  import opened IsoBmffTrun
  import opened IsoBoxes
  import opened MachineInts
  import opened Wrappers

  // ---- Names --------------------------------------------------------------------------------

  function Ascii(s: string): (bytes: seq<Byte>) {
    seq(|s|, i requires 0 <= i < |s| => s[i] as int % 128)
  }

  lemma InitKindsAreNamed()
    ensures FTYP == Ascii("ftyp") && MOOV == Ascii("moov") && TRAK == Ascii("trak") && TKHD == Ascii("tkhd")
    ensures MDIA == Ascii("mdia") && MDHD == Ascii("mdhd") && HDLR == Ascii("hdlr") && MINF == Ascii("minf")
    ensures STBL == Ascii("stbl") && STSD == Ascii("stsd")
  {
  }

  lemma MediaKindsAreNamed()
    ensures MOOF == Ascii("moof") && MDAT == Ascii("mdat") && TRAF == Ascii("traf")
    ensures TFHD == Ascii("tfhd") && TFDT == Ascii("tfdt") && TRUN == Ascii("trun")
  {
  }

  /** Handlers by their four characters. */
  lemma HandlersAreNamed()
    ensures KindOfHandler(Ascii("soun")) == Audio && KindOfHandler(Ascii("vide")) == Video
  {
    HandlersAreBytes();
  }

  lemma HandlersAreBytes()
    ensures Ascii("soun") == SOUN && Ascii("vide") == VIDE && SOUN[0] != VIDE[0]
  {
  }

  /** Codecs by theirs. */
  lemma VideoCodecsAreNamed()
    ensures CodecOfFourcc(Ascii("avc1")) == Avc && CodecOfFourcc(Ascii("avc3")) == Avc
    ensures CodecOfFourcc(Ascii("hvc1")) == Hevc && CodecOfFourcc(Ascii("hev1")) == Hevc
  {
    NamesAreBytes();
  }

  lemma OtherCodecsAreNamed()
    ensures CodecOfFourcc(Ascii("vp08")) == Vp8 && CodecOfFourcc(Ascii("vp09")) == Vp9
    ensures CodecOfFourcc(Ascii("av01")) == Av1
  {
    NamesAreBytes();
  }

  lemma AudioCodecsAreNamed()
    ensures CodecOfFourcc(Ascii("mp4a")) == Aac && CodecOfFourcc(Ascii("Opus")) == Opus
  {
    NamesAreBytes();
  }

  const KNOWN := ["avc1", "avc3", "hvc1", "hev1", "vp08", "vp09", "av01", "mp4a", "Opus"]

  lemma OtherCodesAreUnknown(code: seq<Byte>)
    ensures code != Ascii("soun") && code != Ascii("vide") ==> KindOfHandler(code) == UnknownKind
    ensures (forall i :: 0 <= i < |KNOWN| ==> code != Ascii(KNOWN[i])) ==> CodecOfFourcc(code) == UnknownCodec(code)
  {
    NamesAreBytes();
    HandlersAreBytes();
    assert KNOWN[0] == "avc1" && KNOWN[1] == "avc3" && KNOWN[2] == "hvc1" && KNOWN[3] == "hev1" && KNOWN[4] == "vp08";
    assert KNOWN[5] == "vp09" && KNOWN[6] == "av01" && KNOWN[7] == "mp4a" && KNOWN[8] == "Opus";
  }

  lemma NamesAreBytes()
    ensures Ascii("avc1") == [0x61, 0x76, 0x63, 0x31] && Ascii("avc3") == [0x61, 0x76, 0x63, 0x33]
    ensures Ascii("hvc1") == [0x68, 0x76, 0x63, 0x31] && Ascii("hev1") == [0x68, 0x65, 0x76, 0x31]
    ensures Ascii("vp08") == [0x76, 0x70, 0x30, 0x38] && Ascii("vp09") == [0x76, 0x70, 0x30, 0x39]
    ensures Ascii("av01") == [0x61, 0x76, 0x30, 0x31] && Ascii("mp4a") == [0x6d, 0x70, 0x34, 0x61]
    ensures Ascii("Opus") == [0x4f, 0x70, 0x75, 0x73]
  {
  }

  // ---- Boxes of a kind ----------------------------------------------------------------------

  /** The payloads of the boxes of a kind, in order. */
  function Payloads(boxes: seq<Box>, kind: seq<Byte>): (payloads: seq<seq<Byte>>) {
    if boxes == [] then []
    else (if boxes[0].kind == kind then [boxes[0].payload] else []) + Payloads(boxes[1..], kind)
  }

  lemma {:induction false} ChildIsFirst(boxes: seq<Box>, kind: seq<Byte>)
    ensures Child(boxes, kind) == if Payloads(boxes, kind) == [] then Err(MissingBox(kind)) else Ok(Payloads(boxes, kind)[0])
  {
    if boxes != [] {
      ChildIsFirst(boxes[1..], kind);
    }
  }

  // ---- Tracks -------------------------------------------------------------------------------

  /** Each payload is read as the track at its place. */
  predicate AreTracks(traks: seq<seq<Byte>>, tracks: seq<TrackInfo>)
    decreases |traks|
  {
    if traks == [] then tracks == []
    else tracks != [] && TrackOf(traks[0]) == Ok(tracks[0]) && AreTracks(traks[1..], tracks[1..])
  }

  predicate GivesTracks(boxes: seq<Box>, count: nat, tracks: seq<TrackInfo>) {
    TracksFrom(boxes, count) == Ok(tracks)
  }

  /** The tracks found are those of all `trak` boxes, each read on its own, in order, and at most 32. */
  lemma {:induction false} TracksAreTheTraks(boxes: seq<Box>, count: nat, tracks: seq<TrackInfo>)
    requires count <= 32
    ensures GivesTracks(boxes, count, tracks)
            <==> AreTracks(Payloads(boxes, TRAK), tracks) && count + |tracks| <= 32
  {
    if boxes == [] {
    } else if boxes[0].kind != TRAK {
      TracksAreTheTraks(boxes[1..], count, tracks);
      assert Payloads(boxes, TRAK) == Payloads(boxes[1..], TRAK);
    } else {
      assert Payloads(boxes, TRAK)[1..] == Payloads(boxes[1..], TRAK);
      if tracks != [] && count < 32 {
        TracksAreTheTraks(boxes[1..], count + 1, tracks[1..]);
        GivesTracksCons(boxes, count, tracks);
      }
    }
  }

  lemma GivesTracksCons(boxes: seq<Box>, count: nat, tracks: seq<TrackInfo>)
    requires boxes != [] && boxes[0].kind == TRAK && count < 32 && tracks != []
    ensures GivesTracks(boxes, count, tracks)
            <==> TrackOf(boxes[0].payload) == Ok(tracks[0]) && GivesTracks(boxes[1..], count + 1, tracks[1..])
  {
    assert tracks == [tracks[0]] + tracks[1..];
    if GivesTracks(boxes, count, tracks) {
      var rest := TracksFrom(boxes[1..], count + 1).value;
      assert ([TrackOf(boxes[0].payload).value] + rest)[1..] == rest;
    }
  }

  // ---- Runs ---------------------------------------------------------------------------------

  /** Number of samples a `trun` declares. */
  function Declared(trun: seq<Byte>): (n: nat) {
    if U32At(trun, 4).Ok? then U32At(trun, 4).value else 0
  }

  /** The payload is read as that run, which starts at a time, within both budgets. */
  predicate IsRunOf(trun: seq<Byte>, defaults: Defaults, time: nat, cumulative: nat, run: TrackRun) {
    && run.trackId == defaults.trackId && run.baseDecodeTime == time
    && U32At(trun, 4).Ok? && cumulative + Declared(trun) <= 100_000
    && TrunOf(trun, defaults) == Ok(run.samples) && time + Duration(run.samples) < U64_LIMIT
  }

  /** Each payload is read as the run at its place; runs start where those before them end, within both budgets. */
  predicate AreRuns(truns: seq<seq<Byte>>, defaults: Defaults, time: nat, cumulative: nat, runs: seq<TrackRun>, total: nat)
    decreases |truns|
  {
    if truns == [] then runs == [] && total == cumulative
    else
      && runs != [] && IsRunOf(truns[0], defaults, time, cumulative, runs[0])
      && AreRuns(truns[1..], defaults, time + Duration(runs[0].samples), cumulative + Declared(truns[0]), runs[1..], total)
  }

  predicate GivesRuns(boxes: seq<Box>, defaults: Defaults, time: nat, cumulative: nat, runs: seq<TrackRun>, total: nat) {
    RunsFrom(boxes, defaults, time, cumulative) == Ok((runs, total))
  }

  lemma GivesRunsCons(boxes: seq<Box>, defaults: Defaults, time: nat, cumulative: nat, runs: seq<TrackRun>, total: nat)
    requires boxes != [] && boxes[0].kind == TRUN && runs != []
    ensures GivesRuns(boxes, defaults, time, cumulative, runs, total)
            <==> && IsRunOf(boxes[0].payload, defaults, time, cumulative, runs[0])
                 && GivesRuns(boxes[1..], defaults, time + Duration(runs[0].samples),
                              cumulative + Declared(boxes[0].payload), runs[1..], total)
  {
    assert runs == [runs[0]] + runs[1..];
    if GivesRuns(boxes, defaults, time, cumulative, runs, total) {
      var samples := TrunOf(boxes[0].payload, defaults).value;
      var rest := RunsFrom(boxes[1..], defaults, time + Duration(samples), cumulative + Declared(boxes[0].payload)).value;
      assert ([TrackRun(defaults.trackId, time, samples)] + rest.0)[1..] == rest.0;
    }
  }

  lemma AreRunsCons(truns: seq<seq<Byte>>, first: seq<Byte>, rest: seq<seq<Byte>>, defaults: Defaults, time: nat,
                    cumulative: nat, runs: seq<TrackRun>, total: nat)
    requires truns == [first] + rest
    ensures AreRuns(truns, defaults, time, cumulative, runs, total)
            <==> && runs != [] && IsRunOf(first, defaults, time, cumulative, runs[0])
                 && AreRuns(rest, defaults, time + Duration(runs[0].samples), cumulative + Declared(first), runs[1..], total)
  {
    assert truns[1..] == rest;
  }

  /** The runs found are those of all `trun` boxes of the track fragment, in order. */
  lemma {:induction false} RunsAreTheTruns(boxes: seq<Box>, defaults: Defaults, time: nat, cumulative: nat,
                                           runs: seq<TrackRun>, total: nat)
    ensures GivesRuns(boxes, defaults, time, cumulative, runs, total)
            <==> AreRuns(Payloads(boxes, TRUN), defaults, time, cumulative, runs, total)
    decreases |boxes|
  {
    if boxes == [] {
    } else if boxes[0].kind != TRUN {
      RunsAreTheTruns(boxes[1..], defaults, time, cumulative, runs, total);
      assert Payloads(boxes, TRUN) == Payloads(boxes[1..], TRUN);
    } else {
      if runs != [] {
        RunsAreTheTruns(boxes[1..], defaults, time + Duration(runs[0].samples), cumulative + Declared(boxes[0].payload),
                        runs[1..], total);
      }
      OneTrunMore(boxes, defaults, time, cumulative, runs, total);
    }
  }

  lemma OneTrunMore(boxes: seq<Box>, defaults: Defaults, time: nat, cumulative: nat, runs: seq<TrackRun>, total: nat)
    requires boxes != [] && boxes[0].kind == TRUN
    requires runs != [] ==>
               var (t, c) := (time + Duration(runs[0].samples), cumulative + Declared(boxes[0].payload));
               GivesRuns(boxes[1..], defaults, t, c, runs[1..], total)
               <==> AreRuns(Payloads(boxes[1..], TRUN), defaults, t, c, runs[1..], total)
    ensures GivesRuns(boxes, defaults, time, cumulative, runs, total)
            <==> AreRuns(Payloads(boxes, TRUN), defaults, time, cumulative, runs, total)
  {
    AreRunsCons(Payloads(boxes, TRUN), boxes[0].payload, Payloads(boxes[1..], TRUN), defaults, time, cumulative, runs, total);
    if runs != [] {
      GivesRunsCons(boxes, defaults, time, cumulative, runs, total);
    }
  }

  // ---- Track fragments ----------------------------------------------------------------------

  function Count(runs: seq<TrackRun>): (n: nat) {
    if runs == [] then 0 else |runs[0].samples| + Count(runs[1..])
  }

  predicate GivesGroups(boxes: seq<Box>, cumulative: nat, groups: seq<seq<TrackRun>>) {
    GroupsFrom(boxes, cumulative) == Ok(groups)
  }

  /** Each payload is read as the group at its place, with the samples counted before it. */
  predicate AreGroups(trafs: seq<seq<Byte>>, cumulative: nat, groups: seq<seq<TrackRun>>)
    decreases |trafs|
  {
    if trafs == [] then groups == []
    else
      && groups != [] && TrafOf(trafs[0], cumulative).Ok? && TrafOf(trafs[0], cumulative).value.0 == groups[0]
      && AreGroups(trafs[1..], TrafOf(trafs[0], cumulative).value.1, groups[1..])
  }

  lemma GivesGroupsCons(boxes: seq<Box>, cumulative: nat, groups: seq<seq<TrackRun>>)
    requires boxes != [] && boxes[0].kind == TRAF && groups != []
    ensures GivesGroups(boxes, cumulative, groups)
            <==> && TrafOf(boxes[0].payload, cumulative).Ok? && TrafOf(boxes[0].payload, cumulative).value.0 == groups[0]
                 && GivesGroups(boxes[1..], TrafOf(boxes[0].payload, cumulative).value.1, groups[1..])
  {
    assert groups == [groups[0]] + groups[1..];
    if GivesGroups(boxes, cumulative, groups) {
      var traf := TrafOf(boxes[0].payload, cumulative).value;
      var rest := GroupsFrom(boxes[1..], traf.1).value;
      assert ([traf.0] + rest)[1..] == rest;
    }
  }

  /** The groups found are those of all `traf` boxes of the fragment, in order. */
  lemma {:induction false} GroupsAreTheTrafs(boxes: seq<Box>, cumulative: nat, groups: seq<seq<TrackRun>>)
    ensures GivesGroups(boxes, cumulative, groups) <==> AreGroups(Payloads(boxes, TRAF), cumulative, groups)
    decreases |boxes|
  {
    if boxes == [] {
    } else if boxes[0].kind != TRAF {
      GroupsAreTheTrafs(boxes[1..], cumulative, groups);
      assert Payloads(boxes, TRAF) == Payloads(boxes[1..], TRAF);
    } else {
      assert Payloads(boxes, TRAF)[1..] == Payloads(boxes[1..], TRAF);
      if groups != [] {
        GivesGroupsCons(boxes, cumulative, groups);
        if TrafOf(boxes[0].payload, cumulative).Ok? {
          GroupsAreTheTrafs(boxes[1..], TrafOf(boxes[0].payload, cumulative).value.1, groups[1..]);
        }
      }
    }
  }

  /** A track fragment is read by its first `tfhd` and `tfdt` and all its `trun` boxes. */
  lemma TrafIsReadByField(bytes: seq<Byte>, cumulative: nat, runs: seq<TrackRun>, total: nat)
    ensures TrafOf(bytes, cumulative) == Ok((runs, total))
            <==> && BoxesOf(bytes).Ok?
                 && var boxes := BoxesOf(bytes).value;
                    && Payloads(boxes, TFHD) != [] && Payloads(boxes, TFDT) != []
                    && TfhdOf(Payloads(boxes, TFHD)[0]).Ok? && TfdtOf(Payloads(boxes, TFDT)[0]).Ok?
                    && AreRuns(Payloads(boxes, TRUN), TfhdOf(Payloads(boxes, TFHD)[0]).value,
                               TfdtOf(Payloads(boxes, TFDT)[0]).value, cumulative, runs, total)
  {
    if BoxesOf(bytes).Ok? {
      var boxes := BoxesOf(bytes).value;
      ChildIsFirst(boxes, TFHD);
      ChildIsFirst(boxes, TFDT);
      if Payloads(boxes, TFHD) != [] && Payloads(boxes, TFDT) != []
         && TfhdOf(Payloads(boxes, TFHD)[0]).Ok? && TfdtOf(Payloads(boxes, TFDT)[0]).Ok? {
        RunsAreTheTruns(boxes, TfhdOf(Payloads(boxes, TFHD)[0]).value, TfdtOf(Payloads(boxes, TFDT)[0]).value, cumulative,
                        runs, total);
      }
    }
  }

  // ---- Fixed fields -------------------------------------------------------------------------

  /** The value of four bytes, most significant first. */
  function Word(bytes: seq<Byte>, at: nat): (v: nat)
    requires at + 4 <= |bytes|
  {
    0x100_0000 * (bytes[at] as int) + 0x1_0000 * (bytes[at + 1] as int) + 0x100 * (bytes[at + 2] as int) + bytes[at + 3] as int
  }

  lemma FourBytes(s: seq<Byte>)
    requires |s| == 4
    ensures FromBe(s) == Word(s, 0)
  {
    assert s[..3][..2] == s[..2] && s[..2][..1] == s[..1] && s[..1][..0] == [];
    assert FromBe(s[..1]) == s[0] && FromBe(s[..2]) == 256 * FromBe(s[..1]) + s[1];
  }

  lemma WordIs(bytes: seq<Byte>, at: nat)
    ensures U32At(bytes, at) == if at + 4 <= |bytes| then Ok(Word(bytes, at)) else Err(TruncatedInteger)
  {
    if at + 4 <= |bytes| {
      FourBytes(bytes[at..at + 4]);
    }
  }

  /** `tkhd` and `mdhd`: the field is at byte 20 when the times before it are 64 bits wide, and at byte 12 otherwise. */
  lemma FieldByVersion(bytes: seq<Byte>, kind: seq<Byte>)
    ensures var at := if bytes != [] && bytes[0] == 1 then 4 + 8 + 8 else 4 + 4 + 4;
            VersionedField(bytes, kind)
            == if bytes == [] then Err(TruncatedBox(kind))
               else if at + 4 <= |bytes| then Ok(Word(bytes, at)) else Err(TruncatedInteger)
  {
    WordIs(bytes, 20);
    WordIs(bytes, 12);
  }

  /** Timescales from 1 to ten million ticks a second are taken. */
  lemma TimescalesTaken(mdhd: seq<Byte>)
    ensures TimescaleOf(mdhd).Ok?
            <==> VersionedField(mdhd, MDHD).Ok? && 0 < VersionedField(mdhd, MDHD).value < 10_000_001
    ensures TimescaleOf(mdhd).Ok? ==> TimescaleOf(mdhd).value == VersionedField(mdhd, MDHD).value
  {
  }

  lemma EightBytes(s: seq<Byte>)
    requires |s| == 8
    ensures FromBe(s) == 0x1_0000_0000 * Word(s, 0) + Word(s, 4)
  {
    var high := s[..4];
    FourBytes(high);
    assert s[..7][..6] == s[..6] && s[..6][..5] == s[..5] && s[..5][..4] == high;
    assert FromBe(s[..5]) == 256 * FromBe(high) + s[4];
    assert FromBe(s[..6]) == 256 * FromBe(s[..5]) + s[5];
    assert FromBe(s[..7]) == 256 * FromBe(s[..6]) + s[6];
  }

  /** `tfdt`: 64 bits behind the flags in version 1, 32 otherwise. */
  lemma BaseTimeByVersion(bytes: seq<Byte>)
    ensures TfdtOf(bytes)
            == if bytes == [] then Err(TruncatedBox(TFDT))
               else if bytes[0] == 1 then
                 (if 12 <= |bytes| then Ok(0x1_0000_0000 * Word(bytes, 4) + Word(bytes, 8)) else Err(TruncatedInteger))
               else if 8 <= |bytes| then Ok(Word(bytes, 4)) else Err(TruncatedInteger)
  {
    if bytes != [] && bytes[0] == 1 && 12 <= |bytes| {
      EightBytes(bytes[4..12]);
      assert Word(bytes[4..12], 0) == Word(bytes, 4) && Word(bytes[4..12], 4) == Word(bytes, 8);
    }
    WordIs(bytes, 4);
  }

  // ---- Track fragment headers -----------------------------------------------------------------

  /** What stands in a `tfhd`: two skipped fields and three defaults, each behind a flag. */
  datatype FragmentHeader = FragmentHeader(
    version: Byte, flags: nat, trackId: nat, dataOffset: seq<Byte>, description: nat, duration: nat, size: nat, sampleFlags: nat)

  predicate FragmentHeaderFits(h: FragmentHeader) {
    && h.flags < 0x100_0000 && h.trackId < U32_LIMIT && |h.dataOffset| == (if Has(h.flags, 0x1) then 8 else 0)
    && h.description < U32_LIMIT && h.duration < U32_LIMIT && h.size < U32_LIMIT && h.sampleFlags < U32_LIMIT
  }

  function PrintTfhd(h: FragmentHeader): (bytes: seq<Byte>) {
    Fixed(h.version, h.flags, h.trackId) + h.dataOffset + Field(Has(h.flags, 0x2), h.description)
    + Field(Has(h.flags, 0x8), h.duration) + Field(Has(h.flags, 0x10), h.size) + Field(Has(h.flags, 0x20), h.sampleFlags)
  }

  lemma FieldReads(bytes: seq<Byte>, offset: nat, present: bool, inherited: nat, v: nat)
    requires At(bytes, offset, Field(present, v)) && v < U32_LIMIT
    ensures Optional(bytes, offset, present, inherited)
            == Ok((if present then v else inherited, offset + |Field(present, v)|))
  {
    if present {
      WordAt(bytes, offset, v);
    }
  }

  lemma AtSix(bytes: seq<Byte>, a: seq<Byte>, b: seq<Byte>, c: seq<Byte>, d: seq<Byte>, e: seq<Byte>, f: seq<Byte>)
    requires At(bytes, 0, a + b + c + d + e + f)
    ensures At(bytes, 0, a) && At(bytes, |a|, b) && At(bytes, |a| + |b|, c) && At(bytes, |a| + |b| + |c|, d)
    ensures At(bytes, |a| + |b| + |c| + |d|, e) && At(bytes, |a| + |b| + |c| + |d| + |e|, f)
  {
    AtBoth(bytes, 0, a + b + c + d + e, f);
    AtBoth(bytes, 0, a + b + c + d, e);
    AtBoth(bytes, 0, a + b + c, d);
    AtBoth(bytes, 0, a + b, c);
    AtBoth(bytes, 0, a, b);
  }

  /** For every version and every 24 flag bits, parsing undoes printing: fields without their flag count as zero. */
  lemma TfhdReadsBack(h: FragmentHeader, rest: seq<Byte>)
    requires FragmentHeaderFits(h)
    ensures TfhdOf(PrintTfhd(h) + rest)
            == if h.trackId == 0 then Err(ZeroTrackId)
               else Ok(Defaults(h.trackId, if Has(h.flags, 0x8) then h.duration else 0, if Has(h.flags, 0x10) then h.size else 0,
                                if Has(h.flags, 0x20) then h.sampleFlags else 0))
  {
    var bytes := PrintTfhd(h) + rest;
    var description, duration := Field(Has(h.flags, 0x2), h.description), Field(Has(h.flags, 0x8), h.duration);
    var size, flags := Field(Has(h.flags, 0x10), h.size), Field(Has(h.flags, 0x20), h.sampleFlags);
    assert bytes[0..|PrintTfhd(h)|] == PrintTfhd(h);
    AtSix(bytes, Fixed(h.version, h.flags, h.trackId), h.dataOffset, description, duration, size, flags);
    FixedAt(bytes, h.version, h.flags, h.trackId);
    Widths();
    BeRoundTrip(h.flags, 3);
    BeRoundTrip(h.trackId, 4);
    var o2 := 8 + |h.dataOffset| + |description|;
    FieldReads(bytes, o2, Has(h.flags, 0x8), 0, h.duration);
    FieldReads(bytes, o2 + |duration|, Has(h.flags, 0x10), 0, h.size);
    FieldReads(bytes, o2 + |duration| + |size|, Has(h.flags, 0x20), 0, h.sampleFlags);
  }
}
