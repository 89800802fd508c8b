/** The serializer of the parser's test fixtures, and the round trips it makes with the parser. */
module IsoBmffPrinter {
  import opened Bytes
  import opened Division
  import opened IsoBmff
  import opened IsoBmffTiming
  import opened IsoBmffTrun
  import opened IsoBoxes
  import opened MachineInts
  import opened Wrappers

  function Zeros(n: nat): (s: seq<Byte>)
    ensures |s| == n
  {
    seq(n, _ => 0)
  }

  // ---- Initialization segment -----------------------------------------------------------

  /** The field at byte 12 of a version-0 `tkhd` or `mdhd`. */
  function HeaderBody(field: nat): (payload: seq<Byte>) {
    FullBox(0, 0, Zeros(8) + ToBe(field, 4) + Zeros(4))
  }

  function HandlerBody(handler: seq<Byte>): (payload: seq<Byte>) {
    FullBox(0, 0, Zeros(4) + handler)
  }

  function SampleTable(codec: seq<Byte>): (payload: seq<Byte>) {
    Print([Box(STSD, FullBox(0, 0, ToBe(1, 4) + Print([Box(codec, Zeros(8))])))])
  }

  function MediaBody(timescale: nat, handler: seq<Byte>, codec: seq<Byte>): (payload: seq<Byte>) {
    Print([Box(MDHD, HeaderBody(timescale)), Box(HDLR, HandlerBody(handler)),
           Box(MINF, Print([Box(STBL, SampleTable(codec))]))])
  }

  function TrackBody(trackId: nat, timescale: nat, handler: seq<Byte>, codec: seq<Byte>): (payload: seq<Byte>) {
    Print([Box(TKHD, HeaderBody(trackId)), Box(MDIA, MediaBody(timescale, handler, codec))])
  }

  const ISOM: seq<Byte> := [0x69, 0x73, 0x6f, 0x6d]

  /** `fixture::init`. */
  function PrintInit(trackId: nat, timescale: nat, handler: seq<Byte>, codec: seq<Byte>): (wire: seq<Byte>) {
    Print([Box(FTYP, ISOM + ToBe(0, 4) + ISOM),
           Box(MOOV, Print([Box(TRAK, TrackBody(trackId, timescale, handler, codec))]))])
  }

  lemma PrintOne(a: Box)
    requires |a.kind| == 4 && 8 + |a.payload| < U32_LIMIT
    ensures |Print([a])| == 8 + |a.payload| && BoxesOf(Print([a])) == Ok([a])
  {
    assert Print([a][1..]) == [];
    ParseUndoesPrint([a]);
  }

  lemma PrintTwo(a: Box, b: Box)
    requires |a.kind| == |b.kind| == 4 && 16 + |a.payload| + |b.payload| < U32_LIMIT
    ensures |Print([a, b])| == 16 + |a.payload| + |b.payload| && BoxesOf(Print([a, b])) == Ok([a, b])
  {
    assert [a, b][1..] == [b];
    PrintOne(b);
    ParseUndoesPrint([a, b]);
  }

  lemma PrintThree(a: Box, b: Box, c: Box)
    requires |a.kind| == |b.kind| == |c.kind| == 4
    requires 24 + |a.payload| + |b.payload| + |c.payload| < U32_LIMIT
    ensures |Print([a, b, c])| == 24 + |a.payload| + |b.payload| + |c.payload|
    ensures BoxesOf(Print([a, b, c])) == Ok([a, b, c])
  {
    assert [a, b, c][1..] == [b, c];
    PrintTwo(b, c);
    ParseUndoesPrint([a, b, c]);
  }

  lemma FieldRoundTrip(field: nat, kind: seq<Byte>)
    requires field < U32_LIMIT
    ensures VersionedField(HeaderBody(field), kind) == Ok(field)
  {
    Widths();
    BeRoundTrip(field, 4);
    assert HeaderBody(field)[12..16] == ToBe(field, 4);
  }

  lemma SampleTableRoundTrip(codec: seq<Byte>)
    requires |codec| == 4
    ensures var minf := Print([Box(STBL, SampleTable(codec))]);
            |minf| == 40 && SampleEntryCodec(minf) == Ok(CodecOfFourcc(codec))
  {
    Widths();
    BeRoundTrip(1, 4);
    var entry := Box(codec, Zeros(8));
    PrintOne(entry);
    var stsd := FullBox(0, 0, ToBe(1, 4) + Print([entry]));
    assert stsd[4..8] == ToBe(1, 4) && stsd[8..] == Print([entry]);
    PrintOne(Box(STSD, stsd));
    PrintOne(Box(STBL, SampleTable(codec)));
  }

  lemma MediaBodyRoundTrip(timescale: nat, handler: seq<Byte>, codec: seq<Byte>)
    requires |handler| == |codec| == 4
    ensures |MediaBody(timescale, handler, codec)| == 24 + 20 + 12 + 40
    ensures BoxesOf(MediaBody(timescale, handler, codec))
            == Ok([Box(MDHD, HeaderBody(timescale)), Box(HDLR, HandlerBody(handler)),
                   Box(MINF, Print([Box(STBL, SampleTable(codec))]))])
    ensures HandlerOf(HandlerBody(handler)) == Ok(KindOfHandler(handler))
  {
    HandlerRoundTrip(handler);
    SampleTableRoundTrip(codec);
    PrintThree(Box(MDHD, HeaderBody(timescale)), Box(HDLR, HandlerBody(handler)),
               Box(MINF, Print([Box(STBL, SampleTable(codec))])));
  }

  lemma HandlerRoundTrip(handler: seq<Byte>)
    requires |handler| == 4
    ensures HandlerOf(HandlerBody(handler)) == Ok(KindOfHandler(handler))
  {
    assert HandlerBody(handler)[8..12] == handler;
  }

  lemma KindsDiffer()
    ensures HDLR != MDHD && MINF != MDHD && MINF != HDLR && MDIA != TKHD && MOOV != FTYP && MDAT != MOOF
    ensures TFDT != TFHD && TRUN != TFHD && TRUN != TFDT
  {
    assert HDLR[0] != MDHD[0] && MINF[1] != MDHD[1] && MINF[0] != HDLR[0] && MDIA[0] != TKHD[0];
    assert MOOV[0] != FTYP[0] && MDAT[1] != MOOF[1];
    assert TFDT[2] != TFHD[2] && TRUN[1] != TFHD[1] && TRUN[1] != TFDT[1];
  }

  lemma ChildOfTwo(a: Box, b: Box)
    requires a.kind != b.kind
    ensures Child([a, b], a.kind) == Ok(a.payload) && Child([a, b], b.kind) == Ok(b.payload)
  {
    assert [a, b][1..] == [b];
  }

  lemma ChildOfThree(a: Box, b: Box, c: Box)
    requires a.kind != b.kind && a.kind != c.kind && b.kind != c.kind
    ensures Child([a, b, c], a.kind) == Ok(a.payload)
    ensures Child([a, b, c], b.kind) == Ok(b.payload)
    ensures Child([a, b, c], c.kind) == Ok(c.payload)
  {
    assert [a, b, c][1..] == [b, c];
    ChildOfTwo(b, c);
  }

  /** The fields `TrackOf` reads out of a printed `mdia`. */
  lemma MdiaRoundTrip(timescale: nat, handler: seq<Byte>, codec: seq<Byte>)
    requires 1 <= timescale <= MAX_TIMESCALE && |handler| == |codec| == 4
    ensures BoxesOf(MediaBody(timescale, handler, codec)).Ok?
    ensures var inMdia := BoxesOf(MediaBody(timescale, handler, codec)).value;
            && Child(inMdia, MDHD).Ok? && Child(inMdia, HDLR).Ok? && Child(inMdia, MINF).Ok?
            && TimescaleOf(Child(inMdia, MDHD).value) == Ok(timescale)
            && HandlerOf(Child(inMdia, HDLR).value) == Ok(KindOfHandler(handler))
            && SampleEntryCodec(Child(inMdia, MINF).value) == Ok(CodecOfFourcc(codec))
  {
    KindsDiffer();
    MediaBodyRoundTrip(timescale, handler, codec);
    SampleTableRoundTrip(codec);
    FieldRoundTrip(timescale, MDHD);
    ChildOfThree(Box(MDHD, HeaderBody(timescale)), Box(HDLR, HandlerBody(handler)),
                 Box(MINF, Print([Box(STBL, SampleTable(codec))])));
  }

  lemma TrackRoundTrip(trackId: nat, timescale: nat, handler: seq<Byte>, codec: seq<Byte>)
    requires 0 < trackId < U32_LIMIT && 1 <= timescale <= MAX_TIMESCALE && |handler| == |codec| == 4
    ensures |TrackBody(trackId, timescale, handler, codec)| == 132
    ensures TrackOf(TrackBody(trackId, timescale, handler, codec))
            == Ok(TrackInfo(trackId, timescale, KindOfHandler(handler), CodecOfFourcc(codec)))
  {
    KindsDiffer();
    MediaBodyRoundTrip(timescale, handler, codec);
    var tkhd, mdia := Box(TKHD, HeaderBody(trackId)), Box(MDIA, MediaBody(timescale, handler, codec));
    PrintTwo(tkhd, mdia);
    ChildOfTwo(tkhd, mdia);
    FieldRoundTrip(trackId, TKHD);
    MdiaRoundTrip(timescale, handler, codec);
  }

  lemma OneTrack(trak: seq<Byte>, track: TrackInfo)
    requires TrackOf(trak) == Ok(track)
    ensures TracksFrom([Box(TRAK, trak)], 0) == Ok([track])
    ensures SortById([track]) == [track]
  {
    assert [Box(TRAK, trak)][1..] == [];
    assert [track][1..] == [];
    assert [track] + [] == [track];
  }

  /** Parsing undoes printing: a printed initialization segment yields exactly the one track it describes. */
  lemma InitRoundTrip(trackId: nat, timescale: nat, handler: seq<Byte>, codec: seq<Byte>)
    requires 0 < trackId < U32_LIMIT && 1 <= timescale <= MAX_TIMESCALE && |handler| == |codec| == 4
    ensures InitSegment(PrintInit(trackId, timescale, handler, codec))
            == Ok([TrackInfo(trackId, timescale, KindOfHandler(handler), CodecOfFourcc(codec))])
  {
    KindsDiffer();
    TrackRoundTrip(trackId, timescale, handler, codec);
    var track := TrackInfo(trackId, timescale, KindOfHandler(handler), CodecOfFourcc(codec));
    var ftyp := Box(FTYP, ISOM + ToBe(0, 4) + ISOM);
    var trak := Box(TRAK, TrackBody(trackId, timescale, handler, codec));
    PrintOne(trak);
    var moov := Box(MOOV, Print([trak]));
    PrintTwo(ftyp, moov);
    ChildOfTwo(ftyp, moov);
    OneTrack(trak.payload, track);
  }

  // ---- Media segment --------------------------------------------------------------------

  /** The size column of the printed `trun`. */
  function SizeTable(payloads: seq<seq<Byte>>): (table: seq<Byte>)
    ensures |table| == 4 * |payloads|
  {
    if payloads == [] then [] else ToBe(|payloads[0]|, 4) + SizeTable(payloads[1..])
  }

  function TfhdBody(trackId: nat, duration: nat): (payload: seq<Byte>) {
    FullBox(0, 0x8, ToBe(trackId, 4) + ToBe(duration, 4))
  }

  function TfdtBody(base: nat): (payload: seq<Byte>) {
    FullBox(1, 0, ToBe(base, 8))
  }

  function TrunBody(payloads: seq<seq<Byte>>): (payload: seq<Byte>)
    ensures |payload| == 8 + 4 * |payloads|
  {
    FullBox(0, 0x200, ToBe(|payloads|, 4) + SizeTable(payloads))
  }

  function TrafBody(trackId: nat, base: nat, duration: nat, payloads: seq<seq<Byte>>): (payload: seq<Byte>) {
    Print([Box(TFHD, TfhdBody(trackId, duration)), Box(TFDT, TfdtBody(base)), Box(TRUN, TrunBody(payloads))])
  }

  function MoofBody(trackId: nat, base: nat, duration: nat, payloads: seq<seq<Byte>>): (payload: seq<Byte>) {
    Print([Box(TRAF, TrafBody(trackId, base, duration, payloads))])
  }

  /** `fixture::media`. */
  function PrintMedia(trackId: nat, base: nat, duration: nat, payloads: seq<seq<Byte>>): (wire: seq<Byte>) {
    Print([Box(MOOF, MoofBody(trackId, base, duration, payloads)), Box(MDAT, Flatten(payloads))])
  }

  /** The rows the printed `trun` stands for. */
  function Rows(duration: nat, payloads: seq<seq<Byte>>): (rows: seq<RunSample>) {
    seq(|payloads|, i requires 0 <= i < |payloads| => RunSample(duration, |payloads[i]|, 0, 0))
  }

  /** The printed `trun` has no column but the sizes. */
  const SIZES_ONLY := RunHeader(0, 0x200, 0, 0)

  lemma SizeRow(defaults: Defaults, index: nat, size: nat)
    requires size < U32_LIMIT && defaults.flags == 0
    ensures var row := RunSample(defaults.duration, size, 0, 0);
            RowFits(SIZES_ONLY, defaults, index, row) && RowBytes(SIZES_ONLY, row) == ToBe(size, 4)
  {
  }

  lemma {:induction false} SizesAreRows(payloads: seq<seq<Byte>>, defaults: Defaults, index: nat)
    requires (forall p <- payloads :: |p| < U32_LIMIT) && defaults.flags == 0
    ensures var rows := Rows(defaults.duration, payloads);
            RowsFit(SIZES_ONLY, defaults, index, rows) && RowsBytes(SIZES_ONLY, defaults, index, rows) == SizeTable(payloads)
  {
    if payloads != [] {
      var rows := Rows(defaults.duration, payloads);
      assert rows[1..] == Rows(defaults.duration, payloads[1..]);
      SizeRow(defaults, index, |payloads[0]|);
      SizesAreRows(payloads[1..], defaults, index + 1);
      RowsUnfold(SIZES_ONLY, defaults, index, rows, rows[0], rows[1..]);
    }
  }

  lemma TrunIsPrinted(payloads: seq<seq<Byte>>, defaults: Defaults)
    requires |payloads| < U32_LIMIT && (forall p <- payloads :: |p| < U32_LIMIT) && defaults.flags == 0
    ensures var rows := Rows(defaults.duration, payloads);
            TableFits(SIZES_ONLY, defaults, rows) && PrintTrun(SIZES_ONLY, defaults, rows) + [] == TrunBody(payloads)
  {
    SizesAreRows(payloads, defaults, 0);
    Regroup([0] + ToBe(0x200, 3), ToBe(|payloads|, 4), SizeTable(payloads));
  }

  lemma Regroup(a: seq<Byte>, b: seq<Byte>, c: seq<Byte>)
    ensures (a + (b + [] + [])) + c + [] == a + (b + c)
  {
  }

  lemma CountAt(payloads: seq<seq<Byte>>)
    requires |payloads| < U32_LIMIT
    ensures U32At(TrunBody(payloads), 4) == Ok(|payloads|)
  {
    assert TrunBody(payloads)[4..8] == ToBe(|payloads|, 4);
    WordAt(TrunBody(payloads), 4, |payloads|);
  }

  lemma TrunRoundTrip(duration: nat, payloads: seq<seq<Byte>>, defaults: Defaults)
    requires |payloads| < U32_LIMIT && forall p <- payloads :: |p| < U32_LIMIT
    requires defaults.duration == duration && defaults.flags == 0
    ensures U32At(TrunBody(payloads), 4) == Ok(|payloads|)
    ensures TrunOf(TrunBody(payloads), defaults)
            == if 1 <= |payloads| <= MAX_SAMPLES_PER_SEGMENT then Ok(Rows(duration, payloads)) else Err(SampleCountBudget)
  {
    CountAt(payloads);
    TrunIsPrinted(payloads, defaults);
    TableRoundTrip(SIZES_ONLY, defaults, Rows(duration, payloads), []);
  }

  lemma TfhdRoundTrip(trackId: nat, duration: nat)
    requires trackId < U32_LIMIT && duration < U32_LIMIT
    ensures TfhdOf(TfhdBody(trackId, duration))
            == if trackId == 0 then Err(ZeroTrackId) else Ok(Defaults(trackId, duration, 0, 0))
  {
    Widths();
    BeRoundTrip(0x8, 3);
    BeRoundTrip(trackId, 4);
    BeRoundTrip(duration, 4);
    var bytes := TfhdBody(trackId, duration);
    assert bytes[1..4] == ToBe(0x8, 3) && bytes[4..8] == ToBe(trackId, 4) && bytes[8..12] == ToBe(duration, 4);
  }

  lemma TfdtRoundTrip(base: nat)
    requires base < U64_LIMIT
    ensures TfdtOf(TfdtBody(base)) == Ok(base)
  {
    Widths();
    BeRoundTrip(base, 8);
    assert TfdtBody(base)[4..12] == ToBe(base, 8);
  }

  lemma PrintCons(a: Box, rest: seq<Box>)
    requires |a.kind| == 4
    ensures |Print([a] + rest)| == 8 + |a.payload| + |Print(rest)|
  {
    assert ([a] + rest)[1..] == rest;
  }

  lemma PrintLengths(a: Box, b: Box, c: Box)
    requires |a.kind| == |b.kind| == |c.kind| == 4
    ensures |Print([a])| == 8 + |a.payload|
    ensures |Print([a, b])| == 16 + |a.payload| + |b.payload|
    ensures |Print([a, b, c])| == 24 + |a.payload| + |b.payload| + |c.payload|
  {
    assert [a] == [a] + [] && [b] == [b] + [] && [c] == [c] + [];
    assert [a, b] == [a] + [b] && [b, c] == [b] + [c] && [a, b, c] == [a] + [b, c];
    PrintCons(a, []);
    PrintCons(b, []);
    PrintCons(c, []);
    PrintCons(a, [b]);
    PrintCons(b, [c]);
    PrintCons(a, [b, c]);
  }

  lemma MediaLength(trackId: nat, base: nat, duration: nat, payloads: seq<seq<Byte>>)
    ensures |TrafBody(trackId, base, duration, payloads)| == 56 + 4 * |payloads|
    ensures |MoofBody(trackId, base, duration, payloads)| == 64 + 4 * |payloads|
    ensures |PrintMedia(trackId, base, duration, payloads)| == 80 + 4 * |payloads| + |Flatten(payloads)|
  {
    var tfhd, tfdt := Box(TFHD, TfhdBody(trackId, duration)), Box(TFDT, TfdtBody(base));
    PrintLengths(tfhd, tfdt, Box(TRUN, TrunBody(payloads)));
    var traf := Box(TRAF, TrafBody(trackId, base, duration, payloads));
    PrintLengths(traf, traf, traf);
    var moof, mdat := Box(MOOF, MoofBody(trackId, base, duration, payloads)), Box(MDAT, Flatten(payloads));
    PrintLengths(moof, mdat, mdat);
  }

  lemma {:induction false} RowTotals(duration: nat, payloads: seq<seq<Byte>>, i: nat)
    requires i <= |payloads|
    ensures Duration(Rows(duration, payloads)[..i]) == i * duration
    ensures TotalSize(Rows(duration, payloads)[..i]) == |Flatten(payloads[..i])|
  {
    if i > 0 {
      RowTotals(duration, payloads, i - 1);
      SamplePrefix(Rows(duration, payloads), i - 1);
      FlattenPrefix(payloads, i - 1);
    }
  }

  /** Payload `i` sits in the `mdat` behind the payloads before it. */
  lemma PayloadAt(payloads: seq<seq<Byte>>, i: nat)
    requires i < |payloads|
    ensures var start := |Flatten(payloads[..i])|;
            start + |payloads[i]| <= |Flatten(payloads)|
            && Flatten(payloads)[start..start + |payloads[i]|] == payloads[i]
  {
    FlattenPrefix(payloads, i);
  }

  lemma PayloadsFit(payloads: seq<seq<Byte>>, limit: nat)
    requires |Flatten(payloads)| < limit
    ensures forall p <- payloads :: |p| < limit
  {
    forall i | 0 <= i < |payloads| ensures |payloads[i]| < limit {
      PayloadAt(payloads, i);
    }
  }

  /** The one run a printed fragment parses to. */
  function PrintedRun(trackId: nat, base: nat, duration: nat, payloads: seq<seq<Byte>>): (run: TrackRun) {
    TrackRun(trackId, base, Rows(duration, payloads))
  }

  predicate FragmentFits(trackId: nat, base: nat, duration: nat, payloads: seq<seq<Byte>>) {
    trackId != 0 && 1 <= |payloads| <= MAX_SAMPLES_PER_SEGMENT && base + |payloads| * duration < U64_LIMIT
  }

  /** A printed `traf` is read field by field. */
  lemma TrafOfThree(tfhd: seq<Byte>, tfdt: seq<Byte>, trun: seq<Byte>)
    requires 24 + |tfhd| + |tfdt| + |trun| < U32_LIMIT
    ensures var children := [Box(TFHD, tfhd), Box(TFDT, tfdt), Box(TRUN, trun)];
            var traf := TrafOf(Print(children), 0);
            if TfhdOf(tfhd).Err? || TfdtOf(tfdt).Err? then traf.Err?
            else traf == RunsFrom(children, TfhdOf(tfhd).value, TfdtOf(tfdt).value, 0)
  {
    KindsDiffer();
    PrintThree(Box(TFHD, tfhd), Box(TFDT, tfdt), Box(TRUN, trun));
    ChildOfThree(Box(TFHD, tfhd), Box(TFDT, tfdt), Box(TRUN, trun));
  }

  /** Of the three children of a printed `traf` only the `trun` is a run. */
  lemma OnlyTrun(tfhd: Box, tfdt: Box, trun: Box, defaults: Defaults, base: nat)
    requires tfhd.kind != TRUN && tfdt.kind != TRUN && trun.kind == TRUN
    ensures var runs := RunsFrom([tfhd, tfdt, trun], defaults, base, 0);
            var declared := U32At(trun.payload, 4);
            var samples := TrunOf(trun.payload, defaults);
            if declared.Ok? && declared.value <= MAX_SAMPLES_PER_SEGMENT && samples.Ok?
               && base + Duration(samples.value) < U64_LIMIT
            then runs == Ok(([TrackRun(defaults.trackId, base, samples.value)], declared.value))
            else runs.Err?
  {
    assert [tfhd, tfdt, trun][1..] == [tfdt, trun] && [tfdt, trun][1..] == [trun] && [trun][1..] == [];
    assert RunsFrom([tfhd, tfdt, trun], defaults, base, 0) == RunsFrom([tfdt, trun], defaults, base, 0);
    assert RunsFrom([tfdt, trun], defaults, base, 0) == RunsFrom([trun], defaults, base, 0);
    var samples := TrunOf(trun.payload, defaults);
    if samples.Ok? {
      var run := TrackRun(defaults.trackId, base, samples.value);
      assert [run] + [] == [run];
    }
  }

  lemma RowsLast(duration: nat, payloads: seq<seq<Byte>>)
    ensures Duration(Rows(duration, payloads)) == |payloads| * duration
  {
    RowTotals(duration, payloads, |payloads|);
    assert Rows(duration, payloads)[..|payloads|] == Rows(duration, payloads);
  }

  lemma TrafRoundTrip(trackId: nat, base: nat, duration: nat, payloads: seq<seq<Byte>>)
    requires trackId < U32_LIMIT && base < U64_LIMIT && duration < U32_LIMIT
    requires 80 + 4 * |payloads| + |Flatten(payloads)| < U32_LIMIT
    ensures var traf := TrafOf(TrafBody(trackId, base, duration, payloads), 0);
            if FragmentFits(trackId, base, duration, payloads)
            then traf == Ok(([PrintedRun(trackId, base, duration, payloads)], |payloads|))
            else traf.Err?
  {
    TrafOfThree(TfhdBody(trackId, duration), TfdtBody(base), TrunBody(payloads));
    TfhdRoundTrip(trackId, duration);
    TfdtRoundTrip(base);
    if trackId != 0 {
      KindsDiffer();
      var defaults := Defaults(trackId, duration, 0, 0);
      PayloadsFit(payloads, U32_LIMIT);
      TrunRoundTrip(duration, payloads, defaults);
      RowsLast(duration, payloads);
      OnlyTrun(Box(TFHD, TfhdBody(trackId, duration)), Box(TFDT, TfdtBody(base)), Box(TRUN, TrunBody(payloads)),
               defaults, base);
    }
  }

  lemma OneTraf(traf: seq<Byte>)
    requires 8 + |traf| < U32_LIMIT
    ensures var groups := FragmentGroups(Print([Box(TRAF, traf)]));
            groups == if TrafOf(traf, 0).Ok? then Ok([TrafOf(traf, 0).value.0]) else Err(TrafOf(traf, 0).error)
  {
    var boxes := [Box(TRAF, traf)];
    PrintOne(boxes[0]);
    assert boxes[1..] == [];
    if TrafOf(traf, 0).Ok? {
      var group := TrafOf(traf, 0).value.0;
      assert GroupsFrom([], TrafOf(traf, 0).value.1) == Ok([]);
      assert [group] + [] == [group];
    }
  }

  lemma FragmentRoundTrip(trackId: nat, base: nat, duration: nat, payloads: seq<seq<Byte>>)
    requires trackId < U32_LIMIT && base < U64_LIMIT && duration < U32_LIMIT
    requires 80 + 4 * |payloads| + |Flatten(payloads)| < U32_LIMIT
    ensures var groups := FragmentGroups(MoofBody(trackId, base, duration, payloads));
            if FragmentFits(trackId, base, duration, payloads)
            then groups == Ok([[PrintedRun(trackId, base, duration, payloads)]])
            else groups.Err?
  {
    TrafRoundTrip(trackId, base, duration, payloads);
    MediaLength(trackId, base, duration, payloads);
    OneTraf(TrafBody(trackId, base, duration, payloads));
  }

  // ---- Samples of the printed run -------------------------------------------------------

  function Micros(ticks: nat, timescale: nat): (us: nat)
    requires timescale > 0
  {
    ticks * MICROS / timescale
  }

  /** The sample a payload at a tick stands for. */
  function ExpectedSample(track: TrackInfo, tick: nat, duration: nat, payload: seq<Byte>): (s: EncodedSample)
    requires track.timescale > 0
  {
    EncodedSample(track.trackId, Micros(tick, track.timescale), Micros(tick, track.timescale),
                  Micros(duration, track.timescale), true, payload)
  }

  /** The tick at which sample `i` of a printed run starts. */
  function TickAt(base: nat, duration: nat, i: nat): (tick: nat) {
    base + i * duration
  }

  function Expected(track: TrackInfo, base: nat, duration: nat, payloads: seq<seq<Byte>>, n: nat)
    : (s: seq<EncodedSample>)
    requires track.timescale > 0 && n <= |payloads|
  {
    seq(n, i requires 0 <= i < n => ExpectedSample(track, TickAt(base, duration, i), duration, payloads[i]))
  }

  /** When the first `n` payloads of a printed run are accepted. */
  predicate SamplesFit(track: TrackInfo, base: nat, duration: nat, payloads: seq<seq<Byte>>, n: nat)
    requires track.timescale > 0 && n <= |payloads|
  {
    forall i :: 0 <= i < n ==> SampleFits(track, TickAt(base, duration, i), duration, payloads[i])
  }

  lemma ScaleTimeOfTick(tick: nat, timescale: nat)
    requires timescale > 0 && tick < U64_LIMIT
    ensures var micros := Micros(tick, timescale);
            ScaleTime(tick, timescale) == if micros <= I64_MAX then Ok(micros) else Err(TimestampOverflow)
  {
  }

  lemma ScaleDurationOfTicks(ticks: nat, timescale: nat)
    requires timescale > 0 && ticks < U32_LIMIT
    ensures var micros := Micros(ticks, timescale);
            ScaleDuration(ticks, timescale) == if micros > 0 then Ok(micros) else Err(DurationRoundsToZero)
    ensures ticks == 0 ==> Micros(ticks, timescale) == 0
  {
  }

  /** Whether a payload at a tick is accepted. */
  predicate SampleFits(track: TrackInfo, tick: nat, duration: nat, payload: seq<Byte>)
    requires track.timescale > 0
  {
    payload != [] && Micros(duration, track.timescale) > 0 && Micros(tick, track.timescale) <= I64_MAX
  }

  predicate YieldsSample(row: Result<EncodedSample, Error>, track: TrackInfo, tick: nat, duration: nat,
                         payload: seq<Byte>)
    requires track.timescale > 0
  {
    if SampleFits(track, tick, duration, payload)
    then row == Ok(ExpectedSample(track, tick, duration, payload))
    else row.Err?
  }

  /** A row without flags or composition offset, at a tick within range and inside the `mdat`. */
  lemma PlainSample(track: TrackInfo, tick: nat, duration: nat, mdat: seq<Byte>, offset: nat, payload: seq<Byte>)
    requires track.timescale > 0 && duration < U32_LIMIT && tick + duration < U64_LIMIT
    requires offset + |payload| <= |mdat| && mdat[offset..offset + |payload|] == payload
    ensures YieldsSample(Sample(RunSample(duration, |payload|, 0, 0), track, tick, mdat, offset),
                         track, tick, duration, payload)
  {
    ScaleTimeOfTick(tick, track.timescale);
    ScaleDurationOfTicks(duration, track.timescale);
  }

  lemma TickInRange(base: nat, duration: nat, i: nat, n: nat)
    requires i < n && base + n * duration < U64_LIMIT
    ensures base + i * duration + duration < U64_LIMIT
  {
    Distribute(i, 1, duration);
    Distribute(i + 1, n - (i + 1), duration);
  }

  /** Row `i` of the printed run starts at its tick and reads payload `i`. */
  lemma PrintedRow(track: TrackInfo, base: nat, duration: nat, payloads: seq<seq<Byte>>, i: nat)
    requires track.timescale > 0 && i < |payloads|
    ensures RowSample(PrintedRun(track.trackId, base, duration, payloads), track, Flatten(payloads), 0, i)
            == Sample(RunSample(duration, |payloads[i]|, 0, 0), track, StartTick(Rows(duration, payloads), base, i),
                      Flatten(payloads), |Flatten(payloads[..i])|)
  {
    RowTotals(duration, payloads, i);
  }

  lemma TickOfRow(base: nat, duration: nat, payloads: seq<seq<Byte>>, i: nat)
    requires i < |payloads| && base + |payloads| * duration < U64_LIMIT
    ensures TickAt(base, duration, i) == StartTick(Rows(duration, payloads), base, i)
    ensures TickAt(base, duration, i) + duration < U64_LIMIT
  {
    RowTotals(duration, payloads, i);
    TickInRange(base, duration, i, |payloads|);
  }

  lemma SampleAtTick(track: TrackInfo, base: nat, duration: nat, payloads: seq<seq<Byte>>, i: nat, tick: nat)
    requires track.timescale > 0 && i < |payloads| && duration < U32_LIMIT
    requires tick == StartTick(Rows(duration, payloads), base, i) && tick + duration < U64_LIMIT
    ensures YieldsSample(
              RowSample(PrintedRun(track.trackId, base, duration, payloads), track, Flatten(payloads), 0, i),
              track, tick, duration, payloads[i])
  {
    PrintedRow(track, base, duration, payloads, i);
    PayloadAt(payloads, i);
    PlainSample(track, tick, duration, Flatten(payloads), |Flatten(payloads[..i])|, payloads[i]);
  }

  lemma SampleRoundTrip(track: TrackInfo, base: nat, duration: nat, payloads: seq<seq<Byte>>, i: nat)
    requires track.timescale > 0 && i < |payloads| && duration < U32_LIMIT
    requires base + |payloads| * duration < U64_LIMIT
    ensures YieldsSample(
              RowSample(PrintedRun(track.trackId, base, duration, payloads), track, Flatten(payloads), 0, i),
              track, TickAt(base, duration, i), duration, payloads[i])
  {
    TickOfRow(base, duration, payloads, i);
    SampleAtTick(track, base, duration, payloads, i, TickAt(base, duration, i));
  }

  predicate LastFits(track: TrackInfo, base: nat, duration: nat, payloads: seq<seq<Byte>>, n: nat)
    requires track.timescale > 0 && 0 < n <= |payloads|
  {
    SampleFits(track, TickAt(base, duration, n - 1), duration, payloads[n - 1])
  }

  lemma ExpectedGrows(track: TrackInfo, base: nat, duration: nat, payloads: seq<seq<Byte>>, n: nat,
                      row: Result<EncodedSample, Error>)
    requires track.timescale > 0 && 0 < n <= |payloads|
    requires YieldsSample(row, track, TickAt(base, duration, n - 1), duration, payloads[n - 1])
    ensures SamplesFit(track, base, duration, payloads, n)
            <==> SamplesFit(track, base, duration, payloads, n - 1) && LastFits(track, base, duration, payloads, n)
    ensures row.Ok? <==> LastFits(track, base, duration, payloads, n)
    ensures row.Ok? ==> Expected(track, base, duration, payloads, n)
                        == Expected(track, base, duration, payloads, n - 1) + [row.value]
  {
  }

  predicate PrintedOutput(track: TrackInfo, base: nat, duration: nat, payloads: seq<seq<Byte>>, n: nat)
    requires track.timescale > 0 && n <= |payloads|
  {
    var run := PrintedRun(track.trackId, base, duration, payloads);
    if SamplesFit(track, base, duration, payloads, n)
    then Emits(run, track, Flatten(payloads), 0, n, Expected(track, base, duration, payloads, n))
    else RunOutput(run, track, Flatten(payloads), 0, n).Err?
  }

  lemma {:induction false} PrintedRunOutput(track: TrackInfo, base: nat, duration: nat, payloads: seq<seq<Byte>>, n: nat)
    requires track.timescale > 0 && n <= |payloads| && duration < U32_LIMIT
    requires base + |payloads| * duration < U64_LIMIT
    ensures PrintedOutput(track, base, duration, payloads, n)
  {
    if n == 0 {
      assert Expected(track, base, duration, payloads, 0) == [];
    } else {
      var run := PrintedRun(track.trackId, base, duration, payloads);
      var row := RowSample(run, track, Flatten(payloads), 0, n - 1);
      PrintedRunOutput(track, base, duration, payloads, n - 1);
      SampleRoundTrip(track, base, duration, payloads, n - 1);
      ExpectedGrows(track, base, duration, payloads, n, row);
      if SamplesFit(track, base, duration, payloads, n - 1) {
        EmitStep(run, track, Flatten(payloads), 0, n - 1, Expected(track, base, duration, payloads, n - 1));
      } else {
        RunErrorSticks(run, track, Flatten(payloads), 0, n - 1, n);
      }
    }
  }

  // ---- The round trip -------------------------------------------------------------------

  /** Everything a caller has to check before printing a segment it wants to read back. */
  predicate MediaFits(trackId: nat, base: nat, duration: nat, payloads: seq<seq<Byte>>, tracks: seq<TrackInfo>) {
    && 1 <= |tracks| <= MAX_TRACKS && (forall t <- tracks :: t.timescale > 0)
    && |PrintMedia(trackId, base, duration, payloads)| <= MAX_SEGMENT_BYTES
    && FragmentFits(trackId, base, duration, payloads)
    && TrackWithId(tracks, trackId).Ok?
    && SamplesFit(TrackWithId(tracks, trackId).value, base, duration, payloads, |payloads|)
  }

  lemma OneRunOutput(run: TrackRun, tracks: seq<TrackInfo>, mdat: seq<Byte>)
    requires forall t <- tracks :: t.timescale > 0
    ensures var track := TrackWithId(tracks, run.trackId);
            RunsOutput([run], tracks, mdat, 1)
            == if track.Err? then Err(track.error) else RunOutput(run, track.value, mdat, 0, |run.samples|)
    ensures AllSamples([run]) == run.samples && Flatten([[run]]) == [run]
  {
    assert [run][..0] == [] && [[run]][1..] == [];
    assert [] + run.samples == run.samples && [run] + [] == [run];
    var track := TrackWithId(tracks, run.trackId);
    if track.Ok? && RunOutput(run, track.value, mdat, 0, |run.samples|).Ok? {
      var here := RunOutput(run, track.value, mdat, 0, |run.samples|).value;
      assert [] + here == here;
    }
  }

  /** A segment of one `moof` and one `mdat`: what is left of the parser once the boxes are read. */
  lemma TwoBoxSegment(moof: seq<Byte>, mdat: seq<Byte>, tracks: seq<TrackInfo>)
    requires 1 <= |tracks| <= MAX_TRACKS && forall t <- tracks :: t.timescale > 0
    requires 16 + |moof| + |mdat| <= MAX_SEGMENT_BYTES
    ensures var segment := MediaSegment(Print([Box(MOOF, moof), Box(MDAT, mdat)]), tracks);
            if FragmentGroups(moof).Err? then segment.Err?
            else segment == SegmentOfRuns(Flatten(FragmentGroups(moof).value), tracks, mdat)
  {
    KindsDiffer();
    PrintTwo(Box(MOOF, moof), Box(MDAT, mdat));
    ChildOfTwo(Box(MOOF, moof), Box(MDAT, mdat));
  }

  lemma RunUsesMdat(duration: nat, payloads: seq<seq<Byte>>)
    ensures TotalSize(Rows(duration, payloads)) == |Flatten(payloads)|
  {
    RowTotals(duration, payloads, |payloads|);
    assert Rows(duration, payloads)[..|payloads|] == Rows(duration, payloads) && payloads[..|payloads|] == payloads;
  }

  lemma PrintedSegment(trackId: nat, base: nat, duration: nat, payloads: seq<seq<Byte>>, tracks: seq<TrackInfo>)
    requires trackId < U32_LIMIT && base < U64_LIMIT && duration < U32_LIMIT
    requires 1 <= |tracks| <= MAX_TRACKS && forall t <- tracks :: t.timescale > 0
    requires |PrintMedia(trackId, base, duration, payloads)| <= MAX_SEGMENT_BYTES
    ensures var run := PrintedRun(trackId, base, duration, payloads);
            var segment := MediaSegment(PrintMedia(trackId, base, duration, payloads), tracks);
            if FragmentFits(trackId, base, duration, payloads)
            then segment == RunsOutput([run], tracks, Flatten(payloads), 1)
            else segment.Err?
  {
    MediaLength(trackId, base, duration, payloads);
    TwoBoxSegment(MoofBody(trackId, base, duration, payloads), Flatten(payloads), tracks);
    FragmentRoundTrip(trackId, base, duration, payloads);
    if FragmentFits(trackId, base, duration, payloads) {
      var run := PrintedRun(trackId, base, duration, payloads);
      OneRunOutput(run, tracks, Flatten(payloads));
      RunUsesMdat(duration, payloads);
    }
  }

  /**
   * Parsing undoes printing: a printed media segment yields one sample a payload, with the payload's
   * bytes and the decode time `base + i * duration` in microseconds, if and only if the segment fits
   * the parser's budgets; otherwise it is rejected.
   */
  lemma MediaRoundTrip(trackId: nat, base: nat, duration: nat, payloads: seq<seq<Byte>>, tracks: seq<TrackInfo>)
    requires trackId < U32_LIMIT && base < U64_LIMIT && duration < U32_LIMIT
    ensures var segment := MediaSegment(PrintMedia(trackId, base, duration, payloads), tracks);
            if MediaFits(trackId, base, duration, payloads, tracks)
            then segment == Ok(Expected(TrackWithId(tracks, trackId).value, base, duration, payloads, |payloads|))
            else segment.Err?
  {
    if 1 <= |tracks| <= MAX_TRACKS && (forall t <- tracks :: t.timescale > 0)
       && |PrintMedia(trackId, base, duration, payloads)| <= MAX_SEGMENT_BYTES {
      PrintedSegment(trackId, base, duration, payloads, tracks);
      if FragmentFits(trackId, base, duration, payloads) {
        FittingRun(trackId, base, duration, payloads, tracks);
      }
    } else {
      RejectedEarly(PrintMedia(trackId, base, duration, payloads), tracks);
    }
  }

  lemma RejectedEarly(bytes: seq<Byte>, tracks: seq<TrackInfo>)
    requires !(1 <= |tracks| <= MAX_TRACKS && (forall t <- tracks :: t.timescale > 0) && |bytes| <= MAX_SEGMENT_BYTES)
    ensures MediaSegment(bytes, tracks).Err?
  {
  }

  lemma FittingRun(trackId: nat, base: nat, duration: nat, payloads: seq<seq<Byte>>, tracks: seq<TrackInfo>)
    requires duration < U32_LIMIT && (forall t <- tracks :: t.timescale > 0)
    requires FragmentFits(trackId, base, duration, payloads)
    ensures var track := TrackWithId(tracks, trackId);
            var output := RunsOutput([PrintedRun(trackId, base, duration, payloads)], tracks, Flatten(payloads), 1);
            if track.Ok? && SamplesFit(track.value, base, duration, payloads, |payloads|)
            then output == Ok(Expected(track.value, base, duration, payloads, |payloads|))
            else output.Err?
  {
    OneRunOutput(PrintedRun(trackId, base, duration, payloads), tracks, Flatten(payloads));
    if TrackWithId(tracks, trackId).Ok? {
      PrintedRunOutput(TrackWithId(tracks, trackId).value, base, duration, payloads, |payloads|);
    }
  }
}
