/** What every accepted media segment guarantees: payload conservation and drift-free timestamps. */
module IsoBmffTiming {
  import opened Bytes
  import opened Division
  import opened IsoBmff
  import opened IsoBoxes
  import opened Wrappers

  // ---- Initialization segments ----------------------------------------------------------

  predicate SortedById(tracks: seq<TrackInfo>) {
    forall i, j :: 0 <= i < j < |tracks| ==> tracks[i].trackId <= tracks[j].trackId
  }

  lemma {:induction false} InsertAddsOne(track: TrackInfo, sorted: seq<TrackInfo>)
    ensures multiset(InsertById(track, sorted)) == multiset{track} + multiset(sorted)
  {
    if sorted != [] && track.trackId > sorted[0].trackId {
      InsertAddsOne(track, sorted[1..]);
      assert sorted == [sorted[0]] + sorted[1..];
    }
  }

  lemma ConsSorted(first: TrackInfo, rest: seq<TrackInfo>)
    requires SortedById(rest) && forall k :: 0 <= k < |rest| ==> first.trackId <= rest[k].trackId
    ensures SortedById([first] + rest)
  {
  }

  lemma {:induction false} InsertBounded(track: TrackInfo, sorted: seq<TrackInfo>, low: nat)
    requires low <= track.trackId && forall k :: 0 <= k < |sorted| ==> low <= sorted[k].trackId
    ensures forall k :: 0 <= k < |InsertById(track, sorted)| ==> low <= InsertById(track, sorted)[k].trackId
  {
    if sorted != [] && track.trackId > sorted[0].trackId {
      InsertBounded(track, sorted[1..], low);
    }
  }

  lemma {:induction false} InsertKeepsOrder(track: TrackInfo, sorted: seq<TrackInfo>)
    requires SortedById(sorted)
    ensures SortedById(InsertById(track, sorted))
  {
    if sorted == [] || track.trackId <= sorted[0].trackId {
      ConsSorted(track, sorted);
    } else {
      InsertKeepsOrder(track, sorted[1..]);
      InsertBounded(track, sorted[1..], sorted[0].trackId);
      ConsSorted(sorted[0], InsertById(track, sorted[1..]));
    }
  }

  lemma {:induction false} SortOrders(tracks: seq<TrackInfo>)
    ensures SortedById(SortById(tracks))
    ensures multiset(SortById(tracks)) == multiset(tracks)
  {
    if tracks != [] {
      SortOrders(tracks[1..]);
      InsertKeepsOrder(tracks[0], SortById(tracks[1..]));
      InsertAddsOne(tracks[0], SortById(tracks[1..]));
      assert tracks == [tracks[0]] + tracks[1..];
    }
  }

  lemma {:induction false} TracksWithinBudget(boxes: seq<Box>, count: nat)
    requires TracksFrom(boxes, count).Ok? && count <= MAX_TRACKS
    ensures count + |TracksFrom(boxes, count).value| <= MAX_TRACKS
    ensures forall t <- TracksFrom(boxes, count).value :: t.trackId != 0 && 1 <= t.timescale <= MAX_TIMESCALE
  {
    if boxes == [] {
    } else if boxes[0].kind != TRAK {
      TracksWithinBudget(boxes[1..], count);
    } else {
      TracksWithinBudget(boxes[1..], count + 1);
    }
  }

  /**
   * An accepted initialization segment yields its `trak` boxes' tracks, each once, in strictly
   * increasing order of non-zero ids, at most 32 of them, all with usable timescales.
   */
  lemma InitSegmentTracks(bytes: seq<Byte>, tracks: seq<TrackInfo>)
    requires InitSegment(bytes) == Ok(tracks)
    ensures 1 <= |tracks| <= MAX_TRACKS
    ensures UnorderedTracks(bytes).Ok? && multiset(tracks) == multiset(UnorderedTracks(bytes).value)
    ensures forall i, j :: 0 <= i < j < |tracks| ==> tracks[i].trackId < tracks[j].trackId
    ensures forall t <- tracks :: t.trackId != 0 && 1 <= t.timescale <= MAX_TIMESCALE
  {
    var found := UnorderedTracks(bytes).value;
    TracksWithinBudget(BoxesOf(Child(BoxesOf(bytes).value, MOOV).value).value, 0);
    SortOrders(found);
    StrictlySorted(tracks);
    SameMembers(tracks, found);
  }

  lemma StrictlySorted(tracks: seq<TrackInfo>)
    requires SortedById(tracks) && !AdjacentDuplicate(tracks)
    ensures forall i, j :: 0 <= i < j < |tracks| ==> tracks[i].trackId < tracks[j].trackId
  {
    forall i, j | 0 <= i < j < |tracks| ensures tracks[i].trackId < tracks[j].trackId {
      assert tracks[i].trackId <= tracks[i + 1].trackId <= tracks[j].trackId;
    }
  }

  lemma SameMembers(a: seq<TrackInfo>, b: seq<TrackInfo>)
    requires multiset(a) == multiset(b)
    ensures |a| == |b| && forall t <- a :: t in b
  {
    assert |a| == |multiset(a)| && |b| == |multiset(b)|;
    forall t | t in a ensures t in b {
      assert t in multiset(a);
    }
  }

  // ---- Conservation ---------------------------------------------------------------------

  function Data(samples: seq<EncodedSample>): (d: seq<Byte>) {
    if samples == [] then [] else Data(samples[..|samples| - 1]) + samples[|samples| - 1].data
  }

  lemma Associate(a: seq<Byte>, b: seq<Byte>, c: seq<Byte>)
    ensures a + b + c == a + (b + c)
  {
  }

  lemma {:induction false} DataAppends(a: seq<EncodedSample>, b: seq<EncodedSample>)
    ensures Data(a + b) == Data(a) + Data(b)
  {
    if b == [] {
      assert a + b == a;
    } else {
      var front, last := b[..|b| - 1], b[|b| - 1];
      DataAppends(a, front);
      assert (a + b)[..|a + b| - 1] == a + front && (a + b)[|a + b| - 1] == last;
      Associate(Data(a), Data(front), last.data);
    }
  }

  /** `sample` is what row `i` of the run yields. */
  predicate IsRow(run: TrackRun, track: TrackInfo, mdat: seq<Byte>, offset: nat, i: nat, sample: EncodedSample)
    requires track.timescale > 0 && i < |run.samples|
  {
    RowSample(run, track, mdat, offset, i) == Ok(sample) && |sample.data| == run.samples[i].size > 0
  }

  lemma LastRow(run: TrackRun, track: TrackInfo, mdat: seq<Byte>, offset: nat, n: nat, output: seq<EncodedSample>)
    requires track.timescale > 0 && 0 < n <= |run.samples| && Emits(run, track, mdat, offset, n, output)
    ensures |output| == n && Emits(run, track, mdat, offset, n - 1, output[..n - 1])
    ensures IsRow(run, track, mdat, offset, n - 1, output[n - 1])
  {
    var before := RunOutput(run, track, mdat, offset, n - 1).value;
    assert output[..n - 1] == before;
  }

  /** Every output sample is its row's. */
  lemma {:induction false} RunRows(run: TrackRun, track: TrackInfo, mdat: seq<Byte>, offset: nat, n: nat,
                                   output: seq<EncodedSample>)
    requires track.timescale > 0 && n <= |run.samples|
    requires Emits(run, track, mdat, offset, n, output)
    ensures |output| == n
    ensures forall i :: 0 <= i < n ==> IsRow(run, track, mdat, offset, i, output[i])
  {
    if n > 0 {
      LastRow(run, track, mdat, offset, n, output);
      RunRows(run, track, mdat, offset, n - 1, output[..n - 1]);
    }
  }

  /** A row reads the bytes where the rows before it end. */
  lemma RowReads(run: TrackRun, track: TrackInfo, mdat: seq<Byte>, offset: nat, i: nat, sample: EncodedSample)
    requires track.timescale > 0 && i < |run.samples| && IsRow(run, track, mdat, offset, i, sample)
    ensures var start := offset + TotalSize(run.samples[..i]);
            start + run.samples[i].size <= |mdat| && sample.data == mdat[start..start + run.samples[i].size]
  {
  }

  lemma SliceJoins(s: seq<Byte>, i: nat, j: nat, k: nat)
    requires i <= j <= k <= |s|
    ensures s[i..j] + s[j..k] == s[i..k]
  {
  }

  lemma {:induction false} RunConserves(run: TrackRun, track: TrackInfo, mdat: seq<Byte>, offset: nat, n: nat,
                                        output: seq<EncodedSample>)
    requires track.timescale > 0 && n <= |run.samples| && offset <= |mdat|
    requires Emits(run, track, mdat, offset, n, output)
    ensures var end := offset + TotalSize(run.samples[..n]);
            end <= |mdat| && Data(output) == mdat[offset..end]
  {
    if n > 0 {
      var before, last := output[..n - 1], output[n - 1];
      LastRow(run, track, mdat, offset, n, output);
      RunConserves(run, track, mdat, offset, n - 1, before);
      SamplePrefix(run.samples, n - 1);
      RowReads(run, track, mdat, offset, n - 1, last);
      var start := offset + TotalSize(run.samples[..n - 1]);
      SliceJoins(mdat, offset, start, start + run.samples[n - 1].size);
      assert Data(output) == Data(before) + last.data;
    }
  }

  predicate EmitsRuns(runs: seq<TrackRun>, tracks: seq<TrackInfo>, mdat: seq<Byte>, n: nat, output: seq<EncodedSample>)
    requires n <= |runs|
    requires forall t <- tracks :: t.timescale > 0
  {
    RunsOutput(runs, tracks, mdat, n) == Ok(output)
  }

  /** Run `n - 1`'s own output, behind the output of the runs before it. */
  lemma LastRun(runs: seq<TrackRun>, tracks: seq<TrackInfo>, mdat: seq<Byte>, n: nat, output: seq<EncodedSample>)
    returns (track: TrackInfo, before: seq<EncodedSample>, here: seq<EncodedSample>)
    requires 0 < n <= |runs| && (forall t <- tracks :: t.timescale > 0)
    requires EmitsRuns(runs, tracks, mdat, n, output)
    ensures TrackWithId(tracks, runs[n - 1].trackId) == Ok(track)
    ensures EmitsRuns(runs, tracks, mdat, n - 1, before) && output == before + here
    ensures Emits(runs[n - 1], track, mdat, TotalSize(AllSamples(runs[..n - 1])), |runs[n - 1].samples|, here)
  {
    track := TrackWithId(tracks, runs[n - 1].trackId).value;
    before := RunsOutput(runs, tracks, mdat, n - 1).value;
    here := RunOutput(runs[n - 1], track, mdat, TotalSize(AllSamples(runs[..n - 1])), |runs[n - 1].samples|).value;
  }

  predicate NoneEmpty(output: seq<EncodedSample>) {
    forall i :: 0 <= i < |output| ==> |output[i].data| > 0
  }

  lemma Joined(s: seq<Byte>, i: nat, j: nat)
    requires i <= j <= |s|
    ensures s[..i] + s[i..j] == s[..j]
  {
  }

  /** Adds one run's bytes to the bytes of the runs before it. */
  lemma RunConservesAll(run: TrackRun, track: TrackInfo, mdat: seq<Byte>, offset: nat, before: seq<EncodedSample>,
                        here: seq<EncodedSample>)
    requires track.timescale > 0 && offset <= |mdat| && Data(before) == mdat[..offset]
    requires Emits(run, track, mdat, offset, |run.samples|, here)
    ensures var end := offset + TotalSize(run.samples);
            end <= |mdat| && Data(before + here) == mdat[..end]
    ensures |here| == |run.samples| && NoneEmpty(here)
  {
    RunConserves(run, track, mdat, offset, |run.samples|, here);
    assert run.samples[..|run.samples|] == run.samples;
    Joined(mdat, offset, offset + TotalSize(run.samples));
    DataAppends(before, here);
    RunHasNoEmpty(run, track, mdat, offset, here);
  }

  lemma RunHasNoEmpty(run: TrackRun, track: TrackInfo, mdat: seq<Byte>, offset: nat, here: seq<EncodedSample>)
    requires track.timescale > 0 && Emits(run, track, mdat, offset, |run.samples|, here)
    ensures |here| == |run.samples| && NoneEmpty(here)
  {
    RunRows(run, track, mdat, offset, |run.samples|, here);
    forall i | 0 <= i < |here| ensures |here[i].data| > 0 {
      assert IsRow(run, track, mdat, offset, i, here[i]);
    }
  }

  lemma {:induction false} RunsConserve(runs: seq<TrackRun>, tracks: seq<TrackInfo>, mdat: seq<Byte>, n: nat,
                                        output: seq<EncodedSample>)
    requires n <= |runs| && (forall t <- tracks :: t.timescale > 0)
    requires EmitsRuns(runs, tracks, mdat, n, output)
    ensures var end := TotalSize(AllSamples(runs[..n]));
            end <= |mdat| && Data(output) == mdat[..end]
    ensures |output| == |AllSamples(runs[..n])|
    ensures NoneEmpty(output)
  {
    if n > 0 {
      var track, before, here := LastRun(runs, tracks, mdat, n, output);
      RunsConserve(runs, tracks, mdat, n - 1, before);
      RunPrefix(runs, n - 1);
      RunConservesAll(runs[n - 1], track, mdat, TotalSize(AllSamples(runs[..n - 1])), before, here);
    }
  }

  predicate Accepted(bytes: seq<Byte>, tracks: seq<TrackInfo>, output: seq<EncodedSample>) {
    MediaSegment(bytes, tracks) == Ok(output)
  }

  /** The pieces an accepted media segment is made of. */
  lemma SegmentParts(bytes: seq<Byte>, tracks: seq<TrackInfo>, output: seq<EncodedSample>)
    returns (moof: seq<Byte>, mdat: seq<Byte>, groups: seq<seq<TrackRun>>)
    requires Accepted(bytes, tracks, output)
    ensures BoxesOf(bytes).Ok? && Child(BoxesOf(bytes).value, MOOF) == Ok(moof)
    ensures Child(BoxesOf(bytes).value, MDAT) == Ok(mdat)
    ensures FragmentGroups(moof) == Ok(groups)
    ensures forall t <- tracks :: t.timescale > 0
    ensures 1 <= |AllSamples(Flatten(groups))| <= MAX_SAMPLES_PER_SEGMENT
    ensures EmitsRuns(Flatten(groups), tracks, mdat, |Flatten(groups)|, output)
    ensures TotalSize(AllSamples(Flatten(groups))) == |mdat|
  {
    moof := Child(BoxesOf(bytes).value, MOOF).value;
    mdat := Child(BoxesOf(bytes).value, MDAT).value;
    groups := FragmentGroups(moof).value;
  }

  /**
   * A parsed media segment accounts for every `mdat` byte: the samples' data, concatenated, is
   * the `mdat` payload, no sample is empty, and the sample count is within budget.
   */
  lemma SegmentConservesPayload(bytes: seq<Byte>, tracks: seq<TrackInfo>, output: seq<EncodedSample>)
    requires Accepted(bytes, tracks, output)
    ensures BoxesOf(bytes).Ok? && Child(BoxesOf(bytes).value, MDAT) == Ok(Data(output))
    ensures 1 <= |output| <= MAX_SAMPLES_PER_SEGMENT
    ensures NoneEmpty(output)
  {
    var moof, mdat, groups := SegmentParts(bytes, tracks, output);
    var runs := Flatten(groups);
    assert runs[..|runs|] == runs && mdat[..|mdat|] == mdat;
    RunsConserve(runs, tracks, mdat, |runs|, output);
  }

  // ---- Timestamps -----------------------------------------------------------------------

  /** The tick at which sample `i` starts. */
  function StartTick(samples: seq<RunSample>, base: nat, i: nat): (t: nat)
    requires i <= |samples|
  {
    base + Duration(samples[..i])
  }

  /** `us` is a number of ticks in microseconds, the fraction dropped. */
  predicate Truncated(us: int, ticks: int, timescale: nat) {
    if ticks >= 0 then us * timescale <= ticks * MICROS < (us + 1) * timescale
    else (us - 1) * timescale < ticks * MICROS <= us * timescale
  }

  /** The sample of a row that starts at a tick: its presentation time, its track, and bit 16 of its flags. */
  predicate Describes(sample: EncodedSample, row: RunSample, tick: nat, track: TrackInfo) {
    && sample.trackId == track.trackId
    && Truncated(sample.presentationTimestampUs, tick + row.compositionOffset, track.timescale)
    && Truncated(sample.durationUs, row.duration, track.timescale)
    && (sample.keyframe <==> row.flags / 0x1_0000 % 2 == 0)
    && |sample.data| == row.size
  }

  predicate StampedAt(sample: EncodedSample, tick: nat, row: RunSample, track: TrackInfo)
    requires track.timescale > 0
  {
    && sample.decodeTimestampUs == tick * MICROS / track.timescale
    && sample.durationUs == row.duration * MICROS / track.timescale
    && sample.durationUs > 0 && Describes(sample, row, tick, track)
  }

  /** Output `i` carries the time at which the samples before it end, in microseconds rounded down. */
  predicate Timed(output: seq<EncodedSample>, samples: seq<RunSample>, base: nat, track: TrackInfo)
    requires track.timescale > 0
  {
    && |output| == |samples|
    && forall i :: 0 <= i < |output| ==>
         StampedAt(output[i], StartTick(samples, base, i), samples[i], track)
  }

  lemma TruncatedDown(ticks: nat, timescale: nat)
    requires timescale > 0
    ensures Truncated(ticks * MICROS / timescale, ticks, timescale)
  {
    DivBounds(ticks * MICROS, timescale);
  }

  lemma TruncatedUp(ticks: nat, timescale: nat)
    requires timescale > 0 && ticks > 0
    ensures Truncated(0 - ticks * MICROS / timescale, 0 - ticks, timescale)
  {
    var q := ticks * MICROS / timescale;
    DivBounds(ticks * MICROS, timescale);
    assert (-q) * timescale == -(q * timescale) && (-q - 1) * timescale == -((q + 1) * timescale);
  }

  lemma ScaledIsTruncated(ticks: int, timescale: nat)
    requires timescale > 0 && ScaleTime(ticks, timescale).Ok?
    ensures Truncated(ScaleTime(ticks, timescale).value, ticks, timescale)
  {
    if ticks >= 0 {
      TruncatedDown(ticks, timescale);
    } else {
      TruncatedUp(-ticks, timescale);
    }
  }

  lemma RowIsStamped(run: TrackRun, track: TrackInfo, mdat: seq<Byte>, offset: nat, i: nat)
    requires track.timescale > 0 && i < |run.samples|
    requires RowSample(run, track, mdat, offset, i).Ok?
    ensures StampedAt(RowSample(run, track, mdat, offset, i).value,
                      StartTick(run.samples, run.baseDecodeTime, i), run.samples[i], track)
  {
    var row, tick := run.samples[i], StartTick(run.samples, run.baseDecodeTime, i);
    ScaledIsTruncated(tick + row.compositionOffset, track.timescale);
    TruncatedDown(row.duration, track.timescale);
  }

  lemma RunIsTimed(run: TrackRun, track: TrackInfo, mdat: seq<Byte>, offset: nat, output: seq<EncodedSample>)
    requires track.timescale > 0
    requires Emits(run, track, mdat, offset, |run.samples|, output)
    ensures Timed(output, run.samples, run.baseDecodeTime, track)
  {
    RunRows(run, track, mdat, offset, |run.samples|, output);
    forall i | 0 <= i < |output|
      ensures StampedAt(output[i], StartTick(run.samples, run.baseDecodeTime, i), run.samples[i],
                        track)
    {
      assert IsRow(run, track, mdat, offset, i, output[i]);
      RowIsStamped(run, track, mdat, offset, i);
    }
  }

  lemma {:induction false} DurationAppends(a: seq<RunSample>, b: seq<RunSample>)
    ensures Duration(a + b) == Duration(a) + Duration(b)
  {
    if b == [] {
      assert a + b == a;
    } else {
      DurationAppends(a, b[..|b| - 1]);
      assert (a + b)[..|a + b| - 1] == a + b[..|b| - 1];
    }
  }

  lemma PrefixOfJoin<T>(a: seq<T>, b: seq<T>, i: nat)
    requires i <= |a + b|
    ensures (a + b)[..i] == if i < |a| then a[..i] else a + b[..i - |a|]
  {
  }

  lemma StartTickAppends(a: seq<RunSample>, b: seq<RunSample>, base: nat, i: nat)
    requires i <= |a + b|
    ensures StartTick(a + b, base, i)
            == if i < |a| then StartTick(a, base, i) else StartTick(b, base + Duration(a), i - |a|)
  {
    PrefixOfJoin(a, b, i);
    if i >= |a| {
      DurationAppends(a, b[..i - |a|]);
    }
  }

  lemma TimedAppends(o1: seq<EncodedSample>, s1: seq<RunSample>, o2: seq<EncodedSample>, s2: seq<RunSample>,
                     base: nat, track: TrackInfo)
    requires track.timescale > 0
    requires Timed(o1, s1, base, track) && Timed(o2, s2, base + Duration(s1), track)
    ensures Timed(o1 + o2, s1 + s2, base, track)
  {
    var o, s := o1 + o2, s1 + s2;
    forall i | 0 <= i < |o|
      ensures StampedAt(o[i], StartTick(s, base, i), s[i], track)
    {
      StartTickAppends(s1, s2, base, i);
      if i >= |s1| {
        assert o[i] == o2[i - |s1|] && s[i] == s2[i - |s1|];
      } else {
        assert o[i] == o1[i] && s[i] == s1[i];
      }
    }
  }

  /** The runs of one track fragment follow one another without a gap. */
  predicate Chained(runs: seq<TrackRun>, trackId: nat, base: nat) {
    forall k :: 0 <= k < |runs| ==>
      runs[k].trackId == trackId && runs[k].baseDecodeTime == base + Duration(AllSamples(runs[..k]))
  }

  lemma {:induction false} AllSamplesPrepends(run: TrackRun, runs: seq<TrackRun>)
    ensures AllSamples([run] + runs) == run.samples + AllSamples(runs)
  {
    if runs == [] {
      assert ([run] + runs)[..0] == [];
    } else {
      AllSamplesPrepends(run, runs[..|runs| - 1]);
      assert ([run] + runs)[..|runs|] == [run] + runs[..|runs| - 1];
      assert run.samples + (AllSamples(runs[..|runs| - 1]) + runs[|runs| - 1].samples)
          == (run.samples + AllSamples(runs[..|runs| - 1])) + runs[|runs| - 1].samples;
    }
  }

  /** A run in front of the runs that start where it ends. */
  lemma ChainPrepends(run: TrackRun, rest: seq<TrackRun>)
    requires Chained(rest, run.trackId, run.baseDecodeTime + Duration(run.samples))
    ensures Chained([run] + rest, run.trackId, run.baseDecodeTime)
  {
    var all := [run] + rest;
    forall k | 1 <= k < |all|
      ensures Duration(AllSamples(all[..k])) == Duration(run.samples) + Duration(AllSamples(rest[..k - 1]))
    {
      assert all[..k] == [run] + rest[..k - 1];
      AllSamplesPrepends(run, rest[..k - 1]);
      DurationAppends(run.samples, AllSamples(rest[..k - 1]));
    }
    assert all[..0] == [];
  }

  lemma {:induction false} TrafIsChained(children: seq<Box>, defaults: Defaults, time: nat, cumulative: nat)
    requires RunsFrom(children, defaults, time, cumulative).Ok?
    ensures Chained(RunsFrom(children, defaults, time, cumulative).value.0, defaults.trackId, time)
  {
    if children == [] {
    } else if children[0].kind != TRUN {
      TrafIsChained(children[1..], defaults, time, cumulative);
    } else {
      var declared := U32At(children[0].payload, 4).value;
      var samples := TrunOf(children[0].payload, defaults).value;
      TrafIsChained(children[1..], defaults, time + Duration(samples), cumulative + declared);
      ChainPrepends(TrackRun(defaults.trackId, time, samples),
                    RunsFrom(children[1..], defaults, time + Duration(samples), cumulative + declared).value.0);
    }
  }

  ghost predicate FragmentsOk(fragments: seq<seq<EncodedSample>>, groups: seq<seq<TrackRun>>, tracks: seq<TrackInfo>)
  {
    && |fragments| <= |groups|
    && forall k :: 0 <= k < |fragments| ==> FragmentOk(fragments[k], groups[k], tracks)
  }

  lemma FragmentsGrow(front: seq<seq<EncodedSample>>, here: seq<EncodedSample>, groups: seq<seq<TrackRun>>,
                      tracks: seq<TrackInfo>)
    requires FragmentsOk(front, groups, tracks) && |front| < |groups| && FragmentOk(here, groups[|front|], tracks)
    ensures FragmentsOk(front + [here], groups, tracks)
  {
  }

  ghost predicate AllChained(groups: seq<seq<TrackRun>>) {
    forall g <- groups :: exists trackId: nat, base: nat :: Chained(g, trackId, base)
  }

  lemma {:induction false} GroupsAreChained(boxes: seq<Box>, cumulative: nat, groups: seq<seq<TrackRun>>)
    requires GroupsFrom(boxes, cumulative) == Ok(groups)
    ensures AllChained(groups)
  {
    if boxes == [] {
    } else if boxes[0].kind != TRAF {
      GroupsAreChained(boxes[1..], cumulative, groups);
    } else {
      var traf := TrafOf(boxes[0].payload, cumulative).value;
      GroupsAreChained(boxes[1..], traf.1, groups[1..]);
      var children := BoxesOf(boxes[0].payload).value;
      var defaults := TfhdOf(Child(children, TFHD).value).value;
      var base := TfdtOf(Child(children, TFDT).value).value;
      TrafIsChained(children, defaults, base, cumulative);
      assert Chained(groups[0], defaults.trackId, base);
      assert groups == [groups[0]] + groups[1..];
    }
  }

  /**
   * The timestamps of one track fragment: sample `i` is decoded less than one microsecond before
   * its exact time, and the next one comes exactly `durationUs` or `durationUs + 1` later.
   */
  ghost predicate DriftFree(output: seq<EncodedSample>, samples: seq<RunSample>, base: nat, timescale: nat) {
    && |output| == |samples|
    && (forall i :: 0 <= i < |output| ==>
          var exact := StartTick(samples, base, i) * MICROS;
          output[i].decodeTimestampUs * timescale <= exact < (output[i].decodeTimestampUs + 1) * timescale)
    && (forall i :: 0 <= i < |output| - 1 ==>
          var step := output[i + 1].decodeTimestampUs - output[i].decodeTimestampUs;
          0 < output[i].durationUs <= step <= output[i].durationUs + 1)
  }

  /** Every sample has the presentation time, duration, flag, size and track its row says. */
  ghost predicate Described(output: seq<EncodedSample>, samples: seq<RunSample>, base: nat, track: TrackInfo) {
    && |output| == |samples|
    && forall i :: 0 <= i < |output| ==> Describes(output[i], samples[i], StartTick(samples, base, i), track)
  }

  lemma TimedIsDriftFree(output: seq<EncodedSample>, samples: seq<RunSample>, base: nat, track: TrackInfo)
    requires track.timescale > 0 && Timed(output, samples, base, track)
    ensures DriftFree(output, samples, base, track.timescale) && Described(output, samples, base, track)
  {
    forall i | 0 <= i < |output|
      ensures var exact := StartTick(samples, base, i) * MICROS;
              output[i].decodeTimestampUs * track.timescale <= exact < (output[i].decodeTimestampUs + 1) * track.timescale
    {
      assert StampedAt(output[i], StartTick(samples, base, i), samples[i], track);
      DivBounds(StartTick(samples, base, i) * MICROS, track.timescale);
    }
    forall i | 0 <= i < |output| - 1
      ensures var step := output[i + 1].decodeTimestampUs - output[i].decodeTimestampUs;
              0 < output[i].durationUs <= step <= output[i].durationUs + 1
    {
      assert StampedAt(output[i], StartTick(samples, base, i), samples[i], track);
      assert StampedAt(output[i + 1], StartTick(samples, base, i + 1), samples[i + 1], track);
      SamplePrefix(samples, i);
      DivStep(StartTick(samples, base, i) * MICROS, samples[i].duration * MICROS, track.timescale);
    }
    forall i | 0 <= i < |output| ensures Describes(output[i], samples[i], StartTick(samples, base, i), track) {
      assert StampedAt(output[i], StartTick(samples, base, i), samples[i], track);
    }
  }

  /** `group` is the stretch of `runs` that starts at `lo`. */
  predicate Within(runs: seq<TrackRun>, lo: nat, group: seq<TrackRun>) {
    lo + |group| <= |runs| && forall k :: 0 <= k < |group| ==> group[k] == runs[lo + k]
  }

  /** The output of the first `j` runs of a fragment. */
  ghost predicate RunsTimed(output: seq<EncodedSample>, group: seq<TrackRun>, j: nat, base: nat, track: TrackInfo) {
    track.timescale > 0 && j <= |group| && Timed(output, AllSamples(group[..j]), base, track)
  }

  /** The output of run `j - 1`, which starts at the tick where the runs before it end. */
  ghost predicate RunTimed(output: seq<EncodedSample>, group: seq<TrackRun>, j: nat, base: nat, track: TrackInfo) {
    && track.timescale > 0 && 0 < j <= |group|
    && Timed(output, group[j - 1].samples, base + Duration(AllSamples(group[..j - 1])), track)
  }

  lemma FragmentStep(
    runs: seq<TrackRun>, tracks: seq<TrackInfo>, mdat: seq<Byte>, lo: nat, group: seq<TrackRun>, j: nat,
    trackId: nat, base: nat, output: seq<EncodedSample>)
    returns (track: TrackInfo, earlier: seq<EncodedSample>, last: seq<EncodedSample>)
    requires forall t <- tracks :: t.timescale > 0
    requires 0 < j <= |group| && Within(runs, lo, group) && Chained(group, trackId, base)
    requires EmitsRuns(runs, tracks, mdat, lo + j, output)
    ensures TrackWithId(tracks, trackId) == Ok(track)
    ensures EmitsRuns(runs, tracks, mdat, lo + j - 1, earlier) && output == earlier + last
    ensures RunTimed(last, group, j, base, track)
  {
    var run := runs[lo + (j - 1)];
    assert group[j - 1] == run;
    var offset: nat;
    track, earlier, last, offset := LastRunAt(runs, tracks, mdat, lo + j, run, output);
    ChainedRunIsTimed(group, j, trackId, base, track, mdat, offset, last);
  }

  lemma ChainedRunIsTimed(group: seq<TrackRun>, j: nat, trackId: nat, base: nat, track: TrackInfo, mdat: seq<Byte>,
                          offset: nat, output: seq<EncodedSample>)
    requires 0 < j <= |group| && Chained(group, trackId, base) && track.timescale > 0
    requires Emits(group[j - 1], track, mdat, offset, |group[j - 1].samples|, output)
    ensures RunTimed(output, group, j, base, track)
  {
    RunIsTimed(group[j - 1], track, mdat, offset, output);
  }

  lemma LastRunAt(runs: seq<TrackRun>, tracks: seq<TrackInfo>, mdat: seq<Byte>, n: nat, run: TrackRun,
                  output: seq<EncodedSample>)
    returns (track: TrackInfo, before: seq<EncodedSample>, here: seq<EncodedSample>, offset: nat)
    requires 0 < n <= |runs| && run == runs[n - 1] && (forall t <- tracks :: t.timescale > 0)
    requires EmitsRuns(runs, tracks, mdat, n, output)
    ensures TrackWithId(tracks, run.trackId) == Ok(track) && track.timescale > 0
    ensures EmitsRuns(runs, tracks, mdat, n - 1, before) && output == before + here
    ensures Emits(run, track, mdat, offset, |run.samples|, here)
  {
    track, before, here := LastRun(runs, tracks, mdat, n, output);
    offset := TotalSize(AllSamples(runs[..n - 1]));
  }

  /** Adds run `j - 1` to the output of the first `j - 1` runs of a fragment. */
  lemma FragmentGrows(group: seq<TrackRun>, j: nat, base: nat, track: TrackInfo,
                      front: seq<EncodedSample>, last: seq<EncodedSample>)
    requires 0 < j && RunsTimed(front, group, j - 1, base, track) && RunTimed(last, group, j, base, track)
    ensures RunsTimed(front + last, group, j, base, track)
  {
    assert AllSamples(group[..j]) == AllSamples(group[..j - 1]) + group[j - 1].samples by {
      RunPrefix(group, j - 1);
    }
    TimedTogether(front, AllSamples(group[..j - 1]), last, group[j - 1].samples, AllSamples(group[..j]), base, track);
  }

  lemma TimedTogether(o1: seq<EncodedSample>, s1: seq<RunSample>, o2: seq<EncodedSample>, s2: seq<RunSample>,
                      both: seq<RunSample>, base: nat, track: TrackInfo)
    requires track.timescale > 0 && both == s1 + s2
    requires Timed(o1, s1, base, track) && Timed(o2, s2, base + Duration(s1), track)
    ensures Timed(o1 + o2, both, base, track)
  {
    TimedAppends(o1, s1, o2, s2, base, track);
  }

  lemma FirstRunTimed(group: seq<TrackRun>, base: nat, track: TrackInfo, output: seq<EncodedSample>)
    requires RunTimed(output, group, 1, base, track)
    ensures RunsTimed(output, group, 1, base, track)
  {
    RunPrefix(group, 0);
    assert AllSamples(group[..0]) == [] && [] + group[0].samples == group[0].samples;
  }

  lemma Reassociate<T>(a: seq<T>, b: seq<T>, c: seq<T>)
    ensures (a + b) + c == a + (b + c)
  {
  }

  lemma FragmentJoins(group: seq<TrackRun>, j: nat, base: nat, track: TrackInfo, output: seq<EncodedSample>,
                      earlier: seq<EncodedSample>, before: seq<EncodedSample>, front: seq<EncodedSample>,
                      last: seq<EncodedSample>)
    requires 0 < j && RunsTimed(front, group, j - 1, base, track) && RunTimed(last, group, j, base, track)
    requires output == earlier + last && earlier == before + front
    ensures RunsTimed(front + last, group, j, base, track) && output == before + (front + last)
  {
    FragmentGrows(group, j, base, track, front, last);
    Reassociate(before, front, last);
  }

  /** The output of the runs `lo..lo + j`, which are the first `j` runs of one track fragment. */
  lemma {:induction false} FragmentIsTimed(
    runs: seq<TrackRun>, tracks: seq<TrackInfo>, mdat: seq<Byte>, lo: nat, group: seq<TrackRun>, j: nat,
    trackId: nat, base: nat, output: seq<EncodedSample>)
    returns (track: TrackInfo, before: seq<EncodedSample>, here: seq<EncodedSample>)
    requires forall t <- tracks :: t.timescale > 0
    requires 0 < j <= |group| && Within(runs, lo, group) && Chained(group, trackId, base)
    requires EmitsRuns(runs, tracks, mdat, lo + j, output)
    ensures TrackWithId(tracks, trackId) == Ok(track)
    ensures EmitsRuns(runs, tracks, mdat, lo, before) && output == before + here
    ensures RunsTimed(here, group, j, base, track)
    decreases j
  {
    var earlier, last;
    track, earlier, last := FragmentStep(runs, tracks, mdat, lo, group, j, trackId, base, output);
    if j == 1 {
      before, here := earlier, last;
      FirstRunTimed(group, base, track, last);
    } else {
      var front;
      track, before, front := FragmentIsTimed(runs, tracks, mdat, lo, group, j - 1, trackId, base, earlier);
      here := front + last;
      FragmentJoins(group, j, base, track, output, earlier, before, front, last);
    }
  }

  lemma {:induction false} FlattenAppends<T>(groups: seq<seq<T>>, last: seq<T>)
    ensures Flatten(groups + [last]) == Flatten(groups) + last
  {
    if groups == [] {
      assert groups + [last] == [last] && Flatten([last][1..]) == [];
    } else {
      FlattenAppends(groups[1..], last);
      assert (groups + [last])[1..] == groups[1..] + [last];
      assert groups[0] + (Flatten(groups[1..]) + last) == (groups[0] + Flatten(groups[1..])) + last;
    }
  }

  lemma {:induction false} FlattenPrefix<T>(groups: seq<seq<T>>, m: nat)
    requires m < |groups|
    ensures Flatten(groups[..m + 1]) == Flatten(groups[..m]) + groups[m]
    ensures Flatten(groups[..m + 1]) <= Flatten(groups)
    decreases |groups| - m
  {
    assert groups[..m + 1] == groups[..m] + [groups[m]];
    FlattenAppends(groups[..m], groups[m]);
    if m + 1 == |groups| {
      assert groups[..m + 1] == groups;
    } else {
      FlattenPrefix(groups, m + 1);
    }
  }

  /** A fragment's samples are drift-free for the track, the base time and the runs it came from. */
  ghost predicate FragmentOk(fragment: seq<EncodedSample>, group: seq<TrackRun>, tracks: seq<TrackInfo>) {
    if group == [] then fragment == []
    else exists trackId: nat, base: nat :: Chained(group, trackId, base) && OnTrack(fragment, group, tracks, trackId, base)
  }

  ghost predicate OnTrack(fragment: seq<EncodedSample>, group: seq<TrackRun>, tracks: seq<TrackInfo>,
                          trackId: nat, base: nat) {
    && TrackWithId(tracks, trackId).Ok?
    && var track := TrackWithId(tracks, trackId).value;
       && track.trackId == trackId && DriftFree(fragment, AllSamples(group), base, track.timescale)
       && Described(fragment, AllSamples(group), base, track)
  }

  /** Group `m` occupies the runs behind those of the groups before it. */
  lemma GroupWithin(groups: seq<seq<TrackRun>>, m: nat)
    requires m < |groups|
    ensures Within(Flatten(groups), |Flatten(groups[..m])|, groups[m])
    ensures |Flatten(groups[..m + 1])| == |Flatten(groups[..m])| + |groups[m]|
  {
    FlattenPrefix(groups, m);
  }

  lemma OneFragment(groups: seq<seq<TrackRun>>, tracks: seq<TrackInfo>, mdat: seq<Byte>, m: nat,
                    output: seq<EncodedSample>)
    returns (before: seq<EncodedSample>, here: seq<EncodedSample>)
    requires (forall t <- tracks :: t.timescale > 0) && m < |groups| && AllChained(groups)
    requires |Flatten(groups[..m + 1])| <= |Flatten(groups)|
    requires EmitsRuns(Flatten(groups), tracks, mdat, |Flatten(groups[..m + 1])|, output)
    ensures |Flatten(groups[..m])| <= |Flatten(groups)|
    ensures EmitsRuns(Flatten(groups), tracks, mdat, |Flatten(groups[..m])|, before)
    ensures output == before + here && FragmentOk(here, groups[m], tracks)
  {
    var group := groups[m];
    var lo := |Flatten(groups[..m])|;
    GroupWithin(groups, m);
    if group == [] {
      before, here := output, [];
    } else {
      assert group in groups;
      var trackId: nat, base: nat :| Chained(group, trackId, base);
      var track;
      track, before, here :=
        FragmentIsTimed(Flatten(groups), tracks, mdat, lo, group, |group|, trackId, base, output);
      assert group[..|group|] == group;
      TimedIsDriftFree(here, AllSamples(group), base, track);
      assert OnTrack(here, group, tracks, trackId, base);
    }
  }

  ghost predicate FlattensTo<T>(groups: seq<seq<T>>, all: seq<T>) {
    Flatten(groups) == all
  }

  lemma FlattensToAppends<T>(groups: seq<seq<T>>, all: seq<T>, last: seq<T>)
    requires FlattensTo(groups, all)
    ensures FlattensTo(groups + [last], all + last)
  {
    FlattenAppends(groups, last);
  }

  lemma {:induction false} FragmentsAreTimed(groups: seq<seq<TrackRun>>, tracks: seq<TrackInfo>, mdat: seq<Byte>,
                                             m: nat, output: seq<EncodedSample>)
    returns (fragments: seq<seq<EncodedSample>>)
    requires (forall t <- tracks :: t.timescale > 0) && m <= |groups| && AllChained(groups)
    requires |Flatten(groups[..m])| <= |Flatten(groups)|
    requires EmitsRuns(Flatten(groups), tracks, mdat, |Flatten(groups[..m])|, output)
    ensures |fragments| == m && FlattensTo(fragments, output) && FragmentsOk(fragments, groups, tracks)
    decreases m
  {
    if m == 0 {
      fragments := [];
    } else {
      var before, here := OneFragment(groups, tracks, mdat, m - 1, output);
      var front := FragmentsAreTimed(groups, tracks, mdat, m - 1, before);
      FlattensToAppends(front, before, here);
      FragmentsGrow(front, here, groups, tracks);
      fragments := front + [here];
    }
  }

  /**
   * A parsed media segment splits into its track fragments, in file order, and within each of them
   * decode timestamps never drift and strictly increase, also across the fragment's runs.
   */
  lemma SegmentTimestampsNeverDrift(bytes: seq<Byte>, tracks: seq<TrackInfo>, output: seq<EncodedSample>)
    returns (groups: seq<seq<TrackRun>>, fragments: seq<seq<EncodedSample>>)
    requires Accepted(bytes, tracks, output)
    ensures BoxesOf(bytes).Ok? && Child(BoxesOf(bytes).value, MOOF).Ok?
    ensures FragmentGroups(Child(BoxesOf(bytes).value, MOOF).value) == Ok(groups)
    ensures |fragments| == |groups| && FlattensTo(fragments, output)
    ensures FragmentsOk(fragments, groups, tracks)
  {
    var moof, mdat;
    moof, mdat, groups := SegmentParts(bytes, tracks, output);
    GroupsAreChained(BoxesOf(moof).value, 0, groups);
    assert groups[..|groups|] == groups;
    fragments := FragmentsAreTimed(groups, tracks, mdat, |groups|, output);
  }
}
