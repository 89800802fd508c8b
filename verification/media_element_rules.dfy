/** The element's transitions told by what can be observed: position, readiness, and the events raised. */
module MediaElementRules {
  import opened MachineInts
  import opened MediaElement
  import opened Wrappers

  // ---- Buffered time ------------------------------------------------------------------------

  predicate Contains(range: Range, at: int) {
    range.start <= at && at < range.end
  }

  ghost predicate FirstAround(ranges: seq<Range>, at: int, i: nat) {
    i < |ranges| && Contains(ranges[i], at) && forall j :: 0 <= j < i ==> !Contains(ranges[j], at)
  }

  lemma FirstAroundRest(ranges: seq<Range>, at: int, i: nat)
    requires 0 < i && FirstAround(ranges, at, i)
    ensures !Contains(ranges[0], at) && FirstAround(ranges[1..], at, i - 1)
  {
    assert forall j :: 0 <= j < |ranges| - 1 ==> ranges[1..][j] == ranges[j + 1];
  }

  /** The time buffered ahead is what is left of the first range around the position. */
  lemma {:induction false} AheadIsRestOfRange(ranges: seq<Range>, at: int, i: nat)
    requires FirstAround(ranges, at, i)
    ensures Ahead(ranges, at) == ranges[i].end - at && Ahead(ranges, at) > 0
  {
    if i > 0 {
      FirstAroundRest(ranges, at, i);
      AheadIsRestOfRange(ranges[1..], at, i - 1);
    }
  }

  /** And nothing outside all ranges. */
  lemma {:induction false} NothingAhead(ranges: seq<Range>, at: int)
    requires forall i :: 0 <= i < |ranges| ==> !Contains(ranges[i], at)
    ensures Ahead(ranges, at) == 0
  {
    if ranges != [] {
      assert forall j :: 0 <= j < |ranges| - 1 ==> ranges[1..][j] == ranges[j + 1];
      NothingAhead(ranges[1..], at);
    }
  }

  /** A source's own duration counts, or else the latest end of what it has buffered. */
  lemma DurationIsKnownOrLatestEnd(source: Source)
    ensures source.duration.Some? ==> SourceDuration(source) == source.duration
    ensures source.duration.None? ==>
              var d := SourceDuration(source);
              && (d.None? <==> source.ranges == [])
              && (d.Some? ==> (exists i :: 0 <= i < |source.ranges| && source.ranges[i].end == d.value)
                              && forall i :: 0 <= i < |source.ranges| ==> source.ranges[i].end <= d.value)
  {
    LastEndIsLatest(source.ranges);
  }

  lemma {:induction false} LastEndIsLatest(ranges: seq<Range>)
    ensures var d := LastEnd(ranges);
            && (d.None? <==> ranges == [])
            && (d.Some? ==> (exists i :: 0 <= i < |ranges| && ranges[i].end == d.value)
                            && forall i :: 0 <= i < |ranges| ==> ranges[i].end <= d.value)
  {
    if ranges != [] {
      LastEndIsLatest(ranges[1..]);
      var rest, d := LastEnd(ranges[1..]), LastEnd(ranges);
      assert forall i :: 0 < i < |ranges| ==> ranges[i] == ranges[1..][i - 1];
      if d.value == ranges[0].end {
        assert ranges[0].end == d.value;
      } else {
        var i :| 0 <= i < |ranges[1..]| && ranges[1..][i].end == d.value;
        assert ranges[i + 1].end == d.value;
      }
    }
  }

  // ---- Readiness ----------------------------------------------------------------------------

  /** Five seconds ahead are enough data, a quarter of a second is future data, anything at all is current data. */
  lemma ReadinessFollowsBuffer(ahead: int, known: bool)
    ensures var r := ReadyFor(ahead, known);
            && (r == HaveEnoughData <==> ahead >= 5_000_000)
            && (r == HaveFutureData <==> 250_000 < ahead < 5_000_000)
            && (r == HaveCurrentData <==> 0 < ahead <= 250_000)
            && (r == HaveMetadata <==> ahead <= 0 && known)
            && (r == HaveNothing <==> ahead <= 0 && !known)
  {
  }

  const WITHOUT_DATA := {HaveNothing, HaveMetadata}
  const WITHOUT_FUTURE := {HaveNothing, HaveMetadata, HaveCurrentData}

  /** Each threshold passed on the way up is announced once, in order, and nothing on the way down. */
  lemma RisesAreAnnounced(now: Ready, next: Ready)
    ensures RaiseEvents(now, next)
            == (if now in WITHOUT_DATA && next !in WITHOUT_DATA then [LoadedData] else [])
             + (if now in WITHOUT_FUTURE && next !in WITHOUT_FUTURE then [CanPlay] else [])
             + (if now != HaveEnoughData && next == HaveEnoughData then [CanPlayThrough] else [])
  {
  }

  predicate Startable(s: State) {
    !s.failed && s.ready !in WITHOUT_DATA
  }

  /** Starting makes the element play, from the beginning if it had ended, and changes nothing else. */
  lemma StartPlays(s: State)
    ensures var out := StartOut(s);
            if Startable(s) then
              && !out.state.paused && !out.state.ended && (s.ended ==> out.state.current == 0)
              && (!s.ended ==> out.state.current == s.current)
              && out.state.(paused := s.paused, ended := s.ended, current := s.current) == s
              && out.events == if s.paused then [Play, Playing] else []
            else out == Out(s, [])
  {
  }

  /** The element starts by itself. */
  predicate AutoStarts(s: State, duration: Option<int>, ready: Ready) {
    s.autoplay && s.paused && !s.failed && ready !in WITHOUT_FUTURE
  }

  /** What a source with this duration and these ranges makes of the element. */
  lemma SynchronizingFollowsSource(s: State)
    requires s.source.Some?
    ensures var source := s.source.value;
            var (out, d) := (Synchronize(s), SourceDuration(s.source.value));
            var ready := ReadyFor(Ahead(source.ranges, s.current), d.Some?);
            var first := d.Some? && s.ready == HaveNothing;
            var starts := AutoStarts(s, d, ready);
            && out.state.duration == d && out.state.ready == ready
            && (out.state.network == Idle <==> source.atEnd) && (out.state.network == Loading <==> !source.atEnd)
            && (out.state.paused <==> s.paused && !starts) && (out.state.ended <==> s.ended && !starts)
            && (out.state.current == if starts && s.ended then 0 else s.current)
            && out.state.seeking == s.seeking && out.state.failed == s.failed && out.state.source == s.source
            && out.state.rate == s.rate && out.state.looping == s.looping && out.state.autoplay == s.autoplay
            && out.events == (if d.Some? && d != s.duration then [DurationChange] else [])
                           + (if first then [LoadedMetadata] else [])
                           + RaiseEvents(if first then HaveMetadata else s.ready, ready)
                           + [Progress] + (if starts then [Play, Playing] else [])
  {
    var updated := Updated(s, s.source.value);
    assert Buffered(TakeDuration(s, s.source.value).state) == s.source.value.ranges;
    assert updated.events + [] == updated.events;
  }

  /** Without a source there is nothing to follow. */
  lemma NothingToFollow(s: State)
    requires s.source.None?
    ensures Synchronize(s) == Out(s, [])
  {
  }

  // ---- Resources ----------------------------------------------------------------------------

  /** What a new resource leaves of the element: the rate, the loop and the autoplay settings. */
  function StartedOver(s: State): (clean: State) {
    NEW.(rate := s.rate, looping := s.looping, autoplay := s.autoplay)
  }

  function Announced(s: State): (events: seq<Event>) {
    if s.network == Empty then [LoadStart] else [Emptied, LoadStart]
  }

  lemma LoadingStartsOver(s: State)
    ensures LoadUrl(s, true) == Out(StartedOver(s).(network := Loading), Announced(s))
    ensures LoadUrl(s, false) == Out(s, [])
  {
  }

  lemma ResetStartsOver(s: State)
    ensures ResetResource(s).state == StartedOver(s) && ResetResource(s).events + [LoadStart] == Announced(s)
  {
  }

  lemma SourceStartsOver(s: State, source: Source)
    ensures var synced := Synchronize(StartedOver(s).(source := Some(source), network := Loading));
            AttachSource(s, source) == Out(synced.state, Announced(s) + synced.events)
  {
    ResetStartsOver(s);
  }

  lemma DecodedStartsOver(s: State, length: int)
    ensures AttachDecoded(s, length)
            == if length <= 0 then Out(s, [])
               else Out(StartedOver(s).(duration := Some(length), direct := Some(Range(0, length)), network := Idle,
                                        ready := HaveEnoughData),
                        Announced(s) + [DurationChange, LoadedMetadata, LoadedData, CanPlay, CanPlayThrough, Progress])
  {
  }

  // ---- Seeking and playing ------------------------------------------------------------------

  /** `us` is `x` cut to whole microseconds, no further than 64 bits go. */
  predicate Cut(us: int, x: real) {
    if x < I64_MAX as real + 1.0 then us as real <= x < us as real + 1.0 else us == I64_MAX
  }

  lemma CutsDown(x: real)
    requires x >= 0.0
    ensures Cut(ToI64(x), x)
  {
  }

  /** A seek leaves a stream without a source at the time asked for, or at its end, and playing on as before. */
  lemma SeekLands(s: State, seconds: Number) returns (us: int)
    requires s.source.None?
    ensures var out := SeekOut(s, seconds);
            if seconds.Finite? && seconds.value >= 0.0 && s.duration.Some? then
              && Cut(us, seconds.value * 1_000_000.0)
              && out.state.current == (if us < s.duration.value then us else s.duration.value)
              && !out.state.ended && !out.state.seeking
              && out.state.(current := s.current, ended := s.ended, seeking := s.seeking) == s
              && out.events == [Seeking, TimeUpdate, Seeked]
            else out == Out(s, [])
  {
    us := 0;
    if CanSeek(s, seconds) {
      us := ToI64(seconds.value * 1_000_000.0);
      CutsDown(seconds.value * 1_000_000.0);
      assert [Seeking] + [] + [TimeUpdate, Seeked] == [Seeking, TimeUpdate, Seeked];
    }
  }

  /** And with one, it synchronizes at that position. */
  lemma SeekSynchronizes(s: State, seconds: Number) returns (us: int)
    requires CanSeek(s, seconds)
    ensures Cut(us, seconds.value * 1_000_000.0)
    ensures var moved := s.(seeking := true, ended := false, current := if us < s.duration.value then us else s.duration.value);
            && SeekOut(s, seconds).state == Synchronize(moved).state.(seeking := false)
            && SeekOut(s, seconds).events == [Seeking] + Synchronize(moved).events + [TimeUpdate, Seeked]
  {
    us := ToI64(seconds.value * 1_000_000.0);
    CutsDown(seconds.value * 1_000_000.0);
  }

  /** The position after `us` more microseconds, no further than 64 bits go. */
  function Further(at: int, us: int): (position: int) {
    var sum := at + us;
    if sum <= I64_MAX then sum else I64_MAX
  }

  /**
   * A playing element moves on by the time elapsed times its rate. Short of the end it just moves; at the end it
   * starts over if it loops, and otherwise stops there and has ended.
   */
  lemma TickMovesOn(s: State, elapsed: nat) returns (us: int)
    requires s.source.None? && !s.paused && !s.seeking && elapsed > 0 && s.rate >= 0.0 && BufferedAhead(s) != 0
    ensures Cut(us, elapsed as real * 1_000.0 * s.rate)
    ensures var out, position := TickOut(s, elapsed), Further(s.current, us);
            if s.duration.None? || position < s.duration.value
            then out == Out(s.(current := position), [TimeUpdate])
            else if s.looping then out == Out(s.(current := 0), [TimeUpdate])
            else out == Out(s.(current := s.duration.value, ended := true, paused := true), [TimeUpdate, Ended])
  {
    PositiveProduct(elapsed as real * 1_000.0, s.rate);
    CutsDown(elapsed as real * 1_000.0 * s.rate);
    us := Advance(elapsed, s.rate);
    assert [] + MoveOn(s, us).events == MoveOn(s, us).events;
  }

  lemma PositiveProduct(x: real, y: real)
    requires x >= 0.0 && y >= 0.0
    ensures x * y >= 0.0
  {
  }

  /** Without data around the position it waits, and what it knows of the stream falls back to its duration. */
  lemma TickWaits(s: State, elapsed: nat)
    requires s.source.None? && BufferedAhead(s) == 0
    ensures var out := TickOut(s, elapsed);
            if s.paused || s.seeking || elapsed == 0 then out == Out(s, [])
            else out == Out(s.(ready := if s.duration.Some? then HaveMetadata else HaveNothing), [Waiting])
  {
  }

  /** With a source a playing element first follows it, and then moves on from there. */
  lemma TickSynchronizes(s: State, elapsed: nat)
    ensures s.paused || s.seeking || elapsed == 0 ==> TickOut(s, elapsed) == Out(s, [])
    ensures !s.paused && !s.seeking && elapsed > 0 ==>
              var synced := Synchronize(s);
              var moved := Run(synced.state, elapsed);
              TickOut(s, elapsed) == Out(moved.state, synced.events + moved.events)
  {
  }

  /** Rates from a quarter to four times are taken, pauses stop, and failures stop for good. */
  lemma SettingsTake(s: State, rate: Number)
    ensures SetRate(s, rate) == if rate.Finite? && rate.value >= 0.25 && rate.value <= 4.0 && s.rate != rate.value
                                then Out(s.(rate := rate.value), [RateChange]) else Out(s, [])
    ensures PauseOut(s).state.paused && PauseOut(s).state.(paused := s.paused) == s
            && PauseOut(s).events == if s.paused then [] else [Pause]
    ensures var failed := FailOut(s).state;
            failed.failed && failed.paused && failed.network == NoSource && FailOut(s).events == [Error]
            && failed.(failed := s.failed, paused := s.paused, network := s.network) == s
            && StartOut(failed) == Out(failed, [])
  {
  }
}
