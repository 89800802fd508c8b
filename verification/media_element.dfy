/** The audio/video element: playback state, readiness, and the event log every observer relies on. */
module MediaElement {
  import opened MachineInts
  import opened Wrappers

  const MAX_EVENTS := 512

  datatype Ready = HaveNothing | HaveMetadata | HaveCurrentData | HaveFutureData | HaveEnoughData

  datatype Network = Empty | Idle | Loading | NoSource

  datatype Event =
    | LoadStart | DurationChange | LoadedMetadata | LoadedData | CanPlay | CanPlayThrough | Play | Playing | Pause
    | Seeking | Seeked | TimeUpdate | Progress | Waiting | RateChange | Ended | Error | Emptied

  /** A half-open range of microseconds. */
  datatype Range = Range(start: int, end: int)

  /** What the element sees of a media source, which its owner may change between any two calls. */
  datatype Source = Source(duration: Option<int>, ranges: seq<Range>, atEnd: bool)

  datatype Number = NotFinite | Finite(value: real)

  datatype State = State(
    network: Network, ready: Ready, paused: bool, seeking: bool, ended: bool, current: int, duration: Option<int>,
    rate: real, looping: bool, autoplay: bool, source: Option<Source>, direct: Option<Range>, failed: bool)

  const NEW := State(Empty, HaveNothing, true, false, false, 0, None, 1.0, false, false, None, None, false)

  /** What a transition comes to: the state after it and the events raised on the way, in order. */
  datatype Out = Out(state: State, events: seq<Event>)

  function Level(r: Ready): (n: nat) {
    match r
    case HaveNothing => 0
    case HaveMetadata => 1
    case HaveCurrentData => 2
    case HaveFutureData => 3
    case HaveEnoughData => 4
  }

  // ---- Transitions ----------------------------------------------------------------------------

  function Ahead(ranges: seq<Range>, at: int): (us: int) {
    if ranges == [] then 0
    else if ranges[0].start <= at < ranges[0].end then ranges[0].end - at
    else Ahead(ranges[1..], at)
  }

  function Buffered(s: State): (ranges: seq<Range>) {
    if s.source.Some? then s.source.value.ranges else if s.direct.Some? then [s.direct.value] else []
  }

  function BufferedAhead(s: State): (us: int) {
    Ahead(Buffered(s), s.current)
  }

  function LastEnd(ranges: seq<Range>): (end: Option<int>) {
    if ranges == [] then None
    else
      var rest := LastEnd(ranges[1..]);
      if rest.None? || rest.value < ranges[0].end then Some(ranges[0].end) else rest
  }

  function ResetResource(s: State): (out: Out) {
    Out(State(Empty, HaveNothing, true, false, false, 0, None, s.rate, s.looping, s.autoplay, None, None, false),
        if s.network != Empty then [Emptied] else [])
  }

  predicate CanStart(s: State) {
    !s.failed && Level(s.ready) >= Level(HaveCurrentData)
  }

  /** Nothing happens unless the element can start; an ended stream starts over. */
  function StartOut(s: State): (out: Out) {
    if !CanStart(s) then Out(s, [])
    else
      Out(s.(paused := false, current := if s.ended then 0 else s.current, ended := false),
          if s.paused then [Play, Playing] else [])
  }

  function ReadyFor(ahead: int, known: bool): (r: Ready) {
    if ahead >= 5_000_000 then HaveEnoughData
    else if ahead > 250_000 then HaveFutureData
    else if ahead > 0 then HaveCurrentData
    else if known then HaveMetadata
    else HaveNothing
  }

  function RaiseEvents(now: Ready, next: Ready): (events: seq<Event>) {
    if Level(next) <= Level(now) then []
    else
      (if Level(now) < Level(HaveCurrentData) && Level(next) >= Level(HaveCurrentData) then [LoadedData] else [])
      + (if Level(now) < Level(HaveFutureData) && Level(next) >= Level(HaveFutureData) then [CanPlay] else [])
      + (if next == HaveEnoughData then [CanPlayThrough] else [])
  }

  function SourceDuration(source: Source): (d: Option<int>) {
    if source.duration.Some? then source.duration else LastEnd(source.ranges)
  }

  function TakeDuration(s: State, source: Source): (out: Out) {
    var duration := SourceDuration(source);
    var first := duration.Some? && s.ready == HaveNothing;
    Out(s.(duration := duration, ready := if first then HaveMetadata else s.ready),
        (if duration != s.duration && duration.Some? then [DurationChange] else []) + (if first then [LoadedMetadata] else []))
  }

  function Updated(s: State, source: Source): (out: Out) {
    var timed := TakeDuration(s, source);
    var next := ReadyFor(BufferedAhead(timed.state), timed.state.duration.Some?);
    Out(timed.state.(ready := next, network := if source.atEnd then Idle else Loading),
        timed.events + RaiseEvents(timed.state.ready, next) + [Progress])
  }

  function Synchronize(s: State): (out: Out) {
    if s.source.None? then Out(s, [])
    else
      var updated := Updated(s, s.source.value);
      if updated.state.autoplay && updated.state.paused && Level(updated.state.ready) >= Level(HaveFutureData) then
        var started := StartOut(updated.state);
        Out(started.state, updated.events + started.events)
      else updated
  }

  function AttachSource(s: State, source: Source): (out: Out) {
    var clean := ResetResource(s);
    var synced := Synchronize(clean.state.(source := Some(source), network := Loading));
    Out(synced.state, clean.events + [LoadStart] + synced.events)
  }

  function LoadUrl(s: State, supported: bool): (out: Out) {
    if !supported then Out(s, [])
    else
      var clean := ResetResource(s);
      Out(clean.state.(network := Loading), clean.events + [LoadStart])
  }

  const DECODED_EVENTS := [LoadStart, DurationChange, LoadedMetadata, LoadedData, CanPlay, CanPlayThrough, Progress]

  function AttachDecoded(s: State, duration: int): (out: Out) {
    if duration <= 0 then Out(s, [])
    else
      var clean := ResetResource(s);
      Out(clean.state.(duration := Some(duration), direct := Some(Range(0, duration)), network := Idle, ready := HaveEnoughData),
          clean.events + DECODED_EVENTS)
  }

  function PauseOut(s: State): (out: Out) {
    Out(s.(paused := true), if s.paused then [] else [Pause])
  }

  /** Truncation of a non-negative number to a 64-bit integer. */
  function ToI64(x: real): (i: int) {
    if x.Floor > I64_MAX then I64_MAX else x.Floor
  }

  predicate CanSeek(s: State, seconds: Number) {
    seconds.Finite? && seconds.value >= 0.0 && s.duration.Some?
  }

  /** The position a seek asks for, no further than the end. */
  function Moved(s: State, seconds: Number): (after: State)
    requires CanSeek(s, seconds)
  {
    var target, length := ToI64(seconds.value * 1_000_000.0), s.duration.value;
    s.(seeking := true, current := if target < length then target else length, ended := false)
  }

  function SeekOut(s: State, seconds: Number): (out: Out) {
    if !CanSeek(s, seconds) then Out(s, [])
    else
      var synced := Synchronize(Moved(s, seconds));
      Out(synced.state.(seeking := false), [Seeking] + synced.events + [TimeUpdate, Seeked])
  }

  /** How far a tick moves the position. */
  function Advance(elapsed: nat, rate: real): (us: int) {
    ToI64(elapsed as real * 1_000.0 * rate)
  }

  function MoveOn(s: State, advance: int): (out: Out) {
    var position := if s.current + advance > I64_MAX then I64_MAX else s.current + advance;
    if s.duration.None? || position < s.duration.value then Out(s.(current := position), [TimeUpdate])
    else if s.looping then Out(s.(current := 0), [TimeUpdate])
    else Out(s.(current := s.duration.value, ended := true, paused := true), [TimeUpdate, Ended])
  }

  function Run(s: State, elapsed: nat): (out: Out) {
    if BufferedAhead(s) == 0
    then Out(s.(ready := if s.duration.Some? then HaveMetadata else HaveNothing), [Waiting])
    else MoveOn(s, Advance(elapsed, s.rate))
  }

  function TickOut(s: State, elapsed: nat): (out: Out) {
    if s.paused || s.seeking || elapsed == 0 then Out(s, [])
    else
      var synced := Synchronize(s);
      var moved := Run(synced.state, elapsed);
      Out(moved.state, synced.events + moved.events)
  }

  function SetRate(s: State, rate: Number): (out: Out) {
    if rate.NotFinite? || !(0.25 <= rate.value <= 4.0) || rate.value == s.rate then Out(s, [])
    else Out(s.(rate := rate.value), [RateChange])
  }

  function FailOut(s: State): (out: Out) {
    Out(s.(failed := true, paused := true, network := NoSource), [Error])
  }

  // ---- The element ----------------------------------------------------------------------------

  /** The bounded queue holds the latest events since the last drain, at most 512 of them. */
  predicate IsQueue(queue: seq<Event>, history: seq<Event>, drained: nat) {
    && drained <= |history|
    && queue == history[(if |history| - drained > MAX_EVENTS then |history| - MAX_EVENTS else drained)..]
  }

  lemma Appended(h: seq<Event>, a: seq<Event>, b: seq<Event>, c: seq<Event>)
    ensures h + a + b + c == h + (a + b + c)
    ensures h + a + b == h + (a + b)
  {
  }

  class EventQueue {
    var events: seq<Event>
    ghost var history: seq<Event>
    ghost var drained: nat

    ghost predicate Valid()
      reads this
    {
      IsQueue(events, history, drained)
    }

    constructor ()
      ensures Valid() && history == [] && drained == 0
    {
      events, history, drained := [], [], 0;
    }

    method Push(e: Event)
      requires Valid()
      modifies this
      ensures Valid() && history == old(history) + [e] && drained == old(drained)
    {
      if |events| >= MAX_EVENTS {
        events := events[1..];
      }
      events := events + [e];
      history := history + [e];
    }

    method Drain() returns (out: seq<Event>)
      requires Valid()
      modifies this
      ensures Valid() && out == old(events) && events == [] && history == old(history) && drained == |history|
    {
      out := events;
      events, drained := [], |history|;
    }
  }

  class HtmlMediaElement {
    var network: Network
    var ready: Ready
    var paused: bool
    var seeking: bool
    var ended: bool
    var current: int
    var duration: Option<int>
    var rate: real
    var looping: bool
    var autoplay: bool
    var source: Option<Source>
    var direct: Option<Range>
    var failed: bool
    const events: EventQueue

    ghost function View(): (s: State)
      reads this
    {
      State(network, ready, paused, seeking, ended, current, duration, rate, looping, autoplay, source, direct, failed)
    }

    constructor ()
      ensures events.Valid() && events.history == [] && View() == NEW && fresh(events)
    {
      network, ready, paused, seeking, ended, current, duration := Empty, HaveNothing, true, false, false, 0, None;
      rate, looping, autoplay, source, direct, failed := 1.0, false, false, None, None, false;
      events := new EventQueue();
    }

    method AnnounceEmptied()
      requires events.Valid()
      modifies events
      ensures events.Valid() && events.history == old(events.history) + ResetResource(View()).events
    {
      if network != Empty {
        events.Push(Emptied);
      }
    }

    method Reset()
      requires events.Valid()
      modifies this, events
      ensures events.Valid() && View() == ResetResource(old(View())).state
      ensures events.history == old(events.history) + ResetResource(old(View())).events
    {
      AnnounceEmptied();
      network, ready, paused, seeking, ended, current := Empty, HaveNothing, true, false, false, 0;
      duration, source, direct, failed := None, None, None, false;
    }

    method AttachMediaSource(media: Source)
      requires events.Valid()
      modifies this, events
      ensures events.Valid() && View() == AttachSource(old(View()), media).state
      ensures events.history == old(events.history) + AttachSource(old(View()), media).events
    {
      ghost var clean, log := ResetResource(View()), events.history;
      Reset();
      source, network := Some(media), Loading;
      assert View() == clean.state.(source := Some(media), network := Loading);
      events.Push(LoadStart);
      Appended(log, clean.events, [LoadStart], Synchronize(View()).events);
      SynchronizeSourceState();
    }

    method LoadFromUrl(supported: bool)
      requires events.Valid()
      modifies this, events
      ensures events.Valid() && View() == LoadUrl(old(View()), supported).state
      ensures events.history == old(events.history) + LoadUrl(old(View()), supported).events
    {
      if supported {
        Reset();
        network := Loading;
        events.Push(LoadStart);
      }
    }

    method AttachDecodedStream(length: int) returns (ok: bool)
      requires events.Valid()
      modifies this, events
      ensures events.Valid() && View() == AttachDecoded(old(View()), length).state
      ensures events.history == old(events.history) + AttachDecoded(old(View()), length).events
      ensures ok == (length > 0)
    {
      ok := length > 0;
      if ok {
        Reset();
        duration, direct, network, ready := Some(length), Some(Range(0, length)), Idle, HaveEnoughData;
        for i := 0 to |DECODED_EVENTS|
          invariant events.Valid() && View() == AttachDecoded(old(View()), length).state
          invariant events.history == old(events.history) + (ResetResource(old(View())).events + DECODED_EVENTS[..i])
        {
          events.Push(DECODED_EVENTS[i]);
        }
      }
    }

    method BufferedAheadUs() returns (us: int)
      ensures us == BufferedAhead(View())
    {
      var ranges := if source.Some? then source.value.ranges else if direct.Some? then [direct.value] else [];
      assert ranges[0..] == ranges;
      for i := 0 to |ranges|
        invariant Ahead(ranges[i..], current) == Ahead(ranges, current)
      {
        assert ranges[i..][1..] == ranges[i + 1..];
        if ranges[i].start <= current < ranges[i].end {
          return ranges[i].end - current;
        }
      }
      us := 0;
    }

    method TakeSourceDuration(media: Source)
      requires events.Valid()
      modifies this, events
      ensures events.Valid() && View() == TakeDuration(old(View()), media).state
      ensures events.history == old(events.history) + TakeDuration(old(View()), media).events
    {
      var was := duration;
      duration := SourceDuration(media);
      if duration != was && duration.Some? {
        events.Push(DurationChange);
      }
      if duration.Some? && ready == HaveNothing {
        ready := HaveMetadata;
        events.Push(LoadedMetadata);
      }
    }

    method AnnounceReady(next: Ready)
      requires events.Valid()
      modifies events
      ensures events.Valid() && events.history == old(events.history) + RaiseEvents(ready, next)
    {
      if Level(next) > Level(ready) {
        if Level(ready) < Level(HaveCurrentData) && Level(next) >= Level(HaveCurrentData) {
          events.Push(LoadedData);
        }
        if Level(ready) < Level(HaveFutureData) && Level(next) >= Level(HaveFutureData) {
          events.Push(CanPlay);
        }
        if next == HaveEnoughData {
          events.Push(CanPlayThrough);
        }
      }
    }

    method Update(media: Source)
      requires source == Some(media)
      requires events.Valid()
      modifies this, events
      ensures events.Valid() && View() == Updated(old(View()), media).state
      ensures events.history == old(events.history) + Updated(old(View()), media).events
    {
      ghost var timed, log := TakeDuration(View(), media), events.history;
      TakeSourceDuration(media);
      var ahead := BufferedAheadUs();
      var next := ReadyFor(ahead, duration.Some?);
      Appended(log, timed.events, RaiseEvents(ready, next), [Progress]);
      AnnounceReady(next);
      ready := next;
      network := if media.atEnd then Idle else Loading;
      events.Push(Progress);
    }

    method SynchronizeSourceState()
      requires events.Valid()
      modifies this, events
      ensures events.Valid() && View() == Synchronize(old(View())).state
      ensures events.history == old(events.history) + Synchronize(old(View())).events
    {
      if source.Some? {
        Update(source.value);
        if autoplay && paused && Level(ready) >= Level(HaveFutureData) {
          var _ := StartPlaying();
        }
      }
    }

    method StartPlaying() returns (ok: bool)
      requires events.Valid()
      modifies this, events
      ensures events.Valid() && View() == StartOut(old(View())).state
      ensures events.history == old(events.history) + StartOut(old(View())).events
      ensures ok == CanStart(old(View()))
    {
      if failed || Level(ready) < Level(HaveCurrentData) {
        return false;
      }
      if ended {
        current, ended := 0, false;
      }
      if paused {
        paused := false;
        events.Push(Play);
        events.Push(Playing);
      }
      ok := true;
    }

    method StopPlaying()
      requires events.Valid()
      modifies this, events
      ensures events.Valid() && View() == PauseOut(old(View())).state
      ensures events.history == old(events.history) + PauseOut(old(View())).events
    {
      if !paused {
        paused := true;
        events.Push(Pause);
      }
    }

    method Seek(seconds: Number) returns (ok: bool)
      requires events.Valid()
      modifies this, events
      ensures events.Valid() && View() == SeekOut(old(View()), seconds).state
      ensures events.history == old(events.history) + SeekOut(old(View()), seconds).events
      ensures ok == CanSeek(old(View()), seconds)
    {
      if seconds.NotFinite? || seconds.value < 0.0 || duration.None? {
        return false;
      }
      var target, length := ToI64(seconds.value * 1_000_000.0), duration.value;
      SeekTo(if target < length then target else length);
      ok := true;
    }

    method BeginSeek(target: int)
      requires events.Valid()
      modifies this, events
      ensures events.Valid() && events.history == old(events.history) + [Seeking]
      ensures View() == old(View()).(seeking := true, current := target, ended := false)
    {
      seeking := true;
      events.Push(Seeking);
      current := target;
      ended := false;
    }

    method SeekTo(target: int)
      requires events.Valid()
      modifies this, events
      ensures events.Valid()
      ensures var synced := Synchronize(old(View()).(seeking := true, current := target, ended := false));
              && View() == synced.state.(seeking := false)
              && events.history == old(events.history) + ([Seeking] + synced.events + [TimeUpdate, Seeked])
    {
      ghost var log := events.history;
      BeginSeek(target);
      Appended(log, [Seeking], Synchronize(View()).events, [TimeUpdate, Seeked]);
      SynchronizeSourceState();
      FinishSeek();
    }

    method FinishSeek()
      requires events.Valid()
      modifies this, events
      ensures events.Valid() && events.history == old(events.history) + [TimeUpdate, Seeked]
      ensures View() == old(View()).(seeking := false)
    {
      seeking := false;
      events.Push(TimeUpdate);
      events.Push(Seeked);
    }

    method Tick(elapsed: nat)
      requires events.Valid()
      modifies this, events
      ensures events.Valid() && View() == TickOut(old(View()), elapsed).state
      ensures events.history == old(events.history) + TickOut(old(View()), elapsed).events
    {
      if !(paused || seeking || elapsed == 0) {
        ghost var log, synced := events.history, Synchronize(View());
        Appended(log, synced.events, Run(synced.state, elapsed).events, []);
        SynchronizeSourceState();
        RunFor(elapsed);
      }
    }

    /** The part of a tick after the source has been consulted. */
    method RunFor(elapsed: nat)
      requires events.Valid()
      modifies this, events
      ensures events.Valid() && View() == Run(old(View()), elapsed).state
      ensures events.history == old(events.history) + Run(old(View()), elapsed).events
    {
      var ahead := BufferedAheadUs();
      if ahead == 0 {
        ready := if duration.Some? then HaveMetadata else HaveNothing;
        events.Push(Waiting);
        return;
      }
      var advance := Advance(elapsed, rate);
      current := if current + advance > I64_MAX then I64_MAX else current + advance;
      if duration.Some? && current >= duration.value {
        if looping {
          current := 0;
          events.Push(TimeUpdate);
          return;
        }
        current, ended, paused := duration.value, true, true;
        events.Push(TimeUpdate);
        events.Push(Ended);
        return;
      }
      events.Push(TimeUpdate);
    }

    method SetPlaybackRate(value: Number)
      requires events.Valid()
      modifies this, events
      ensures events.Valid() && View() == SetRate(old(View()), value).state
      ensures events.history == old(events.history) + SetRate(old(View()), value).events
    {
      if value.Finite? && 0.25 <= value.value <= 4.0 && rate != value.value {
        rate := value.value;
        events.Push(RateChange);
      }
    }

    method Fail()
      requires events.Valid()
      modifies this, events
      ensures events.Valid() && View() == FailOut(old(View())).state
      ensures events.history == old(events.history) + FailOut(old(View())).events
    {
      failed, paused, network := true, true, NoSource;
      events.Push(Error);
    }
  }
}
