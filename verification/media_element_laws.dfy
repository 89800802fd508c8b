/** What every run of a media element keeps, and what its event log says. */
module MediaElementLaws {
  import opened MediaElement
  import opened Wrappers

  /** Everything a caller can do, and what the owner of an attached media source can do to it. */
  datatype Action =
    | AttachSourceAction(source: Source) | LoadAction(supported: bool) | AttachDecodedAction(length: int)
    | SourceChanges(source: Source) | SynchronizeAction | StartAction | PauseAction | SeekAction(seconds: Number)
    | TickAction(elapsed: nat) | RateAction(rate: Number) | LoopAction(on: bool) | AutoplayAction(on: bool) | FailAction

  function Step(s: State, a: Action): (out: Out) {
    match a
    case AttachSourceAction(source) => AttachSource(s, source)
    case LoadAction(supported) => LoadUrl(s, supported)
    case AttachDecodedAction(length) => AttachDecoded(s, length)
    case SourceChanges(source) => Out(if s.source.Some? then s.(source := Some(source)) else s, [])
    case SynchronizeAction => Synchronize(s)
    case StartAction => StartOut(s)
    case PauseAction => PauseOut(s)
    case SeekAction(seconds) => SeekOut(s, seconds)
    case TickAction(elapsed) => TickOut(s, elapsed)
    case RateAction(rate) => SetRate(s, rate)
    case LoopAction(on) => Out(s.(looping := on), [])
    case AutoplayAction(on) => Out(s.(autoplay := on), [])
    case FailAction => FailOut(s)
  }

  ghost predicate IsStep(before: State, a: Action, after: State) {
    after == Step(before, a).state
  }

  /** `trace[i]` is the element before action `i`; the first one is new. */
  ghost predicate IsRun(trace: seq<State>, actions: seq<Action>) {
    && |trace| == |actions| + 1 && trace[0] == NEW
    && forall i :: 0 <= i < |actions| ==> IsStep(trace[i], actions[i], trace[i + 1])
  }

  /** Every event raised by the first `n` actions. */
  function Log(trace: seq<State>, actions: seq<Action>, n: nat): (log: seq<Event>)
    requires n <= |actions| < |trace|
  {
    if n == 0 then [] else Log(trace, actions, n - 1) + Step(trace[n - 1], actions[n - 1]).events
  }

  // ---- The invariant --------------------------------------------------------------------------

  predicate Holds(d: Option<int>, direct: Range, at: int) {
    d.Some? && d.value > 0 && direct == Range(0, d.value) && 0 <= at <= d.value
  }

  predicate Inv(s: State) {
    && (s.ended ==> s.paused) && (s.failed ==> s.paused) && !s.seeking && s.rate >= 0.25
    && (s.network == Empty ==> s.paused && s.ready == HaveNothing && s.source.None? && s.direct.None?)
    && (s.direct.Some? ==>
          s.source.None? && Holds(s.duration, s.direct.value, s.current)
          && (s.ready == HaveEnoughData || s.ready == HaveMetadata))
  }

  predicate Stops(e: Event) {
    e == Pause || e == Ended || e == Error || e == Emptied
  }

  /** Whether an observer who only reads the log takes the element to be playing. */
  function Heard(playing: bool, events: seq<Event>): (now: bool)
    decreases |events|
  {
    if events == [] then playing
    else Heard(events[0] == Play || (playing && !Stops(events[0])), events[1..])
  }

  /** No `Play` is raised while such an observer takes it to be playing already. */
  predicate Alternates(playing: bool, events: seq<Event>)
    decreases |events|
  {
    events == []
    || (!(playing && events[0] == Play)
        && Alternates(events[0] == Play || (playing && !Stops(events[0])), events[1..]))
  }

  lemma {:induction false} HeardAppend(playing: bool, a: seq<Event>, b: seq<Event>)
    ensures Heard(playing, a + b) == Heard(Heard(playing, a), b)
    ensures Alternates(playing, a + b) <==> Alternates(playing, a) && Alternates(Heard(playing, a), b)
    decreases |a|
  {
    if a == [] {
      assert a + b == b;
    } else {
      assert (a + b)[1..] == a[1..] + b;
      HeardAppend(a[0] == Play || (playing && !Stops(a[0])), a[1..], b);
    }
  }

  /** The observer is right after `events`, having been right before. */
  predicate Tells(was: State, events: seq<Event>, now: State) {
    Heard(!was.paused, events) == !now.paused && Alternates(!was.paused, events)
  }

  predicate IsQuiet(events: seq<Event>) {
    forall e <- events :: e != Play && !Stops(e)
  }

  lemma {:induction false} QuietIsUnheard(playing: bool, events: seq<Event>)
    requires IsQuiet(events)
    ensures Heard(playing, events) == playing && Alternates(playing, events)
    decreases |events|
  {
    if events != [] {
      assert events[0] in events;
      QuietIsUnheard(playing, events[1..]);
    }
  }

  lemma TellsThen(a: State, first: seq<Event>, b: State, second: seq<Event>, c: State)
    requires Tells(a, first, b) && Tells(b, second, c)
    ensures Tells(a, first + second, c)
  {
    HeardAppend(!a.paused, first, second);
  }

  lemma TellsQuietly(was: State, events: seq<Event>, now: State)
    requires IsQuiet(events) && was.paused == now.paused
    ensures Tells(was, events, now)
  {
    QuietIsUnheard(!was.paused, events);
  }

  lemma TellsOne(was: State, e: Event, now: State)
    requires if e == Play then was.paused && !now.paused else if Stops(e) then now.paused else was.paused == now.paused
    ensures Tells(was, [e], now)
  {
    assert [e][1..] == [];
  }

  // ---- One action -----------------------------------------------------------------------------

  lemma ResetTells(s: State)
    requires Inv(s)
    ensures Tells(s, ResetResource(s).events, ResetResource(s).state)
  {
    if s.network != Empty {
      TellsOne(s, Emptied, ResetResource(s).state);
    }
  }

  lemma StartTells(s: State)
    ensures Tells(s, StartOut(s).events, StartOut(s).state)
  {
    if CanStart(s) && s.paused {
      var on := s.(paused := false);
      TellsOne(s, Play, on);
      TellsOne(on, Playing, StartOut(s).state);
      TellsThen(s, [Play], on, [Playing], StartOut(s).state);
      assert [Play] + [Playing] == [Play, Playing];
    }
  }

  lemma UpdateTells(s: State, source: Source)
    ensures Tells(s, Updated(s, source).events, Updated(s, source).state)
  {
    var timed := TakeDuration(s, source);
    var next := ReadyFor(BufferedAhead(timed.state), timed.state.duration.Some?);
    RaisingIsQuiet(timed.state.ready, next);
    JoinQuiet(timed.events, RaiseEvents(timed.state.ready, next), [Progress]);
    TellsQuietly(s, Updated(s, source).events, Updated(s, source).state);
  }

  lemma RaisingIsQuiet(now: Ready, next: Ready)
    ensures IsQuiet(RaiseEvents(now, next))
  {
  }

  lemma JoinQuiet(a: seq<Event>, b: seq<Event>, c: seq<Event>)
    requires IsQuiet(a) && IsQuiet(b) && IsQuiet(c)
    ensures IsQuiet(a + b + c)
  {
  }

  lemma SynchronizeTells(s: State)
    ensures Tells(s, Synchronize(s).events, Synchronize(s).state)
  {
    if s.source.Some? {
      var updated := Updated(s, s.source.value);
      UpdateTells(s, s.source.value);
      StartTells(updated.state);
      TellsThen(s, updated.events, updated.state, StartOut(updated.state).events, StartOut(updated.state).state);
    }
  }

  lemma AttachSourceTells(s: State, source: Source)
    requires Inv(s)
    ensures Tells(s, AttachSource(s, source).events, AttachSource(s, source).state)
  {
    var clean := ResetResource(s);
    var attached := clean.state.(source := Some(source), network := Loading);
    ResetTells(s);
    TellsOne(clean.state, LoadStart, attached);
    TellsThen(s, clean.events, clean.state, [LoadStart], attached);
    SynchronizeTells(attached);
    TellsThen(s, clean.events + [LoadStart], attached, Synchronize(attached).events, Synchronize(attached).state);
  }

  lemma LoadTells(s: State)
    requires Inv(s)
    ensures Tells(s, LoadUrl(s, true).events, LoadUrl(s, true).state)
  {
    var clean := ResetResource(s);
    ResetTells(s);
    TellsOne(clean.state, LoadStart, LoadUrl(s, true).state);
    TellsThen(s, clean.events, clean.state, [LoadStart], LoadUrl(s, true).state);
  }

  lemma AttachDecodedTells(s: State, length: int)
    requires Inv(s)
    ensures Tells(s, AttachDecoded(s, length).events, AttachDecoded(s, length).state)
  {
    if length > 0 {
      ResetTells(s);
      DecodedTells(s, ResetResource(s), AttachDecoded(s, length).state);
    } else {
      TellsQuietly(s, [], s);
    }
  }

  lemma DecodedTells(s: State, clean: Out, now: State)
    requires Tells(s, clean.events, clean.state) && clean.state.paused == now.paused
    ensures Tells(s, clean.events + DECODED_EVENTS, now)
  {
    TellsQuietly(clean.state, DECODED_EVENTS, now);
    TellsThen(s, clean.events, clean.state, DECODED_EVENTS, now);
  }

  lemma SeekTells(s: State, seconds: Number)
    ensures Tells(s, SeekOut(s, seconds).events, SeekOut(s, seconds).state)
  {
    if CanSeek(s, seconds) {
      var moved := Moved(s, seconds);
      var synced, after := Synchronize(moved), SeekOut(s, seconds).state;
      TellsOne(s, Seeking, moved);
      SynchronizeTells(moved);
      TellsThen(s, [Seeking], moved, synced.events, synced.state);
      TellsQuietly(synced.state, [TimeUpdate, Seeked], after);
      TellsThen(s, [Seeking] + synced.events, synced.state, [TimeUpdate, Seeked], after);
    }
  }

  lemma RunTells(s: State, elapsed: nat)
    ensures Tells(s, Run(s, elapsed).events, Run(s, elapsed).state)
  {
    var after := Run(s, elapsed);
    if Ended in after.events {
      TellsOne(s, TimeUpdate, s);
      TellsOne(s, Ended, after.state);
      TellsThen(s, [TimeUpdate], s, [Ended], after.state);
      assert [TimeUpdate] + [Ended] == after.events;
    } else {
      TellsQuietly(s, after.events, after.state);
    }
  }

  lemma TickTells(s: State, elapsed: nat)
    ensures Tells(s, TickOut(s, elapsed).events, TickOut(s, elapsed).state)
  {
    if !(s.paused || s.seeking || elapsed == 0) {
      var synced := Synchronize(s);
      SynchronizeTells(s);
      RunTells(synced.state, elapsed);
      TellsThen(s, synced.events, synced.state, Run(synced.state, elapsed).events, Run(synced.state, elapsed).state);
    }
  }

  lemma StepTells(s: State, a: Action)
    requires Inv(s)
    ensures Tells(s, Step(s, a).events, Step(s, a).state)
  {
    match a
    case AttachSourceAction(source) => AttachSourceTells(s, source);
    case LoadAction(supported) => if supported { LoadTells(s); }
    case AttachDecodedAction(length) => AttachDecodedTells(s, length);
    case SynchronizeAction => SynchronizeTells(s);
    case StartAction => StartTells(s);
    case SeekAction(seconds) => SeekTells(s, seconds);
    case TickAction(elapsed) => TickTells(s, elapsed);
    case PauseAction => if !s.paused { TellsOne(s, Pause, Step(s, a).state); }
    case FailAction => TellsOne(s, Error, Step(s, a).state);
    case RateAction(_) => TellsQuietly(s, Step(s, a).events, Step(s, a).state);
    case _ =>
  }

  lemma SynchronizeKeeps(s: State)
    requires (s.ended ==> s.paused) && (s.failed ==> s.paused)
    ensures var t := Synchronize(s).state;
            && (t.ended ==> t.paused) && (t.failed ==> t.paused)
            && t.seeking == s.seeking && t.rate == s.rate && t.source == s.source && t.direct == s.direct
            && (s.source.None? ==> t == s) && (s.source.Some? ==> t.network != Empty)
            && (!s.paused ==> !t.paused && t.current == s.current)
  {
  }

  lemma RunKeeps(s: State, elapsed: nat)
    requires Inv(s) && !s.paused
    ensures Inv(Run(s, elapsed).state)
  {
    AdvanceIsForward(elapsed, s.rate);
  }

  lemma TickKeeps(s: State, elapsed: nat)
    requires Inv(s)
    ensures Inv(TickOut(s, elapsed).state)
  {
    if !s.paused {
      SynchronizeKeeps(s);
      RunKeeps(Synchronize(s).state, elapsed);
    }
  }

  /** Ticks never move backwards at a rate the element accepts. */
  lemma AdvanceIsForward(elapsed: nat, rate: real)
    ensures rate >= 0.0 ==> Advance(elapsed, rate) >= 0
  {
    if rate >= 0.0 {
      ProductIsPositive(elapsed as real * 1_000.0, rate);
    }
  }

  lemma ProductIsPositive(a: real, b: real)
    requires a >= 0.0 && b >= 0.0
    ensures a * b >= 0.0
  {
  }

  lemma SeekKeeps(s: State, seconds: Number)
    requires Inv(s)
    ensures Inv(SeekOut(s, seconds).state)
  {
    if CanSeek(s, seconds) {
      ProductIsPositive(seconds.value, 1_000_000.0);
      SynchronizeKeeps(Moved(s, seconds));
    }
  }

  lemma StepKeeps(s: State, a: Action)
    requires Inv(s)
    ensures Inv(Step(s, a).state)
  {
    match a
    case AttachSourceAction(source) =>
      SynchronizeKeeps(ResetResource(s).state.(source := Some(source), network := Loading));
    case SynchronizeAction => SynchronizeKeeps(s);
    case SeekAction(seconds) => SeekKeeps(s, seconds);
    case TickAction(elapsed) => TickKeeps(s, elapsed);
    case _ =>
  }

  // ---- Every run --------------------------------------------------------------------------------

  /** After any run: ended or failed implies paused, and a decoded stream's position is within its duration. */
  lemma {:induction false} RunKeepsInv(trace: seq<State>, actions: seq<Action>, n: nat)
    requires IsRun(trace, actions) && n <= |actions|
    ensures Inv(trace[n])
  {
    if n > 0 {
      RunKeepsInv(trace, actions, n - 1);
      StepKeeps(trace[n - 1], actions[n - 1]);
      assert IsStep(trace[n - 1], actions[n - 1], trace[n]);
    }
  }

  predicate LogTells(trace: seq<State>, actions: seq<Action>, n: nat)
    requires n <= |actions| < |trace|
  {
    Tells(NEW, Log(trace, actions, n), trace[n])
  }

  lemma {:induction false} EveryLogTells(trace: seq<State>, actions: seq<Action>, n: nat)
    requires IsRun(trace, actions) && n <= |actions|
    ensures LogTells(trace, actions, n)
  {
    if n == 0 {
      TellsQuietly(NEW, [], trace[0]);
    } else {
      EveryLogTells(trace, actions, n - 1);
      LogTellsOn(trace, actions, n);
    }
  }

  lemma LogTellsOn(trace: seq<State>, actions: seq<Action>, n: nat)
    requires IsRun(trace, actions) && 0 < n <= |actions| && LogTells(trace, actions, n - 1)
    ensures LogTells(trace, actions, n)
  {
    RunKeepsInv(trace, actions, n - 1);
    assert IsStep(trace[n - 1], actions[n - 1], trace[n]);
    LogGrows(Log(trace, actions, n - 1), Log(trace, actions, n), trace[n - 1], actions[n - 1], trace[n]);
  }

  /** The log of a run determines whether the element is paused, and never raises `Play` while it plays. */
  lemma LogTellsPlayback(trace: seq<State>, actions: seq<Action>, n: nat)
    requires IsRun(trace, actions) && n <= |actions|
    ensures Tells(NEW, Log(trace, actions, n), trace[n])
  {
    EveryLogTells(trace, actions, n);
  }

  lemma LogGrows(log: seq<Event>, grown: seq<Event>, before: State, a: Action, after: State)
    requires Tells(NEW, log, before) && Inv(before) && IsStep(before, a, after)
    requires grown == log + Step(before, a).events
    ensures Tells(NEW, grown, after)
  {
    StepTells(before, a);
    TellsThen(NEW, log, before, Step(before, a).events, after);
  }

  lemma {:induction false} StopBetween(playing: bool, events: seq<Event>, j: nat)
    requires j < |events| && events[j] == Play && Alternates(playing, events) && playing
    ensures exists k :: 0 <= k < j && Stops(events[k])
    decreases |events|
  {
    if Stops(events[0]) {
      assert 0 < j;
    } else {
      assert j > 0 && events[1..][j - 1] == Play;
      StopBetween(true, events[1..], j - 1);
      var k :| 0 <= k < j - 1 && Stops(events[1..][k]);
      assert events[k + 1] == events[1..][k];
    }
  }

  lemma {:induction false} AlternatesFrom(playing: bool, events: seq<Event>, i: nat)
    requires i < |events| && Alternates(playing, events) && events[i] == Play
    ensures Alternates(true, events[i + 1..])
    decreases |events|
  {
    if i > 0 {
      AlternatesFrom(events[0] == Play || (playing && !Stops(events[0])), events[1..], i - 1);
      assert events[1..][i..] == events[i + 1..];
    }
  }

  lemma StopBetweenPlays(log: seq<Event>, i: nat, j: nat)
    requires Alternates(false, log) && i < j < |log| && log[i] == log[j] == Play
    ensures exists k :: i < k < j && Stops(log[k])
  {
    AlternatesFrom(false, log, i);
    assert log[i + 1..][j - i - 1] == Play;
    StopBetween(true, log[i + 1..], j - i - 1);
    var k :| 0 <= k < j - i - 1 && Stops(log[i + 1..][k]);
    assert log[i + 1..][k] == log[i + 1 + k];
  }

  /** In the full event history of any run, between two `Play` events there is a pause, end, error or reset. */
  lemma PlaysAreSeparated(trace: seq<State>, actions: seq<Action>, n: nat, i: nat, j: nat)
    requires IsRun(trace, actions) && n <= |actions|
    requires i < j < |Log(trace, actions, n)| && Log(trace, actions, n)[i] == Log(trace, actions, n)[j] == Play
    ensures exists k :: i < k < j && Stops(Log(trace, actions, n)[k])
  {
    LogTellsPlayback(trace, actions, n);
    StopBetweenPlays(Log(trace, actions, n), i, j);
  }

  // ---- A decoded stream at its end ------------------------------------------------------------

  predicate Replaces(a: Action) {
    a.AttachSourceAction? || (a.LoadAction? && a.supported) || (a.AttachDecodedAction? && a.length > 0)
  }

  /** A tick that finds a decoded stream playing at its very end, as after a seek there. */
  predicate StallsOn(s: State, a: Action) {
    a.TickAction? && a.elapsed > 0 && !s.paused && s.duration == Some(s.current)
  }

  /** Readiness of a decoded stream: lost on exactly such a tick, and never regained. */
  lemma DecodedReadiness(s: State, a: Action)
    requires Inv(s) && s.direct.Some? && !Replaces(a)
    ensures var after := Step(s, a).state;
            && after.direct == s.direct
            && (after.ready == HaveEnoughData <==> s.ready == HaveEnoughData && !StallsOn(s, a))
  {
    StepKeeps(s, a);
    if a.TickAction? && !s.paused && a.elapsed > 0 {
      AheadOfDecoded(s);
    }
  }

  lemma AheadOfDecoded(s: State)
    requires Inv(s) && s.direct.Some?
    ensures BufferedAhead(s) == s.duration.value - s.current
  {
    assert [s.direct.value][1..] == [];
    assert Ahead([s.direct.value][1..], s.current) == 0;
  }

  /** From then on the stream cannot be started again, whatever is done short of loading another resource. */
  lemma {:induction false} StalledForGood(trace: seq<State>, actions: seq<Action>, from: nat, n: nat)
    requires IsRun(trace, actions) && from <= n <= |actions|
    requires trace[from].direct.Some? && trace[from].ready == HaveMetadata
    requires forall i :: from <= i < n ==> !Replaces(actions[i])
    ensures trace[n].direct.Some? && trace[n].ready == HaveMetadata && !CanStart(trace[n])
  {
    if from < n {
      StalledForGood(trace, actions, from, n - 1);
      RunKeepsInv(trace, actions, n - 1);
      DecodedReadiness(trace[n - 1], actions[n - 1]);
      assert IsStep(trace[n - 1], actions[n - 1], trace[n]);
      RunKeepsInv(trace, actions, n);
    }
  }

  /** It takes three calls: seek to the end of a ready stream, start, tick. */
  lemma SeekToEndStalls(s: State)
    requires Inv(s) && s.direct.Some? && !s.failed && s.ready == HaveEnoughData
    requires s.duration.value == 10_000_000
    ensures var sought := Step(s, SeekAction(Finite(10.0))).state;
            var playing := Step(sought, StartAction).state;
            var ticked := Step(playing, TickAction(1)).state;
            && !playing.paused && playing.current == 10_000_000
            && ticked.ready == HaveMetadata && !CanStart(ticked)
  {
    var sought := Step(s, SeekAction(Finite(10.0))).state;
    assert 10.0 * 1_000_000.0 == 10_000_000.0;
    StepKeeps(s, SeekAction(Finite(10.0)));
    var playing := Step(sought, StartAction).state;
    StepKeeps(sought, StartAction);
    AheadOfDecoded(playing);
  }
}
