/** The PipeWire output of one track (vibe/src/pipewire_out.rs): the process callback, which decodes,
    serves skips, hands bytes to the server and keeps the play position. */
module PipewireOut {
  import opened Bytes
  import opened Decoder
  import opened SkipLoop
  import SkipTheorems
  import PlayClock

  datatype ProcessState = Running | Draining

  datatype Msg = NotSupported | EndOfDecode

  datatype Track = Track(
    state: ProcessState,
    buf: seq<Byte>,
    rest: seq<Outcome<Byte>>,
    tape: seq<Piece<Byte>>,
    flushes: nat,
    messages: seq<Msg>,
    clock: PlayClock.Clock
  )

  /** One process callback: the skip request it takes, the fill limits of its passes, the size of the
      server's buffer if there is one, and the clock if it can be read. */
  datatype Callback = Callback(skip: nat, lim: nat -> Limit, room: Option<nat>, time: Option<PlayClock.Time>)

  function Prefilled(rest: seq<Outcome<Byte>>, limit: nat): Option<Track> {
    var f := FillRetrying([], rest, limit);
    if f.result.Failed? then None else Some(Track(Running, f.buf, f.rest, [], 0, [], PlayClock.FRESH))
  }

  function Start(t: Track, skip: nat): Pump<Byte> {
    Pump(t.buf, t.rest, skip, 0, 0, 0, 0, [])
  }

  /** The track once the fill-and-skip loop has ended in q. */
  function AfterLoop(t: Track, q: Pump<Byte>): Track {
    t.(buf := q.buf, rest := q.rest,
       state := if q.failures > 0 then Draining else t.state,
       messages := t.messages + Repeat(NotSupported, q.failures),
       tape := t.tape + (if q.passes > 0 then [Skipped(q.dropped)] else []))
  }

  /** Asks for a flush when nothing is buffered, else hands over what the server has room for. */
  function HandedOver(t: Track, room: Option<nat>): Track {
    if t.buf == [] then t.(flushes := t.flushes + 1)
    else if room.None? then t
    else
      var n := Min(room.value, |t.buf|);
      t.(buf := t.buf[n..], tape := t.tape + [Passed(t.buf[..n])])
  }

  /** Nothing when the callback never returns. */
  function AfterProcess(t: Track, c: Callback, sps: nat): Option<Track>
    requires sps > 0
  {
    if t.state.Draining? then
      Some(HandedOver(t, c.room).(clock := PlayClock.OnProcess(t.clock, 0, c.time)))
    else
      var r := Loop(Start(t, c.skip), sps, 4, c.lim, 0);
      if r.Hangs? then None
      else
        var u := HandedOver(AfterLoop(t, r.state), c.room);
        var v := u.(clock := PlayClock.OnProcess(t.clock, r.state.offset, c.time));
        if r.eod && v.state.Running? then Some(v.(state := Draining, messages := v.messages + [EndOfDecode]))
        else Some(v)
  }

  /** A callback of the server, or a call of the player on the playing stream. */
  datatype Event = Process(callback: Callback) | Pause | Unpause

  function React(t: Track, e: Event, sps: nat): Option<Track>
    requires sps > 0
  {
    match e
    case Process(c) => AfterProcess(t, c, sps)
    case Pause => Some(t.(clock := PlayClock.OnPause(t.clock)))
    case Unpause => Some(t)
  }

  function RunEvents(t: Track, events: seq<Event>, sps: nat): Option<Track>
    requires sps > 0
    decreases |events|
  {
    if events == [] then Some(t)
    else
      var u := RunEvents(t, events[..|events| - 1], sps);
      if u.None? then None else React(u.value, events[|events| - 1], sps)
  }

  // ---------------------------------------------------------------------------------------------
  // What every callback keeps
  // ---------------------------------------------------------------------------------------------

  function Stream(t: Track): seq<Byte> {
    Spool(t.tape) + t.buf + Packets(t.rest)
  }

  /** Silence while running; afterwards either one EndOfDecode, with the whole stream decoded, or
      stream errors and no EndOfDecode. */
  predicate MessagesFollow(t: Track) {
    match t.state
    case Running => t.messages == []
    case Draining =>
      || (t.messages == [EndOfDecode] && t.rest == [])
      || (t.messages != [] && forall i :: 0 <= i < |t.messages| ==> t.messages[i] == NotSupported)
  }

  predicate Inv(t: Track) {
    MessagesFollow(t) && (t.flushes > 0 ==> t.state.Draining? && t.buf == [])
  }

  lemma HandOverKeeps(t: Track, room: Option<nat>)
    ensures var u := HandedOver(t, room);
            && Stream(u) == Stream(t)
            && u == t.(buf := u.buf, tape := u.tape, flushes := u.flushes)
            && (u.flushes > t.flushes ==> u.buf == [] && t.buf == [])
            && (t.buf == [] ==> u.buf == [])
  {
    if t.buf != [] && room.Some? {
      var n := Min(room.value, |t.buf|);
      SpoolSnoc(t.tape, Passed(t.buf[..n]));
      Assoc(Spool(t.tape), t.buf[..n], t.buf[n..]);
      assert t.buf[..n] + t.buf[n..] == t.buf;
    }
  }

  lemma AfterLoopConserves(t: Track, c: Callback, sps: nat)
    requires sps > 0
    ensures Stream(AfterLoop(t, Loop(Start(t, c.skip), sps, 4, c.lim, 0).state)) == Stream(t)
  {
    var p := Start(t, c.skip);
    var q := Loop(p, sps, 4, c.lim, 0).state;
    LoopConserves(p, sps, 4, c.lim, 0);
    LoopDropsOnlyInPasses(p, sps, 4, c.lim, 0);
    var u := AfterLoop(t, q);
    assert q.dropped + q.buf + Packets(q.rest) == t.buf + Packets(t.rest) by {
      assert [] + t.buf == t.buf;
    }
    if q.passes > 0 {
      SpoolSnoc(t.tape, Skipped(q.dropped));
    } else {
      assert t.tape + [] == t.tape;
      assert q.dropped + q.buf == q.buf;
    }
    assert Spool(u.tape) == Spool(t.tape) + q.dropped;
    Regroup(Spool(t.tape), q.dropped, q.buf, Packets(q.rest));
    Assoc(Spool(t.tape), t.buf, Packets(t.rest));
  }

  lemma ProcessKeeps(t: Track, c: Callback, sps: nat)
    requires sps > 0 && Inv(t) && AfterProcess(t, c, sps).Some?
    ensures var v := AfterProcess(t, c, sps).value; Inv(v) && Stream(v) == Stream(t)
  {
    if t.state.Draining? {
      HandOverKeeps(t, c.room);
    } else {
      var p := Start(t, c.skip);
      var r := Loop(p, sps, 4, c.lim, 0);
      LoopEnds(p, sps, 4, c.lim, 0);
      AfterLoopConserves(t, c, sps);
      var u := AfterLoop(t, r.state);
      assert u.messages == Repeat(NotSupported, r.state.failures);
      HandOverKeeps(u, c.room);
      var v := AfterProcess(t, c, sps).value;
      if v.state.Draining? && r.state.failures == 0 {
        assert v.messages == [EndOfDecode];
      }
    }
  }

  lemma {:induction false} RunKeeps(t: Track, events: seq<Event>, sps: nat)
    requires sps > 0 && Inv(t) && RunEvents(t, events, sps).Some?
    ensures var v := RunEvents(t, events, sps).value; Inv(v) && Stream(v) == Stream(t)
    decreases |events|
  {
    if events != [] {
      var k := |events| - 1;
      RunKeeps(t, events[..k], sps);
      if events[k].Process? {
        ProcessKeeps(RunEvents(t, events[..k], sps).value, events[k].callback, sps);
      }
    }
  }

  lemma PrefillKeeps(rest: seq<Outcome<Byte>>, limit: nat)
    requires Prefilled(rest, limit).Some?
    ensures var t := Prefilled(rest, limit).value; Inv(t) && Stream(t) == Packets(rest)
  {
    FillRetryingFacts([], rest, limit);
    var t := Prefilled(rest, limit).value;
    assert Spool(t.tape) + t.buf == t.buf;
    assert [] + Packets(rest) == Packets(rest);
  }

  /** Over every run of callbacks and pauses: what was handed over and what was skipped, then the
      buffer, then what is still to be decoded, is the stream, in order. EndOfDecode is sent at most
      once and never after a decoder error. A flush is asked for only after decoding ended or failed
      and every remaining byte was handed over; with no error that is the whole stream. */
  lemma PipewireRun(rest: seq<Outcome<Byte>>, limit: nat, events: seq<Event>, sps: nat)
    requires sps > 0 && Prefilled(rest, limit).Some?
    requires RunEvents(Prefilled(rest, limit).value, events, sps).Some?
    ensures var t := RunEvents(Prefilled(rest, limit).value, events, sps).value;
            && MessagesFollow(t)
            && Spool(t.tape) + t.buf + Packets(t.rest) == Packets(rest)
            && (t.flushes > 0 ==> t.state.Draining? && t.buf == [])
            && (t.flushes > 0 && NotSupported !in t.messages ==> Spool(t.tape) == Packets(rest))
  {
    PrefillKeeps(rest, limit);
    RunKeeps(Prefilled(rest, limit).value, events, sps);
    var t := RunEvents(Prefilled(rest, limit).value, events, sps).value;
    if t.flushes > 0 && NotSupported !in t.messages {
      assert t.messages[0] in t.messages;
      assert t.rest == [] && t.buf == [];
    }
  }

  // ---------------------------------------------------------------------------------------------
  // What a callback hands over
  // ---------------------------------------------------------------------------------------------

  /** What is buffered, and the tape, when a callback comes to hand something over: as they were once
      decoding has ended, else as the fill-and-skip loop leaves them. */
  function ToHandOver(t: Track, c: Callback, sps: nat): (seq<Byte>, seq<Piece<Byte>>)
    requires sps > 0
  {
    if t.state.Draining? then (t.buf, t.tape)
    else
      var q := Loop(Start(t, c.skip), sps, 4, c.lim, 0).state;
      (q.buf, if q.passes > 0 then t.tape + [Skipped(q.dropped)] else t.tape)
  }

  /** With something buffered and room for r bytes exactly the first min(r, buffered) bytes go out and
      the rest stays; without room nothing moves; with nothing buffered exactly one flush is asked for.
      What is decoded is only what the loop decodes. */
  lemma ProcessHandsOver(t: Track, c: Callback, sps: nat)
    requires sps > 0 && AfterProcess(t, c, sps).Some?
    ensures var v := AfterProcess(t, c, sps).value;
            var (buf, tape) := ToHandOver(t, c, sps);
            && v.rest == (if t.state.Draining? then t.rest else Loop(Start(t, c.skip), sps, 4, c.lim, 0).state.rest)
            && (if buf == [] then v.buf == [] && v.tape == tape && v.flushes == t.flushes + 1
                else
                  && v.flushes == t.flushes
                  && match c.room
                     case None => v.buf == buf && v.tape == tape
                     case Some(r) => v.buf == Tail(buf, r) && v.tape == tape + [Passed(Head(buf, r))])
  {
    var (buf, tape) := ToHandOver(t, c, sps);
    assert t.tape + [] == t.tape;
    assert buf[..|buf|] == buf && buf[|buf|..] == [];
  }

  /** Decoding ends in the callback whose last fill fell short, or which met a stream error, and what it
      says says which; a callback after that says nothing. */
  lemma ProcessEndsDecoding(t: Track, c: Callback, sps: nat)
    requires sps > 0 && AfterProcess(t, c, sps).Some?
    ensures var v := AfterProcess(t, c, sps).value;
            if t.state.Draining? then v.state.Draining? && v.messages == t.messages
            else
              var r := Loop(Start(t, c.skip), sps, 4, c.lim, 0);
              var n := r.state.failures;
              && (v.state.Draining? <==> n > 0 || r.eod)
              && v.messages == t.messages + Repeat(NotSupported, n) + (if r.eod && n == 0 then [EndOfDecode] else [])
  {
    if !t.state.Draining? {
      var r := Loop(Start(t, c.skip), sps, 4, c.lim, 0);
      HandOverKeeps(AfterLoop(t, r.state), c.room);
      var m := t.messages + Repeat(NotSupported, r.state.failures);
      assert m + [] == m;
    }
  }

  /** A pause folds the clock; neither it nor the call to unpause does anything else. */
  lemma PauseOnlyFolds(t: Track, sps: nat)
    requires sps > 0
    ensures React(t, Pause, sps) == Some(t.(clock := PlayClock.Clock(t.clock.duration, None, t.clock.duration)))
    ensures React(t, Unpause, sps) == Some(t)
  {
  }

  /** Nothing is started exactly when prefilling met a stream error; otherwise the buffer holds at least
      the limit, or all there is. */
  lemma PrefilledIff(rest: seq<Outcome<Byte>>, limit: nat)
    ensures Prefilled(rest, limit).None? <==> FillRetrying([], rest, limit).result.Failed?
    ensures Prefilled(rest, limit).Some? ==>
              var t := Prefilled(rest, limit).value;
              && (|t.buf| >= limit || (t.rest == [] && t.buf == Packets(rest)))
              && t == Track(Running, t.buf, t.rest, [], 0, [], PlayClock.Clock(0, None, 0))
  {
    FillRetryingFacts([], rest, limit);
    assert [] + Packets(rest) == Packets(rest);
    var f := FillRetrying([], rest, limit);
    assert f.buf + [] == f.buf;
  }

  function Rooms(cs: seq<Callback>): nat {
    if cs == [] then 0
    else Rooms(cs[..|cs| - 1]) + (if cs[|cs| - 1].room.Some? then cs[|cs| - 1].room.value else 0)
  }

  function AsEvents(cs: seq<Callback>): (events: seq<Event>)
    ensures |events| == |cs|
  {
    if cs == [] then [] else AsEvents(cs[..|cs| - 1]) + [Process(cs[|cs| - 1])]
  }

  /** Once decoding has ended every callback returns, and any number of them hand over exactly as much
      of the buffer as they had room for in all. */
  lemma {:induction false} DrainsIntoRoom(t: Track, cs: seq<Callback>, sps: nat)
    requires sps > 0 && t.state.Draining?
    ensures RunEvents(t, AsEvents(cs), sps).Some?
    ensures var v := RunEvents(t, AsEvents(cs), sps).value;
            && v.state.Draining? && v.rest == t.rest && v.messages == t.messages
            && v.buf == Tail(t.buf, Rooms(cs)) && Spool(v.tape) == Spool(t.tape) + Head(t.buf, Rooms(cs))
    decreases |cs|
  {
    if cs == [] {
      assert Spool(t.tape) + t.buf[..0] == Spool(t.tape);
    } else {
      var k := |cs| - 1;
      DrainsIntoRoom(t, cs[..k], sps);
      assert AsEvents(cs)[..k] == AsEvents(cs[..k]);
      var u := RunEvents(t, AsEvents(cs[..k]), sps).value;
      var v := RunEvents(t, AsEvents(cs), sps).value;
      assert v == AfterProcess(u, cs[k], sps).value;
      DrainsOnce(u, cs[k], sps);
      DrainsOn(t, u, v, Rooms(cs[..k]), Rooms(cs) - Rooms(cs[..k]));
    }
  }

  lemma DrainsOn(t: Track, u: Track, v: Track, before: nat, r: nat)
    requires u.buf == Tail(t.buf, before) && Spool(u.tape) == Spool(t.tape) + Head(t.buf, before)
    requires v.buf == Tail(u.buf, r) && Spool(v.tape) == Spool(u.tape) + Head(u.buf, r)
    ensures v.buf == Tail(t.buf, before + r) && Spool(v.tape) == Spool(t.tape) + Head(t.buf, before + r)
  {
    HeadTail(t.buf, before, r);
    Assoc(Spool(t.tape), Head(t.buf, before), Head(u.buf, r));
  }

  lemma DrainsOnce(u: Track, c: Callback, sps: nat)
    requires sps > 0 && u.state.Draining?
    ensures AfterProcess(u, c, sps).Some?
    ensures var v := AfterProcess(u, c, sps).value;
            var r := if c.room.Some? then c.room.value else 0;
            && v.state.Draining? && v.rest == u.rest && v.messages == u.messages
            && v.buf == Tail(u.buf, r) && Spool(v.tape) == Spool(u.tape) + Head(u.buf, r)
  {
    ProcessHandsOver(u, c, sps);
    var r := if c.room.Some? then c.room.value else 0;
    assert Spool(u.tape) + [] == Spool(u.tape);
    SpoolSnoc(u.tape, Passed(Head(u.buf, r)));
  }

  // ---------------------------------------------------------------------------------------------
  // The play position of a run
  // ---------------------------------------------------------------------------------------------

  /** What one event tells the clock: a callback reports the milliseconds its loop skipped. */
  function ClockEvent(t: Track, e: Event, sps: nat): PlayClock.Event
    requires sps > 0
  {
    match e
    case Process(c) =>
      PlayClock.Process(if t.state.Draining? then 0 else Loop(Start(t, c.skip), sps, 4, c.lim, 0).state.offset, c.time)
    case Pause => PlayClock.Pause
    case Unpause => PlayClock.Unpause
  }

  function ClockEvents(t: Track, events: seq<Event>, sps: nat): seq<PlayClock.Event>
    requires sps > 0 && RunEvents(t, events, sps).Some?
    decreases |events|
  {
    if events == [] then []
    else
      var k := |events| - 1;
      ClockEvents(t, events[..k], sps) + [ClockEvent(RunEvents(t, events[..k], sps).value, events[k], sps)]
  }

  /** The position cells of a run are those of the play clock, so its laws hold for the track. */
  lemma {:induction false} ClockFollows(t: Track, events: seq<Event>, sps: nat)
    requires sps > 0 && t.clock == PlayClock.FRESH && RunEvents(t, events, sps).Some?
    ensures RunEvents(t, events, sps).value.clock == PlayClock.Run(ClockEvents(t, events, sps))
    decreases |events|
  {
    if events != [] {
      var k := |events| - 1;
      ClockFollows(t, events[..k], sps);
      ClockEventsLength(t, events[..k], sps);
      assert ClockEvents(t, events, sps)[..k] == ClockEvents(t, events[..k], sps);
      if events[k].Process? {
        ClockAfterProcess(RunEvents(t, events[..k], sps).value, events[k].callback, sps);
      }
    }
  }

  lemma {:induction false} ClockEventsLength(t: Track, events: seq<Event>, sps: nat)
    requires sps > 0 && RunEvents(t, events, sps).Some?
    ensures |ClockEvents(t, events, sps)| == |events|
    decreases |events|
  {
    if events != [] {
      ClockEventsLength(t, events[..|events| - 1], sps);
    }
  }

  lemma ClockAfterProcess(t: Track, c: Callback, sps: nat)
    requires sps > 0 && AfterProcess(t, c, sps).Some?
    ensures AfterProcess(t, c, sps).value.clock == PlayClock.After(t.clock, ClockEvent(t, Process(c), sps))
  {
  }

  /** The reported duration of a track is the time of its segments between pauses plus the milliseconds
      skipped by its callbacks; with a clock that can always be read, by all of them. When no callback
      reads the clock while the track is paused, the segments are its stretches of play. */
  lemma TrackPosition(t: Track, events: seq<Event>, sps: nat)
    requires sps > 0 && t.clock == PlayClock.FRESH && RunEvents(t, events, sps).Some?
    requires var told := ClockEvents(t, events, sps);
             PlayClock.Forward(told) && PlayClock.Position(told) < TWO64
    ensures var told := ClockEvents(t, events, sps);
            var d := RunEvents(t, events, sps).value.clock.duration;
            && d == PlayClock.Sum(PlayClock.Segments(told)) + PlayClock.Count(told).seen
            && (PlayClock.AllUsable(told) ==> d == PlayClock.Position(told))
            && (PlayClock.QuietWhilePaused(told) ==>
                  d == PlayClock.Sum(PlayClock.Active(told)) + PlayClock.Count(told).seen)
  {
    ClockFollows(t, events, sps);
    var told := ClockEvents(t, events, sps);
    PlayClock.PositionReported(told);
    if PlayClock.AllUsable(told) {
      PlayClock.ReadableClockSeesSkips(told);
    }
  }

  /** A skip of d milliseconds served by one callback: the clock is told d or d - 1, and the bytes
      dropped from the stream last at least d - 1 milliseconds and less than d + k, in k passes. */
  lemma SkipInCallback(t: Track, c: Callback, sps: nat)
    requires sps >= 1000 && t.state.Running? && c.skip > 0
    requires |t.buf| % 4 == 0 && WholePackets(t.rest, 4) && AfterProcess(t, c, sps).Some?
    ensures var q := Loop(Start(t, c.skip), sps, 4, c.lim, 0).state;
            && c.skip - 1 <= ClockEvent(t, Process(c), sps).skipped <= c.skip
            && (c.skip - 1) * sps * 4 <= |q.dropped| * 1000 < (c.skip + q.passes) * sps * 4
            && AfterLoop(t, q).tape == t.tape + [Skipped(q.dropped)]
  {
    SkipServed(Start(t, c.skip), sps, 4, c.lim);
    LoopPasses(Start(t, c.skip), sps, 4, c.lim, 0);
  }

  /** A callback never returns exactly when it is still decoding and asked to skip more than the
      whole milliseconds of the fills that are left. */
  lemma CallbackHangsIff(t: Track, c: Callback, sps: nat)
    requires sps > 0 && |t.buf| % 4 == 0 && WholePackets(t.rest, 4)
    ensures AfterProcess(t, c, sps).None?
            <==> t.state.Running? && c.skip > SkipTheorems.WholeMs(t.buf, t.rest, sps, 4, c.lim, 0)
  {
    SkipTheorems.LoopHangsIff(Start(t, c.skip), sps, 4, c.lim, 0);
  }

  /** While decoding, one callback sends NotSupported once for each stream error it meets; without a
      skip it sends it at most once. */
  lemma NotSupportedPerError(t: Track, c: Callback, sps: nat)
    requires sps > 0 && t.state.Running? && t.messages == [] && AfterProcess(t, c, sps).Some?
    ensures var u := AfterProcess(t, c, sps).value;
            var n := SkipTheorems.StreamErrors(t.rest) - SkipTheorems.StreamErrors(u.rest);
            && n >= 0 && (c.skip == 0 ==> n <= 1)
            && u.messages == Repeat(NotSupported, n) + (if n == 0 && u.state.Draining? then [EndOfDecode] else [])
  {
    var q := Loop(Start(t, c.skip), sps, 4, c.lim, 0).state;
    SkipTheorems.LoopReportsErrors(Start(t, c.skip), sps, 4, c.lim, 0);
    ProcessSays(t, c, sps, q);
  }

  /** What a callback says while decoding, by the number of stream errors its loop met. */
  lemma ProcessSays(t: Track, c: Callback, sps: nat, q: Pump<Byte>)
    requires sps > 0 && t.state.Running? && t.messages == [] && AfterProcess(t, c, sps).Some?
    requires q == Loop(Start(t, c.skip), sps, 4, c.lim, 0).state
    ensures var u := AfterProcess(t, c, sps).value;
            var end := if q.failures == 0 && u.state.Draining? then [EndOfDecode] else [];
            u.rest == q.rest && u.messages == Repeat(NotSupported, q.failures) + end
  {
    var u := HandedOver(AfterLoop(t, q), c.room);
    SaidInLoop(t, q, c.room);
    var errors := Repeat(NotSupported, q.failures);
    assert u.messages == errors && errors + [] == errors;
    if q.failures == 0 {
      assert errors == [];
    }
  }

  lemma SaidInLoop(t: Track, q: Pump<Byte>, room: Option<nat>)
    ensures var u := HandedOver(AfterLoop(t, q), room);
            && u.rest == q.rest && u.messages == t.messages + Repeat(NotSupported, q.failures)
            && u.state == if q.failures > 0 then Draining else t.state
  {
    HandOverKeeps(AfterLoop(t, q), room);
  }

  /** A skip of one millisecond that meets two stream errors reports both. */
  lemma NotSupportedTwice(t: Track, c: Callback, data: seq<Byte>)
    requires t.state.Running? && t.messages == [] && t.buf == [] && |data| == 400
    requires t.rest == [StreamError, StreamError, Packet(data)] && c.skip == 1
    ensures AfterProcess(t, c, 88200).Some?
    ensures AfterProcess(t, c, 88200).value.messages == [NotSupported, NotSupported]
  {
    assert DurToSamples(88200, 1) == 88;
    SkipTheorems.TwoErrorsInOneSkip(Start(t, 1), data, 88200, 4, c.lim, 0);
    NotSupportedPerError(t, c, 88200);
    assert Repeat(NotSupported, 2) == [NotSupported, NotSupported];
  }

  // ---------------------------------------------------------------------------------------------
  // The callback itself
  // ---------------------------------------------------------------------------------------------

  class PipewireTrack {
    const decoder: VibeDecoder<Byte>
    const samplesPerSecond: nat
    var state: ProcessState
    var audioBuf: seq<Byte>
    ghost var tape: seq<Piece<Byte>>
    var flushes: nat
    var messages: seq<Msg>
    var duration: nat
    var startTicks: Option<PlayClock.Time>
    var skipOffsetMs: nat

    ghost function View(): Track
      reads this, decoder
    {
      Track(state, audioBuf, decoder.rest, tape, flushes, messages,
            PlayClock.Clock(duration, startTicks, skipOffsetMs))
    }

    constructor (decoder: VibeDecoder<Byte>, samplesPerSecond: nat, prefilled: seq<Byte>)
      ensures View() == Track(Running, prefilled, decoder.rest, [], 0, [], PlayClock.FRESH)
      ensures this.decoder == decoder && this.samplesPerSecond == samplesPerSecond
    {
      this.decoder := decoder;
      this.samplesPerSecond := samplesPerSecond;
      state, audioBuf, tape, flushes, messages := Running, prefilled, [], 0, [];
      duration, startTicks, skipOffsetMs := 0, None, 0;
    }

    /** Returns exactly where the source does: the callback must not be one whose skip loop hangs. */
    method OnProcess(c: Callback)
      requires samplesPerSecond > 0 && skipOffsetMs < TWO64
      requires AfterProcess(View(), c, samplesPerSecond).Some?
      modifies this, decoder
      ensures View() == AfterProcess(old(View()), c, samplesPerSecond).value
    {
      var endOfDecode := true;
      if !state.Draining? {
        endOfDecode := Decode(c);
      }
      HandOver(c.room);
      KeepTime(c.time);
      if endOfDecode && state.Running? {
        messages := messages + [EndOfDecode];
        state := Draining;
      }
    }

    /** The part of the callback that runs while the decoder is still wanted. */
    method Decode(c: Callback) returns (endOfDecode: bool)
      requires samplesPerSecond > 0 && skipOffsetMs < TWO64
      requires Loop(Start(View(), c.skip), samplesPerSecond, 4, c.lim, 0).Done?
      modifies this`audioBuf, this`state, this`messages, this`skipOffsetMs, this`tape, decoder
      ensures var r := Loop(Start(old(View()), c.skip), samplesPerSecond, 4, c.lim, 0);
              var t := old(View());
              && endOfDecode == r.eod && skipOffsetMs < TWO64
              && View() == AfterLoop(t, r.state).(clock := View().clock)
              && PlayClock.OnProcess(View().clock, 0, c.time) == PlayClock.OnProcess(t.clock, r.state.offset, c.time)
    {
      ghost var clock := View().clock;
      ghost var p;
      endOfDecode, p := FillAndSkip(c.skip, c.lim);
      tape := tape + (if p.passes > 0 then [Skipped(p.dropped)] else []);
      PlayClock.SkipThenTime(clock, p.offset, c.time);
    }

    method HandOver(room: Option<nat>)
      modifies this`audioBuf, this`tape, this`flushes
      ensures View() == HandedOver(old(View()), room)
    {
      if audioBuf == [] {
        flushes := flushes + 1;
      } else if room.Some? {
        var len := Min(room.value, |audioBuf|);
        tape := tape + [Passed(audioBuf[..len])];
        audioBuf := audioBuf[len..];
      }
    }

    method KeepTime(time: Option<PlayClock.Time>)
      requires skipOffsetMs < TWO64
      modifies this`startTicks, this`duration
      ensures View() == old(View()).(clock := PlayClock.OnProcess(old(View()).clock, 0, time))
    {
      if PlayClock.Usable(time) {
        if startTicks.None? {
          startTicks := time;
        }
        duration := PlayClock.Sat(PlayClock.ElapsedMs(startTicks.value, time.value.tick) + skipOffsetMs);
      }
    }

    /** The loop started from `before` has got to p. */
    ghost predicate Reached(before: Track, p: Pump<Byte>)
      reads this`audioBuf, this`state, this`messages, this`skipOffsetMs, decoder
    {
      && audioBuf == p.buf && decoder.rest == p.rest
      && state == (if p.failures > 0 then Draining else before.state)
      && messages == before.messages + Repeat(NotSupported, p.failures)
      && skipOffsetMs == (before.clock.offset + p.offset) % TWO64
    }

    /** The loop of the callback. */
    method FillAndSkip(skip: nat, lim: nat -> Limit) returns (endOfDecode: bool, ghost p: Pump<Byte>)
      requires samplesPerSecond > 0 && skipOffsetMs < TWO64
      requires Loop(Start(View(), skip), samplesPerSecond, 4, lim, 0).Done?
      modifies this`audioBuf, this`state, this`messages, this`skipOffsetMs, decoder
      ensures Loop(Start(old(View()), skip), samplesPerSecond, 4, lim, 0) == Done(p, endOfDecode)
      ensures Reached(old(View()), p)
    {
      var skipTime, i := skip, 0;
      ghost var before := View();
      p := Start(before, skip);
      ghost var r := Loop(p, samplesPerSecond, 4, lim, 0);
      while true
        invariant Reached(before, p) && p.skip == skipTime
        invariant Loop(p, samplesPerSecond, 4, lim, i) == r
        decreases |p.rest|, |p.buf|
      {
        LoopByPasses(p, samplesPerSecond, 4, lim, i);
        var skipping := skipTime > 0;
        var result;
        result, skipTime := OnePass(skipTime, lim(i), before, p);
        p := Pass(p, samplesPerSecond, 4, lim(i)).0;
        i := i + 1;
        if !result.RetryNeeded? && !(skipping && audioBuf == []) {
          return !result.More?, p;
        }
      }
    }

    method OnePass(skip: nat, limit: Limit, ghost before: Track, ghost p: Pump<Byte>)
      returns (result: FillResult, left: nat)
      requires samplesPerSecond > 0 && Reached(before, p) && p.skip == skip
      modifies this`audioBuf, this`state, this`messages, this`skipOffsetMs, decoder
      ensures var (q, r) := Pass(p, samplesPerSecond, 4, limit); Reached(before, q) && result == r && left == q.skip
    {
      left := skip;
      result := FillOnce(limit, before, p);
      if !result.RetryNeeded? && skip > 0 {
        left := ServeSkip(skip, before, Refilled(p, limit).0);
      }
    }

    /** One fill, with its stream error if any reported at once. */
    method FillOnce(limit: Limit, ghost before: Track, ghost p: Pump<Byte>) returns (result: FillResult)
      requires Reached(before, p)
      modifies this`audioBuf, this`state, this`messages, decoder
      ensures var (q, r) := Refilled(p, limit); Reached(before, q) && result == r
    {
      var filled;
      filled, result := decoder.FillBuffer(audioBuf, limit);
      audioBuf := filled;
      if result.Failed? {
        messages := messages + [NotSupported];
        state := Draining;
      }
    }

    /** One service of the pending skip; returns what is left of it. */
    method ServeSkip(skip: nat, ghost before: Track, ghost p: Pump<Byte>) returns (left: nat)
      requires samplesPerSecond > 0 && Reached(before, p) && p.skip == skip
      modifies this`audioBuf, this`skipOffsetMs
      ensures var q := Drop(p, samplesPerSecond, 4); Reached(before, q) && left == q.skip
    {
      var bytesToSkip := Min(DurToSamples(samplesPerSecond, skip) * 4, |audioBuf|);
      audioBuf := audioBuf[bytesToSkip..];
      var actual := SamplesToDur(samplesPerSecond, bytesToSkip / 4);
      WrapAdds(before.clock.offset + p.offset, actual);
      skipOffsetMs := (skipOffsetMs + actual) % TWO64;
      left := if skip >= actual then skip - actual else 0;
    }

    method Pause()
      modifies this`skipOffsetMs, this`startTicks
      ensures View() == old(View()).(clock := PlayClock.OnPause(old(View()).clock))
    {
      skipOffsetMs := duration;
      startTicks := None;
    }
  }
}
