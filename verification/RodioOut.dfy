/** The rodio output of one track (vibe/src/rodio_out.rs): an iterator of samples over an abstract
    decoder. The mixer decides when to ask for the next sample. */
module RodioOut {
  import opened Bytes
  import opened Decoder
  import opened SkipLoop
  import SkipTheorems

  const MIN_AUDIO_BUFFER_SIZE := 4 * 1024

  datatype Msg = TrackStarted | NotSupported | EndOfDecode | Drained

  /** `skip` is the pending skip request; `yielded`, `tape` and `messages` are what went out. */
  datatype Source<T> = Source(
    startFlag: bool,
    eodFlag: bool,
    frame: seq<T>,
    rest: seq<Outcome<T>>,
    skip: nat,
    yielded: seq<T>,
    tape: seq<Piece<T>>,
    messages: seq<Msg>
  )

  datatype Event = Next | SkipRequested(ms: nat)

  function New<T>(rest: seq<Outcome<T>>): Source<T> {
    Source(true, false, [], rest, 0, [], [], [])
  }

  function Started<T>(s: Source<T>): Source<T> {
    if s.startFlag then s.(startFlag := false, messages := s.messages + [TrackStarted]) else s
  }

  predicate NeedsRefill<T>(s: Source<T>) {
    |s.frame| < MIN_AUDIO_BUFFER_SIZE && !s.eodFlag
  }

  const FILL_LIMIT: nat -> Limit := (i: nat) => 2 * MIN_AUDIO_BUFFER_SIZE

  function RefillLoop<T>(s: Source<T>, sps: nat): LoopResult<T>
    requires sps > 0
  {
    Loop(Pump([], s.rest, s.skip, 0, 0, 0, 0, []), sps, 1, FILL_LIMIT, 0)
  }

  function Restocked<T>(s: Source<T>, q: Pump<T>, eod: bool): Source<T> {
    s.(frame := s.frame + q.buf, rest := q.rest, skip := 0, eodFlag := eod,
       tape := s.tape + [Skipped(q.dropped), Passed(q.buf)],
       messages := s.messages + Repeat(NotSupported, q.failures) + (if eod then [EndOfDecode] else []))
  }

  /** Nothing, and a message, when there is no sample left. */
  function Popped<T>(s: Source<T>): (Source<T>, Option<T>) {
    if s.frame == [] then (s.(messages := s.messages + [Drained]), None)
    else (s.(frame := s.frame[1..], yielded := s.yielded + [s.frame[0]]), Some(s.frame[0]))
  }

  /** The call never returns when its skip loop hangs. */
  predicate Returns<T>(s: Source<T>, sps: nat)
    requires sps > 0
  {
    NeedsRefill(s) ==> RefillLoop(s, sps).Done?
  }

  function AfterNext<T>(s: Source<T>, sps: nat): (Source<T>, Option<T>)
    requires sps > 0 && Returns(s, sps)
  {
    var t := Started(s);
    if NeedsRefill(t) then
      var r := RefillLoop(t, sps);
      Popped(Restocked(t, r.state, r.eod))
    else Popped(t)
  }

  function RunEvents<T>(s: Source<T>, events: seq<Event>, sps: nat): Option<Source<T>>
    requires sps > 0
    decreases |events|
  {
    if events == [] then Some(s)
    else
      var u := RunEvents(s, events[..|events| - 1], sps);
      if u.None? then None
      else match events[|events| - 1]
        case SkipRequested(ms) => Some(u.value.(skip := ms))
        case Next => if Returns(u.value, sps) then Some(AfterNext(u.value, sps).0) else None
  }

  // ---------------------------------------------------------------------------------------------
  // What every call keeps
  // ---------------------------------------------------------------------------------------------

  /** The part of a tape that was not skipped. */
  function KeptOf<T>(tape: seq<Piece<T>>): seq<T> {
    if tape == [] then []
    else
      var p := tape[|tape| - 1];
      if p.Passed? then KeptOf(tape[..|tape| - 1]) + p.data else KeptOf(tape[..|tape| - 1])
  }

  lemma TapeGrows<T>(tape: seq<Piece<T>>, dropped: seq<T>, kept: seq<T>)
    ensures var more := tape + [Skipped(dropped), Passed(kept)];
            && Spool(more) == Spool(tape) + dropped + kept
            && KeptOf(more) == KeptOf(tape) + kept
  {
    var one := tape + [Skipped(dropped)];
    var more := tape + [Skipped(dropped), Passed(kept)];
    assert one[..|one| - 1] == tape;
    assert more[..|more| - 1] == one;
  }

  /** TrackStarted, then stream errors if any, then one EndOfDecode, then any number of Drained. */
  ghost predicate MessagesFollow<T>(s: Source<T>) {
    if s.startFlag then s.messages == [] && !s.eodFlag
    else
      && |s.messages| >= 1 && s.messages[0] == TrackStarted
      && if !s.eodFlag then forall i :: 1 <= i < |s.messages| ==> s.messages[i] == NotSupported
         else exists k :: EndsAt(s.messages, k)
  }

  ghost predicate EndsAt(messages: seq<Msg>, k: int) {
    && 1 <= k < |messages| && messages[k] == EndOfDecode
    && (forall i :: 1 <= i < k ==> messages[i] == NotSupported)
    && (forall i :: k < i < |messages| ==> messages[i] == Drained)
  }

  ghost predicate Inv<T>(s: Source<T>) {
    && MessagesFollow(s)
    && s.yielded + s.frame == KeptOf(s.tape)
    && (s.eodFlag && NotSupported !in s.messages ==> s.rest == [])
  }

  function Stream<T>(s: Source<T>): seq<T> {
    Spool(s.tape) + Packets(s.rest)
  }

  lemma RestockedMessages<T>(t: Source<T>, q: Pump<T>, eod: bool)
    requires MessagesFollow(t) && !t.startFlag && !t.eodFlag
    ensures var u := Restocked(t, q, eod);
            && MessagesFollow(u)
            && (q.failures > 0 ==> NotSupported in u.messages)
  {
    var u := Restocked(t, q, eod);
    var k := |t.messages| + q.failures;
    assert forall i :: 0 <= i < |t.messages| ==> u.messages[i] == t.messages[i];
    assert forall i :: |t.messages| <= i < k ==> u.messages[i] == NotSupported;
    if eod {
      assert EndsAt(u.messages, k);
    }
    if q.failures > 0 {
      assert u.messages[|t.messages|] == NotSupported;
    }
  }

  lemma RefillKeeps<T>(t: Source<T>, sps: nat)
    requires sps > 0 && Inv(t) && !t.startFlag && !t.eodFlag && RefillLoop(t, sps).Done?
    ensures var r := RefillLoop(t, sps);
            var u := Restocked(t, r.state, r.eod);
            Inv(u) && Stream(u) == Stream(t) && (!u.eodFlag ==> u.frame != [])
  {
    var p := Pump<T>.Pump([], t.rest, t.skip, 0, 0, 0, 0, []);
    var r := RefillLoop(t, sps);
    var q := r.state;
    var u := Restocked(t, q, r.eod);
    LoopEnds(p, sps, 1, FILL_LIMIT, 0);
    LoopConserves(p, sps, 1, FILL_LIMIT, 0);
    RestockedMessages(t, q, r.eod);
    TapeGrows(t.tape, q.dropped, q.buf);
    Assoc(t.yielded, t.frame, q.buf);
    assert q.dropped + q.buf + Packets(q.rest) == Packets(t.rest) by {
      assert [] + [] + Packets(t.rest) == Packets(t.rest);
    }
    Regroup(Spool(t.tape), q.dropped, q.buf, Packets(q.rest));
  }

  lemma PopKeeps<T>(s: Source<T>)
    requires Inv(s) && !s.startFlag && (!s.eodFlag ==> s.frame != [])
    ensures var (u, x) := Popped(s);
            && Inv(u) && Stream(u) == Stream(s)
            && !u.startFlag && u.eodFlag == s.eodFlag
            && (x.None? ==> u.eodFlag && EndOfDecode in u.messages && u.frame == [])
            && (x.Some? ==> u.yielded == s.yielded + [x.value])
  {
    if s.frame == [] {
      var k :| EndsAt(s.messages, k);
      assert EndsAt(s.messages + [Drained], k);
      assert Popped(s).0.messages[k] == EndOfDecode;
      if NotSupported !in Popped(s).0.messages {
        assert forall i :: 0 <= i < |s.messages| ==> s.messages[i] == Popped(s).0.messages[i];
      }
    } else {
      assert s.frame == [s.frame[0]] + s.frame[1..];
      Assoc(s.yielded, [s.frame[0]], s.frame[1..]);
    }
  }

  lemma NextKeeps<T>(s: Source<T>, sps: nat)
    requires sps > 0 && Inv(s) && Returns(s, sps)
    ensures var (u, x) := AfterNext(s, sps);
            && Inv(u) && Stream(u) == Stream(s)
            && !u.startFlag
            && (!u.eodFlag ==> x.Some?)
            && (x.None? ==> u.eodFlag && EndOfDecode in u.messages && u.frame == [])
            && (x.Some? ==> u.yielded == s.yielded + [x.value])
  {
    var t := Started(s);
    StartKeeps(s);
    if NeedsRefill(t) {
      RefillKeeps(t, sps);
      PopKeeps(Restocked(t, RefillLoop(t, sps).state, RefillLoop(t, sps).eod));
    } else {
      PopKeeps(t);
    }
  }

  lemma StartKeeps<T>(s: Source<T>)
    requires Inv(s)
    ensures var t := Started(s);
            && Inv(t) && Stream(t) == Stream(s) && !t.startFlag
            && t == s.(startFlag := false, messages := t.messages)
  {
  }

  lemma {:induction false} RunKeeps<T>(rest: seq<Outcome<T>>, events: seq<Event>, sps: nat)
    requires sps > 0 && RunEvents(New(rest), events, sps).Some?
    ensures var s := RunEvents(New(rest), events, sps).value; Inv(s) && Stream(s) == Packets(rest)
    decreases |events|
  {
    if events == [] {
      var s := New(rest);
      assert Spool(s.tape) + Packets(s.rest) == Packets(rest);
      assert s.yielded + s.frame == [];
    } else {
      var k := |events| - 1;
      RunKeeps(rest, events[..k], sps);
      if events[k].Next? {
        NextKeeps(RunEvents(New(rest), events[..k], sps).value, sps);
      }
    }
  }

  /** Over every run: the samples yielded and those waiting are the decoded samples that were not
      skipped, in order; messages come in order, TrackStarted and EndOfDecode once. In any state so
      reached, the next call yields a sample unless decoding has ended; once it yields none,
      EndOfDecode has been sent and every kept sample yielded, and with no stream error the tape is
      the whole stream. */
  lemma RodioRun<T>(rest: seq<Outcome<T>>, events: seq<Event>, sps: nat)
    requires sps > 0 && RunEvents(New(rest), events, sps).Some?
    ensures var s := RunEvents(New(rest), events, sps).value;
            && MessagesFollow(s)
            && s.yielded + s.frame == KeptOf(s.tape)
            && Spool(s.tape) + Packets(s.rest) == Packets(rest)
            && (Returns(s, sps) ==>
                  var (u, x) := AfterNext(s, sps);
                  && (x.None? ==> u.eodFlag && EndOfDecode in u.messages && u.yielded == KeptOf(u.tape)
                                  && (NotSupported !in u.messages ==> Spool(u.tape) == Packets(rest)))
                  && (x.Some? ==> u.yielded == s.yielded + [x.value]))
  {
    RunKeeps(rest, events, sps);
    var s := RunEvents(New(rest), events, sps).value;
    if Returns(s, sps) {
      NextKeeps(s, sps);
    }
  }

  // ---------------------------------------------------------------------------------------------
  // Skips
  // ---------------------------------------------------------------------------------------------

  /** A call returns exactly when it needs no refill, or is asked to skip no more than the whole
      milliseconds of the fills that are left. */
  lemma ReturnsIff<T>(s: Source<T>, sps: nat)
    requires sps > 0
    ensures Returns(s, sps)
            <==> NeedsRefill(s) ==> s.skip <= SkipTheorems.WholeMs([], s.rest, sps, 1, FILL_LIMIT, 0)
  {
    SkipTheorems.LoopHangsIff(Pump([], s.rest, s.skip, 0, 0, 0, 0, []), sps, 1, FILL_LIMIT, 0);
  }

  lemma FourPacketsFill<T>(rest: seq<Outcome<T>>)
    requires |rest| == 5 && forall j :: 0 <= j < 5 ==> rest[j].Packet? && |rest[j].data| == 2304
    ensures var f := Fill([], rest, 8192); |f.buf| == 9216 && f.rest == rest[4..] && f.result.More?
  {
    var a := [] + rest[0].data;
    var b := a + rest[1].data;
    var c := b + rest[2].data;
    var d := c + rest[3].data;
    assert Fill(d, rest[4..], 8192) == Filled(d, rest[4..], More);
    assert rest[3..][1..] == rest[4..];
    assert Fill(c, rest[3..], 8192) == Fill(d, rest[4..], 8192);
    assert rest[2..][1..] == rest[3..];
    assert Fill(b, rest[2..], 8192) == Fill(c, rest[3..], 8192);
    assert rest[1..][1..] == rest[2..];
    assert Fill(a, rest[1..], 8192) == Fill(b, rest[2..], 8192);
    assert Fill([], rest, 8192) == Fill(a, rest[1..], 8192);
  }

  /** A skip of 110 ms over packets of 2304 samples of 44.1 kHz stereo. In one conversion it is 9702
      samples; the loop drops a fill of 9216, which is 104 ms, and then 529 samples for the 6 ms left:
      an odd number in all, so left and right change places. */
  lemma SkipCanSwapChannels<T>(s: Source<T>)
    requires s.skip == 110 && |s.rest| == 5
    requires forall j :: 0 <= j < 5 ==> s.rest[j].Packet? && |s.rest[j].data| == 2304
    ensures DurToSamples(44100 * 2, 110) == 9702
    ensures var r := RefillLoop(s, 44100 * 2); r.Done? && |r.state.dropped| == 9745
  {
    var p := Pump([], s.rest, 110, 0, 0, 0, 0, []);
    FourPacketsFill(s.rest);
    LoopUnfolds(p, 88200, 1, FILL_LIMIT, 0);
    var f := Refilled(p, FILL_LIMIT(0)).0;
    var q := Drop(f, 88200, 1);
    assert q.buf == [] && q.skip == 6 && |q.dropped| == 9216;
    assert DurToSamples(88200, 6) == 529;
    SkipTheorems.PacketServesSkip(q, s.rest[4].data, 88200, 1, FILL_LIMIT, 1);
  }

  /** A call that finds fewer than 4096 samples waiting while decoding goes on takes the pending request
      and serves it once, in fills of at least 8192; any other call leaves the request pending. Then it
      yields the first sample waiting, or says Drained. What it says comes in the order given. */
  lemma NextServesOnce<T>(s: Source<T>, sps: nat)
    requires sps > 0 && Returns(s, sps)
    ensures var (u, x) := AfterNext(s, sps);
            var refills := |s.frame| < 4096 && !s.eodFlag;
            var r := Loop(Pump([], s.rest, s.skip, 0, 0, 0, 0, []), sps, 1, (i: nat) => 8192, 0);
            var waiting := if refills then s.frame + r.state.buf else s.frame;
            && u.skip == (if refills then 0 else s.skip)
            && u.tape == (if refills then s.tape + [Skipped(r.state.dropped), Passed(r.state.buf)] else s.tape)
            && u.rest == (if refills then r.state.rest else s.rest)
            && u.eodFlag == (if refills then r.eod else s.eodFlag)
            && (if waiting != [] then
                  x == Some(waiting[0]) && u.frame == waiting[1..] && u.yielded == s.yielded + [waiting[0]]
                else x == None && u.frame == [] && u.yielded == s.yielded)
            && !u.startFlag
            && u.messages == s.messages + (if s.startFlag then [TrackStarted] else [])
                             + (if refills then Repeat(NotSupported, r.state.failures) else [])
                             + (if refills && r.eod then [EndOfDecode] else [])
                             + (if waiting == [] then [Drained] else [])
  {
    SameLimit(Pump([], s.rest, s.skip, 0, 0, 0, 0, []), sps, 1, FILL_LIMIT, (i: nat) => 8192, 0);
    var t := Started(s);
    NothingSaid(s.messages);
    NothingSaid(t.messages);
    if NeedsRefill(s) {
      var r := RefillLoop(t, sps);
      NothingSaid(Restocked(t, r.state, r.eod).messages);
    }
  }

  lemma NothingSaid(messages: seq<Msg>)
    ensures messages + [] == messages
  {
  }

  /** Limits that agree give the same loop. */
  lemma {:induction false} SameLimit<T>(
    p: Pump<T>, sps: nat, unit: Unit, lim: nat -> Limit, lim': nat -> Limit, i: nat)
    requires sps > 0 && forall j :: lim(j) == lim'(j)
    ensures Loop(p, sps, unit, lim, i) == Loop(p, sps, unit, lim', i)
    decreases |p.rest|, |p.buf|
  {
    LoopUnfolds(p, sps, unit, lim, i);
    LoopUnfolds(p, sps, unit, lim', i);
    var (f, result) := Refilled(p, lim(i));
    if result.RetryNeeded? {
      SameLimit(f, sps, unit, lim, lim', i + 1);
    } else if p.skip > 0 {
      var q := Drop(f, sps, unit);
      if q.buf == [] && !(q.rest == [] && q.skip > 0) {
        SameLimit(q, sps, unit, lim, lim', i + 1);
      }
    }
  }

  /** The skipped part of a tape. */
  function SkippedOf<T>(tape: seq<Piece<T>>): seq<T> {
    if tape == [] then []
    else
      var p := tape[|tape| - 1];
      if p.Skipped? then SkippedOf(tape[..|tape| - 1]) + p.data else SkippedOf(tape[..|tape| - 1])
  }

  lemma SkippedGrows<T>(tape: seq<Piece<T>>, dropped: seq<T>, kept: seq<T>)
    ensures SkippedOf(tape + [Skipped(dropped), Passed(kept)]) == SkippedOf(tape) + dropped
  {
    var one := tape + [Skipped(dropped)];
    var more := tape + [Skipped(dropped), Passed(kept)];
    assert one[..|one| - 1] == tape;
    assert more[..|more| - 1] == one;
  }

  /** With no request pending and none made, no call drops anything: only the first refill after a
      request does. */
  lemma {:induction false} NothingMoreIsSkipped<T>(s: Source<T>, events: seq<Event>, sps: nat)
    requires sps > 0 && s.skip == 0 && (forall i :: 0 <= i < |events| ==> events[i].Next?)
    requires RunEvents(s, events, sps).Some?
    ensures var u := RunEvents(s, events, sps).value; u.skip == 0 && SkippedOf(u.tape) == SkippedOf(s.tape)
    decreases |events|
  {
    if events != [] {
      var k := |events| - 1;
      NothingMoreIsSkipped(s, events[..k], sps);
      assert events[k].Next?;
      var u := RunEvents(s, events[..k], sps).value;
      QuietNext(u, sps);
    }
  }

  lemma QuietNext<T>(s: Source<T>, sps: nat)
    requires sps > 0 && Returns(s, sps) && s.skip == 0
    ensures var u := AfterNext(s, sps).0; u.skip == 0 && SkippedOf(u.tape) == SkippedOf(s.tape)
  {
    NextServesOnce(s, sps);
    var p := Pump([], s.rest, 0, 0, 0, 0, 0, []);
    LoopPasses(p, sps, 1, (i: nat) => 8192, 0);
    LoopDropsOnlyInPasses(p, sps, 1, (i: nat) => 8192, 0);
    var q := Loop(p, sps, 1, (i: nat) => 8192, 0).state;
    SkippedGrows(s.tape, q.dropped, q.buf);
  }

  /** A request replaces the one pending, and changes nothing else. */
  lemma RequestReplaces<T>(s: Source<T>, events: seq<Event>, ms: nat, sps: nat)
    requires sps > 0 && RunEvents(s, events, sps).Some?
    ensures RunEvents(s, events + [SkipRequested(ms)], sps)
            == Some(RunEvents(s, events, sps).value.(skip := ms))
  {
    assert (events + [SkipRequested(ms)])[..|events|] == events;
  }

  // ---------------------------------------------------------------------------------------------
  // What follows a stream error
  // ---------------------------------------------------------------------------------------------

  /** A refill without a pending skip that meets a stream error reports it and ends decoding. */
  lemma ErrorEndsDecoding<T>(s: Source<T>, sps: nat)
    requires sps > 0 && NeedsRefill(s) && s.skip == 0
    requires SkipTheorems.NextErrors([], s.rest, FILL_LIMIT, 0) > 0
    ensures Returns(s, sps)
    ensures var u := AfterNext(s, sps).0;
            u.eodFlag && Started(s).messages + [NotSupported, EndOfDecode] <= u.messages
  {
    var t := Started(s);
    SkipTheorems.NoSkipReports(Pump([], s.rest, 0, 0, 0, 0, 0, []), sps, 1, FILL_LIMIT, 0);
    var r := RefillLoop(t, sps);
    OneErrorSaid(t, r.state);
    PoppedSays(Restocked(t, r.state, true));
  }

  lemma OneErrorSaid<T>(t: Source<T>, q: Pump<T>)
    requires q.failures == 1
    ensures Restocked(t, q, true).messages == t.messages + [NotSupported, EndOfDecode]
  {
    assert Repeat(NotSupported, 1) == [NotSupported];
    Assoc(t.messages, [NotSupported], [EndOfDecode]);
  }

  lemma PoppedSays<T>(s: Source<T>)
    ensures var u := Popped(s).0; s.messages <= u.messages && u.eodFlag == s.eodFlag
  {
  }

  /** Met inside a skip it may not: here the skip goes round, the next packet serves it, and decoding
      goes on without EndOfDecode. */
  lemma DecodingGoesOn<T>(s: Source<T>, data: seq<T>)
    requires s == New([StreamError, Packet(data)]).(skip := 1) && |data| == 8192
    ensures Returns(s, 88200)
    ensures var u := AfterNext(s, 88200).0; !u.eodFlag && u.messages == [TrackStarted, NotSupported]
  {
    GoesRoundThenServes(Pump([], s.rest, 1, 0, 0, 0, 0, []), data);
    assert Repeat(NotSupported, 1) == [NotSupported];
  }

  lemma GoesRoundThenServes<T>(p: Pump<T>, data: seq<T>)
    requires p.buf == [] && p.skip == 1 && p.rest == [StreamError, Packet(data)] && |data| == 8192
    ensures var r := Loop(p, 88200, 1, FILL_LIMIT, 0);
            r.Done? && !r.eod && r.state.failures == p.failures + 1 && r.state.buf != []
  {
    SkipTheorems.ErrorGoesRound(p, 88200, 1, FILL_LIMIT, 0);
    NextPacketServes(SkipTheorems.Erred(p, 1), data);
  }

  lemma NextPacketServes<T>(p: Pump<T>, data: seq<T>)
    requires p.buf == [] && p.skip == 1 && p.rest == [Packet(data)] && |data| == 8192
    ensures var r := Loop(p, 88200, 1, FILL_LIMIT, 1);
            r.Done? && !r.eod && r.state.failures == p.failures && r.state.buf != []
  {
    LoopUnfolds(p, 88200, 1, FILL_LIMIT, 1);
    assert [] + data == data && p.rest[1..] == [];
    assert Fill(p.buf, p.rest, 8192) == Fill(data, [], 8192) == Filled(data, [], More);
    assert Refilled(p, FILL_LIMIT(1)) == (p.(buf := data, rest := []), More);
    assert DurToSamples(88200, 1) == 88;
  }

  // ---------------------------------------------------------------------------------------------
  // The iterator itself
  // ---------------------------------------------------------------------------------------------

  class DecoderSource<T> {
    const decoder: VibeDecoder<T>
    const samplesPerSecond: nat
    var startFlag: bool
    var eodFlag: bool
    var frame: seq<T>
    var skip: nat
    var messages: seq<Msg>
    ghost var yielded: seq<T>
    ghost var tape: seq<Piece<T>>

    ghost function View(): Source<T>
      reads this, decoder
    {
      Source(startFlag, eodFlag, frame, decoder.rest, skip, yielded, tape, messages)
    }

    constructor (decoder: VibeDecoder<T>, samplesPerSecond: nat)
      ensures View() == New(decoder.rest)
      ensures this.decoder == decoder && this.samplesPerSecond == samplesPerSecond
    {
      this.decoder := decoder;
      this.samplesPerSecond := samplesPerSecond;
      startFlag, eodFlag, frame, skip, messages, yielded, tape := true, false, [], 0, [], [], [];
    }

    /** Returns exactly where the source does. */
    method Next() returns (x: Option<T>)
      requires samplesPerSecond > 0 && Returns(View(), samplesPerSecond)
      modifies this, decoder
      ensures (View(), x) == AfterNext(old(View()), samplesPerSecond)
    {
      if startFlag {
        messages := messages + [TrackStarted];
        startFlag := false;
      }
      if |frame| < MIN_AUDIO_BUFFER_SIZE && !eodFlag {
        Refill();
      }
      if frame == [] {
        messages := messages + [Drained];
        return None;
      }
      x := Some(frame[0]);
      yielded := yielded + [frame[0]];
      frame := frame[1..];
    }

    method Refill()
      requires samplesPerSecond > 0 && RefillLoop(View(), samplesPerSecond).Done?
      modifies this, decoder
      ensures var r := RefillLoop(old(View()), samplesPerSecond);
              View() == Restocked(old(View()), r.state, r.eod)
    {
      var skipTime := skip;
      skip := 0;
      var audioBuf, eod;
      ghost var p;
      audioBuf, eod, p := FillAndSkip(skipTime);
      frame := frame + audioBuf;
      tape := tape + [Skipped(p.dropped), Passed(p.buf)];
      eodFlag := eod;
      if eod {
        messages := messages + [EndOfDecode];
      }
    }

    method FillAndSkip(skip: nat) returns (audioBuf: seq<T>, eod: bool, ghost p: Pump<T>)
      requires samplesPerSecond > 0
      requires Loop(Pump([], decoder.rest, skip, 0, 0, 0, 0, []), samplesPerSecond, 1, FILL_LIMIT, 0).Done?
      modifies this`messages, decoder
      ensures Loop(Pump([], old(decoder.rest), skip, 0, 0, 0, 0, []), samplesPerSecond, 1, FILL_LIMIT, 0)
              == Done(p, eod)
      ensures audioBuf == p.buf && decoder.rest == p.rest
      ensures messages == old(messages) + Repeat(NotSupported, p.failures)
    {
      audioBuf := [];
      var skipTime := skip;
      ghost var i := 0;
      p := Pump([], decoder.rest, skip, 0, 0, 0, 0, []);
      ghost var r := Loop(p, samplesPerSecond, 1, FILL_LIMIT, 0);
      while true
        invariant audioBuf == p.buf && decoder.rest == p.rest && p.skip == skipTime
        invariant messages == old(messages) + Repeat(NotSupported, p.failures)
        invariant Loop(p, samplesPerSecond, 1, FILL_LIMIT, i) == r
        decreases |p.rest|, |p.buf|
      {
        LoopByPasses(p, samplesPerSecond, 1, FILL_LIMIT, i);
        var skipping := skipTime > 0;
        var result;
        audioBuf, result, skipTime := OnePass(audioBuf, skipTime, p);
        p := Pass(p, samplesPerSecond, 1, FILL_LIMIT(i)).0;
        i := i + 1;
        if !result.RetryNeeded? && !(skipping && audioBuf == []) {
          return audioBuf, !result.More?, p;
        }
      }
    }

    method OnePass(buf: seq<T>, skip: nat, ghost p: Pump<T>) returns (audioBuf: seq<T>, result: FillResult, left: nat)
      requires samplesPerSecond > 0 && p.buf == buf && p.rest == decoder.rest && p.skip == skip
      modifies this`messages, decoder
      ensures var (q, r) := Pass(p, samplesPerSecond, 1, FILL_LIMIT(0));
              && audioBuf == q.buf && decoder.rest == q.rest && result == r && left == q.skip
              && messages == old(messages) + (if q.failures > p.failures then [NotSupported] else [])
              && q.failures <= p.failures + 1
    {
      left := skip;
      audioBuf, result := decoder.FillBuffer(buf, 2 * MIN_AUDIO_BUFFER_SIZE);
      if result.Failed? {
        messages := messages + [NotSupported];
      }
      if !result.RetryNeeded? && skip > 0 {
        var samplesToSkip := Min(DurToSamples(samplesPerSecond, skip), |audioBuf|);
        audioBuf := audioBuf[samplesToSkip..];
        var actual := SamplesToDur(samplesPerSecond, samplesToSkip);
        left := if skip >= actual then skip - actual else 0;
      }
    }
  }
}
