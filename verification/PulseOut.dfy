/** The PulseAudio output of one track (vibe/src/pulse_out.rs): the write and underflow callbacks
    over an abstract decoder. The server decides when they run and how much it asks for. */
module PulseOut {
  import opened Bytes
  import opened Decoder

  datatype WriteState = Starting | Running | Draining | Drained

  datatype Msg = TrackStarted | NotSupported | EndOfDecode | DrainedMsg

  /** One write_copy: the bytes, and how far to seek first. */
  datatype WriteCall = WriteCall(data: seq<Byte>, seek: nat)

  /** `skip` is the pending skip request, in milliseconds; `writes` and `messages` are what went out. */
  datatype Track = Track(
    state: WriteState,
    buf: seq<Byte>,
    rest: seq<Outcome<Byte>>,
    skip: nat,
    writes: seq<WriteCall>,
    messages: seq<Msg>
  )

  datatype Event = Write(len: nat) | Underflow | SkipRequested(ms: nat)

  /** The track before its first callback; nothing when prefilling met a stream error. */
  function Prefilled(rest: seq<Outcome<Byte>>, limit: nat): Option<Track> {
    var f := FillRetrying([], rest, limit);
    if f.result.Failed? then None else Some(Track(Starting, f.buf, f.rest, 0, [], []))
  }

  function Written(writes: seq<WriteCall>): seq<Byte> {
    if writes == [] then [] else Written(writes[..|writes| - 1]) + writes[|writes| - 1].data
  }

  /** Hands over at most len bytes, honouring a pending skip by seeking. */
  function HandOver(t: Track, len: nat, sps: nat): Track {
    if t.buf == [] then t
    else
      var n := Min(|t.buf|, len);
      t.(buf := t.buf[n..], skip := 0,
         writes := t.writes + [WriteCall(t.buf[..n], DurToSamples(sps, t.skip) * 4)])
  }

  function Started(t: Track): Track {
    if t.state == Starting then t.(state := Running, messages := t.messages + [TrackStarted]) else t
  }

  /** The buffer filled up to what the server asked for, a stream error reported at once. */
  function Refilled(t: Track, len: nat): Track {
    var f := FillRetrying(t.buf, t.rest, len);
    var failed := f.result.Failed?;
    t.(buf := f.buf, rest := f.rest,
       state := if failed then Draining else t.state,
       messages := if failed then t.messages + [NotSupported] else t.messages)
  }

  function AfterWrite(t: Track, len: nat, sps: nat): Track {
    if t.state == Drained then t
    else
      var t1 := Started(t);
      var t2 :=
        if t1.state == Draining then t1
        else
          var v := HandOver(Refilled(t1, len), len, sps);
          if FillRetrying(t1.buf, t1.rest, len).result.More? then v
          else v.(state := Draining, messages := v.messages + [EndOfDecode]);
      if t2.state == Draining && t2.buf == [] then t2.(state := Drained) else t2
  }

  function AfterUnderflow(t: Track): Track {
    if t.state == Drained then t.(messages := t.messages + [DrainedMsg]) else t
  }

  function React(t: Track, e: Event, sps: nat): Track {
    match e
    case Write(len) => AfterWrite(t, len, sps)
    case Underflow => AfterUnderflow(t)
    case SkipRequested(ms) => t.(skip := ms)
  }

  function RunEvents(t: Track, events: seq<Event>, sps: nat): Track
    decreases |events|
  {
    if events == [] then t else React(RunEvents(t, events[..|events| - 1], sps), events[|events| - 1], sps)
  }

  // ---------------------------------------------------------------------------------------------
  // What every callback keeps
  // ---------------------------------------------------------------------------------------------

  /** Everything written, buffered and still to be decoded. */
  function Stream(t: Track): seq<Byte> {
    Written(t.writes) + t.buf + Packets(t.rest)
  }

  predicate AllDrained(messages: seq<Msg>) {
    forall i :: 0 <= i < |messages| ==> messages[i] == DrainedMsg
  }

  /** TrackStarted, then perhaps NotSupported, then EndOfDecode, then any number of Drained. */
  predicate MessagesFollow(t: Track) {
    match t.state
    case Starting => t.messages == []
    case Running => t.messages == [TrackStarted]
    case Draining => false
    case Drained =>
      || (t.messages[..Min(2, |t.messages|)] == [TrackStarted, EndOfDecode]
          && AllDrained(t.messages[2..]) && t.rest == [])
      || (t.messages[..Min(3, |t.messages|)] == [TrackStarted, NotSupported, EndOfDecode]
          && AllDrained(t.messages[3..]))
  }

  predicate Inv(t: Track) {
    MessagesFollow(t) && (t.state == Drained ==> t.buf == [])
  }

  /** When there is something to write it goes out in one write, which seeks by the pending skip and
      clears it; otherwise the skip stays pending. */
  predicate SkipHonoured(t: Track, v: Track, buf: seq<Byte>, len: nat, sps: nat) {
    if buf == [] then v.writes == t.writes && v.skip == t.skip
    else
      && v.skip == 0 && |v.writes| == |t.writes| + 1 && v.writes[..|t.writes|] == t.writes
      && |v.writes[|t.writes|].data| == Min(|buf|, len)
      && v.writes[|t.writes|].seek == DurToSamples(sps, t.skip) * 4
  }

  lemma HandOverConserves(t: Track, len: nat, sps: nat)
    ensures var v := HandOver(t, len, sps);
            && Written(v.writes) + v.buf == Written(t.writes) + t.buf
            && (|t.buf| <= len ==> v.buf == [])
            && SkipHonoured(t, v, t.buf, len, sps)
            && v == t.(buf := v.buf, skip := v.skip, writes := v.writes)
  {
    if t.buf != [] {
      var n := Min(|t.buf|, len);
      var v := HandOver(t, len, sps);
      assert v.writes[..|v.writes| - 1] == t.writes;
      Assoc(Written(t.writes), t.buf[..n], t.buf[n..]);
      assert t.buf[..n] + t.buf[n..] == t.buf;
    }
  }

  /** A running track after a callback: still running, or drained with nothing left over. */
  lemma OnWriteWhileRunning(t: Track, len: nat, sps: nat)
    requires t.state == Running
    ensures var f := FillRetrying(t.buf, t.rest, len);
            var v := AfterWrite(t, len, sps);
            && v.rest == f.rest
            && Written(v.writes) + v.buf == Written(t.writes) + f.buf
            && SkipHonoured(t, v, f.buf, len, sps)
            && (if f.result.More? then v.state == Running && v.messages == t.messages
                else
                  && v.state == Drained && v.buf == []
                  && v.messages == t.messages + (if f.result.Failed? then [NotSupported] else []) + [EndOfDecode])
  {
    FillRetryingFacts(t.buf, t.rest, len);
    HandOverConserves(Refilled(t, len), len, sps);
    assert t.messages + [] == t.messages;
  }

  /** The first callback says TrackStarted and then does what any other does. */
  lemma FirstWrite(t: Track, len: nat, sps: nat)
    requires t.state == Starting
    ensures AfterWrite(t, len, sps)
            == AfterWrite(t.(state := Running, messages := t.messages + [TrackStarted]), len, sps)
  {
  }

  /** Whenever decoding ends or fails, the leftover is shorter than what the server asked for: the
      same callback hands all of it over and drains. */
  lemma OnWriteKeeps(t: Track, len: nat, sps: nat)
    requires Inv(t)
    ensures var v := AfterWrite(t, len, sps); Inv(v) && Stream(v) == Stream(t)
  {
    if t.state != Drained {
      var s := Started(t);
      assert AfterWrite(t, len, sps) == AfterWrite(s, len, sps);
      WriteKeepsRunning(s, len, sps);
    }
  }

  lemma WriteKeepsRunning(t: Track, len: nat, sps: nat)
    requires t.state == Running && t.messages == [TrackStarted]
    ensures var v := AfterWrite(t, len, sps); Inv(v) && Stream(v) == Stream(t)
  {
    var f, v := FillRetrying(t.buf, t.rest, len), AfterWrite(t, len, sps);
    OnWriteWhileRunning(t, len, sps);
    FillRetryingFacts(t.buf, t.rest, len);
    StreamKept(t, v, f.buf, f.rest);
    if !f.result.More? {
      EndMessages(v, f.result.Failed?);
    }
  }

  lemma StreamKept(t: Track, v: Track, buf: seq<Byte>, rest: seq<Outcome<Byte>>)
    requires v.rest == rest && Written(v.writes) + v.buf == Written(t.writes) + buf
    requires buf + Packets(rest) == t.buf + Packets(t.rest)
    ensures Stream(v) == Stream(t)
  {
    Assoc(Written(t.writes), t.buf, Packets(t.rest));
    Assoc(Written(t.writes), buf, Packets(rest));
  }

  lemma EndMessages(v: Track, failed: bool)
    requires v.state == Drained
    requires v.messages == [TrackStarted] + (if failed then [NotSupported] else []) + [EndOfDecode]
    requires !failed ==> v.rest == []
    ensures MessagesFollow(v)
  {
    if failed {
      assert v.messages == [TrackStarted, NotSupported, EndOfDecode];
    } else {
      assert v.messages == [TrackStarted, EndOfDecode];
    }
  }

  lemma OnUnderflowKeeps(t: Track)
    requires Inv(t)
    ensures var v := AfterUnderflow(t); Inv(v) && Stream(v) == Stream(t)
  {
    if t.state == Drained {
      var m := t.messages + [DrainedMsg];
      if t.messages[..Min(2, |t.messages|)] == [TrackStarted, EndOfDecode] {
        assert m[..2] == t.messages[..2] && m[2..] == t.messages[2..] + [DrainedMsg];
      } else {
        assert m[..3] == t.messages[..3] && m[3..] == t.messages[3..] + [DrainedMsg];
      }
    }
  }

  lemma {:induction false} RunKeeps(t: Track, events: seq<Event>, sps: nat)
    requires Inv(t)
    ensures var v := RunEvents(t, events, sps); Inv(v) && Stream(v) == Stream(t)
    decreases |events|
  {
    if events != [] {
      var k := |events| - 1;
      RunKeeps(t, events[..k], sps);
      var u := RunEvents(t, events[..k], sps);
      match events[k]
      case Write(len) => OnWriteKeeps(u, len, sps);
      case Underflow => OnUnderflowKeeps(u);
      case SkipRequested(_) =>
    }
  }

  lemma PrefillKeeps(rest: seq<Outcome<Byte>>, limit: nat)
    requires Prefilled(rest, limit).Some?
    ensures var t := Prefilled(rest, limit).value; Inv(t) && Stream(t) == Packets(rest)
  {
    FillRetryingFacts([], rest, limit);
    var t := Prefilled(rest, limit).value;
    assert Written(t.writes) + t.buf == t.buf;
    assert [] + Packets(rest) == Packets(rest);
  }

  /** Over every run of callbacks: what was written, then the buffer, then what is still to be
      decoded, is the stream; `Draining` never survives a callback; the messages come in order; and
      a drained track that met no stream error has written the whole stream. */
  lemma PulseRun(rest: seq<Outcome<Byte>>, limit: nat, events: seq<Event>, sps: nat)
    requires Prefilled(rest, limit).Some?
    ensures var t := RunEvents(Prefilled(rest, limit).value, events, sps);
            && MessagesFollow(t)
            && t.state != Draining
            && Written(t.writes) + t.buf + Packets(t.rest) == Packets(rest)
            && (t.state == Drained ==> t.buf == [])
            && (t.state == Drained && NotSupported !in t.messages ==> Written(t.writes) == Packets(rest))
  {
    PrefillKeeps(rest, limit);
    RunKeeps(Prefilled(rest, limit).value, events, sps);
    var t := RunEvents(Prefilled(rest, limit).value, events, sps);
    if t.state == Drained && t.messages[..Min(3, |t.messages|)] == [TrackStarted, NotSupported, EndOfDecode] {
      assert t.messages[1] == t.messages[..3][1] == NotSupported;
    }
  }

  // ---------------------------------------------------------------------------------------------
  // Underflows and skip requests
  // ---------------------------------------------------------------------------------------------

  /** An underflow says Drained in the drained state and nothing in any other; it changes nothing else. */
  lemma UnderflowSays(t: Track, sps: nat)
    ensures React(t, Underflow, sps)
            == t.(messages := if t.state == Drained then t.messages + [DrainedMsg] else t.messages)
  {
  }

  /** The player hears of the end once for each underflow that comes after everything was written. */
  function DrainedIn(messages: seq<Msg>): nat {
    if messages == [] then 0
    else DrainedIn(messages[..|messages| - 1]) + (if messages[|messages| - 1] == DrainedMsg then 1 else 0)
  }

  function UnderflowsDrained(t: Track, events: seq<Event>, sps: nat): nat
    decreases |events|
  {
    if events == [] then 0
    else
      var k := |events| - 1;
      UnderflowsDrained(t, events[..k], sps)
      + (if events[k] == Underflow && RunEvents(t, events[..k], sps).state == Drained then 1 else 0)
  }

  lemma DrainedInSnoc(messages: seq<Msg>, m: Msg)
    ensures DrainedIn(messages + [m]) == DrainedIn(messages) + (if m == DrainedMsg then 1 else 0)
  {
    assert (messages + [m])[..|messages|] == messages;
  }

  /** A write callback never says Drained. */
  lemma WriteIsSilent(t: Track, len: nat, sps: nat)
    ensures DrainedIn(AfterWrite(t, len, sps).messages) == DrainedIn(t.messages)
  {
    StartIsSilent(t);
    FillIsSilent(Started(t), len, sps);
    WriteSays(t, len, sps);
  }

  lemma WriteSays(t: Track, len: nat, sps: nat)
    ensures var v, s := AfterWrite(t, len, sps), Started(t);
            var w := HandOver(Refilled(s, len), len, sps);
            || v.messages == t.messages || v.messages == s.messages
            || v.messages == w.messages || v.messages == w.messages + [EndOfDecode]
  {
    var v := AfterWrite(t, len, sps);
    if t.state != Drained && Started(t).state == Draining {
      assert v.messages == Started(t).messages;
    }
  }

  lemma StartIsSilent(t: Track)
    ensures DrainedIn(Started(t).messages) == DrainedIn(t.messages)
  {
    DrainedInSnoc(t.messages, TrackStarted);
  }

  lemma FillIsSilent(s: Track, len: nat, sps: nat)
    ensures var v := HandOver(Refilled(s, len), len, sps);
            && DrainedIn(v.messages) == DrainedIn(s.messages)
            && DrainedIn(v.messages + [EndOfDecode]) == DrainedIn(s.messages)
  {
    var u := Refilled(s, len);
    DrainedInSnoc(s.messages, NotSupported);
    DrainedInSnoc(u.messages, EndOfDecode);
    HandOverConserves(u, len, sps);
  }

  lemma {:induction false} DrainedPerUnderflow(rest: seq<Outcome<Byte>>, limit: nat, events: seq<Event>, sps: nat)
    requires Prefilled(rest, limit).Some?
    ensures var t := Prefilled(rest, limit).value;
            DrainedIn(RunEvents(t, events, sps).messages) == UnderflowsDrained(t, events, sps)
    decreases |events|
  {
    if events != [] {
      var k := |events| - 1;
      DrainedPerUnderflow(rest, limit, events[..k], sps);
      var u := RunEvents(Prefilled(rest, limit).value, events[..k], sps);
      match events[k]
      case Write(len) => WriteIsSilent(u, len, sps);
      case Underflow =>
        UnderflowSays(u, sps);
        DrainedInSnoc(u.messages, DrainedMsg);
      case SkipRequested(_) =>
    }
  }

  /** A drained track ignores write callbacks. */
  lemma DrainedIgnoresWrites(t: Track, len: nat, sps: nat)
    requires t.state == Drained
    ensures React(t, Write(len), sps) == t
  {
  }

  /** The last request before a write is the one honoured: the write seeks by the bytes it lasts, and
      the one after it does not seek. */
  lemma LastRequestIsHonoured(t: Track, first: nat, ms: nat, len: nat, len': nat, sps: nat)
    requires t.state == Running && len > 0
    requires FillRetrying(t.buf, t.rest, len).result.More?
    ensures var u := RunEvents(t, [SkipRequested(first), SkipRequested(ms), Write(len)], sps);
            && |u.writes| == |t.writes| + 1 && u.writes[|t.writes|].seek == sps * ms / 1000 * 4
            && |u.writes[|t.writes|].data| == len
            && (FillRetrying(u.buf, u.rest, len').buf != [] ==>
                  var v := React(u, Write(len'), sps);
                  |v.writes| == |u.writes| + 1 && v.writes[|u.writes|].seek == 0)
  {
    var events := [SkipRequested(first), SkipRequested(ms), Write(len)];
    assert events[..2][..1][..0] == [] && events[..2][..1] == [SkipRequested(first)];
    assert events[..2] == [SkipRequested(first), SkipRequested(ms)];
    var t1 := RunEvents(t, events[..2], sps);
    assert RunEvents(t, events[..2][..1], sps) == t.(skip := first);
    assert t1 == t.(skip := ms);
    FillRetryingFacts(t.buf, t.rest, len);
    OnWriteWhileRunning(t1, len, sps);
    var u := RunEvents(t, events, sps);
    OnWriteWhileRunning(u, len', sps);
  }

  /** Nothing is started exactly when prefilling met a stream error; otherwise the buffer holds at least
      the limit, or all there is. */
  lemma PrefilledIff(rest: seq<Outcome<Byte>>, limit: nat)
    ensures Prefilled(rest, limit).None? <==> FillRetrying([], rest, limit).result.Failed?
    ensures Prefilled(rest, limit).Some? ==>
              var t := Prefilled(rest, limit).value;
              && (|t.buf| >= limit || (t.rest == [] && t.buf == Packets(rest)))
              && t == Track(Starting, t.buf, t.rest, 0, [], [])
  {
    FillRetryingFacts([], rest, limit);
    assert [] + Packets(rest) == Packets(rest);
    var f := FillRetrying([], rest, limit);
    assert f.buf + [] == f.buf;
  }

  // ---------------------------------------------------------------------------------------------
  // The callbacks themselves
  // ---------------------------------------------------------------------------------------------

  class PulseTrack {
    const decoder: VibeDecoder<Byte>
    const samplesPerSecond: nat
    var state: WriteState
    var audioBuf: seq<Byte>
    var skip: nat
    var writes: seq<WriteCall>
    var messages: seq<Msg>

    ghost function View(): Track
      reads this, decoder
    {
      Track(state, audioBuf, decoder.rest, skip, writes, messages)
    }

    constructor (decoder: VibeDecoder<Byte>, samplesPerSecond: nat, prefilled: seq<Byte>)
      ensures View() == Track(Starting, prefilled, decoder.rest, 0, [], [])
      ensures this.decoder == decoder && this.samplesPerSecond == samplesPerSecond
    {
      this.decoder := decoder;
      this.samplesPerSecond := samplesPerSecond;
      state, audioBuf, skip, writes, messages := Starting, prefilled, 0, [], [];
    }

    method OnWrite(len: nat)
      modifies this, decoder
      ensures View() == AfterWrite(old(View()), len, samplesPerSecond)
    {
      if state == Drained {
        return;
      }
      if state == Starting {
        messages := messages + [TrackStarted];
        state := Running;
      }
      if state != Draining {
        var endOfDecode := FillFromDecoder(len);
        if audioBuf != [] {
          var bufLen := Min(|audioBuf|, len);
          var offset := DurToSamples(samplesPerSecond, skip) * 4;
          skip := 0;
          writes := writes + [WriteCall(audioBuf[..bufLen], offset)];
          audioBuf := audioBuf[bufLen..];
        }
        if endOfDecode {
          messages := messages + [EndOfDecode];
          state := Draining;
        }
      }
      if state == Draining && audioBuf == [] {
        state := Drained;
      }
    }

    /** The fill loop of the write callback. */
    method FillFromDecoder(len: nat) returns (endOfDecode: bool)
      modifies this`audioBuf, this`messages, this`state, decoder
      ensures var f := FillRetrying(old(audioBuf), old(decoder.rest), len);
              && audioBuf == f.buf && decoder.rest == f.rest && endOfDecode == !f.result.More?
              && messages == old(messages) + (if f.result.Failed? then [NotSupported] else [])
              && state == (if f.result.Failed? then Draining else old(state))
    {
      while true
        invariant FillRetrying(audioBuf, decoder.rest, len) == FillRetrying(old(audioBuf), old(decoder.rest), len)
        invariant messages == old(messages) && state == old(state)
        decreases |decoder.rest|
      {
        ghost var buf, rest := audioBuf, decoder.rest;
        FillStops(buf, rest, len);
        var filled, result := decoder.FillBuffer(audioBuf, len);
        audioBuf := filled;
        match result {
          case More => return false;
          case End => return true;
          case Failed =>
            messages := messages + [NotSupported];
            state := Draining;
            return true;
          case RetryNeeded =>
        }
      }
    }

    method OnUnderflow()
      modifies this`messages
      ensures View() == AfterUnderflow(old(View()))
    {
      if state == Drained {
        messages := messages + [DrainedMsg];
      }
    }
  }
}
