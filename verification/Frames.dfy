/** The framed connection (lms-proto/src/frames.rs): the receiver that collects bytes and cuts them into
    messages, and the sender that pushes an encoded message through partial writes. Each end of the
    socket is a script of outcomes; when the script is used up, the call is still waiting. */
module Frames {
  import opened Bytes
  import opened ServerMessages
  import opened Framing
  import ClientMessages
  import ServerCodec
  import Utf8
  import WireFormat

  /** The parser of server messages as framing sees it: an Error is refused. */
  const HEARD: Parser<ServerMessage> :=
    (payload: seq<Byte>) =>
      if |payload| < 4 || MessageOf(payload).Error? then None else Some(MessageOf(payload))

  // ---------------------------------------------------------------------------------------------
  // The receiver
  // ---------------------------------------------------------------------------------------------

  /** The conversion of a payload, with Error told apart from the messages. */
  method Hear(payload: seq<Byte>) returns (m: Option<ServerMessage>)
    requires |payload| >= 4
    ensures m == HEARD(payload)
  {
    var message := Parse(payload);
    m := if message.Error? then None else Some(message);
  }

  datatype DecodeResult = NeedMore | Batch(messages: seq<ServerMessage>) | Corrupt | Panic

  class LmsRecv {
    var buf: seq<Byte>
    var input: seq<ReadOutcome>

    constructor (input: seq<ReadOutcome>)
      ensures buf == [] && this.input == input
    {
      this.buf, this.input := [], input;
    }

    /** Cuts every complete frame off the buffer. */
    method Decode() returns (r: DecodeResult)
      modifies this`buf
      ensures var s := Scan(old(buf), HEARD);
              match s.verdict
              case Fine => buf == s.rest && r == (if s.messages == [] then NeedMore else Batch(s.messages))
              case BadFrame => buf == [] && r == Corrupt
              case ShortFrame => r == Panic
    {
      if |buf| <= 2 {
        return NeedMore;
      }
      var messages := [];
      while |buf| > 2
        invariant Scan(old(buf), HEARD) == Prepend(messages, Scan(buf, HEARD))
        invariant messages == [] ==> buf == old(buf)
        decreases |buf|
      {
        var frameSize := GetBe(buf[..2]);
        if |buf| < frameSize + 2 {
          if messages == [] {
            return NeedMore;
          }
          break;
        }
        if frameSize < 4 {
          return Panic;
        }
        var message := Hear(buf[2..2 + frameSize]);
        if message.None? {
          buf := [];
          return Corrupt;
        }
        ScanOneMore(messages, buf, frameSize, message, HEARD);
        buf := buf[2 + frameSize..];
        messages := messages + [message.value];
      }
      r := if messages == [] then NeedMore else Batch(messages);
    }

    /** Blocks until at least one message has arrived. */
    method Receive() returns (r: RecvResult<ServerMessage>)
      modifies this
      ensures var a := AfterRecv(old(buf), old(input), HEARD); r == a.result && input == a.input
      ensures !r.Panicked? ==> buf == AfterRecv(old(buf), old(input), HEARD).buf
    {
      while input != []
        invariant AfterRecv(buf, input, HEARD) == AfterRecv(old(buf), old(input), HEARD)
        decreases |input|
      {
        var outcome := input[0];
        input := input[1..];
        match outcome {
          case WouldBlock =>
          case Interrupted =>
          case Closed => return ConnectionReset;
          case Broken(kind) => return ReadFailed(kind);
          case Chunk(bytes) =>
            buf := buf + bytes;
            var d := Decode();
            match d {
              case NeedMore =>
              case Batch(messages) => return Received(messages);
              case Corrupt => return InvalidData;
              case Panic => return Panicked;
            }
        }
      }
      r := Waiting;
    }
  }

  // ---------------------------------------------------------------------------------------------
  // Whole sessions
  // ---------------------------------------------------------------------------------------------

  /** A good message is lost when one read brings it together with a frame that parses as Error, and
      delivered when the same bytes come in two reads. */
  lemma GoodMessageLost(good: seq<Byte>, bad: seq<Byte>)
    requires good == AUDE + [1, 1] && bad == AUDE
    ensures HEARD(good) == Some(Enable(true, true)) && HEARD(bad) == None
    ensures var s := Run([], [Chunk(Frame(good) + Frame(bad))], HEARD); s.last == InvalidData && Concat(s.batches) == []
    ensures var s := Run([], [Chunk(Frame(good)), Chunk(Frame(bad))], HEARD);
            s.last == InvalidData && Concat(s.batches) == [Enable(true, true)]
  {
    HeardTags(good, bad);
    OneRead(good, bad, HEARD);
    TwoReads(good, bad, HEARD);
  }

  /** Only an Error is refused: messages nobody knows are delivered. */
  lemma UnknownIsDelivered(tag: seq<Byte>, body: seq<Byte>)
    requires |tag| == 4 && tag !in {Ascii("serv"), Ascii("strm"), Ascii("aude"), Ascii("audg"), Ascii("setd")}
    ensures HEARD(tag + body) == Some(Unrecognised(Utf8.Lossy(tag)))
  {
    WireFormat.TagsSpelled();
    WireFormat.ByTag(tag, body);
  }

  lemma HeardIff(payload: seq<Byte>)
    requires |payload| >= 4
    ensures HEARD(payload) == None <==> MessageOf(payload).Error?
    ensures HEARD(payload).Some? ==> HEARD(payload).value == MessageOf(payload)
  {
  }

  lemma HeardTags(good: seq<Byte>, bad: seq<Byte>)
    requires good == AUDE + [1, 1] && bad == AUDE
    ensures HEARD(good) == Some(Enable(true, true)) && HEARD(bad) == None
  {
    assert good[..4] == AUDE && good[4..] == [1, 1];
    assert bad[..4] == AUDE && bad[4..] == [];
  }

  /** The payloads a server writes for a list of messages. */
  function Payloads(ms: seq<ServerMessage>): seq<seq<Byte>>
    requires forall i :: 0 <= i < |ms| ==> ServerCodec.Representable(ms[i])
  {
    if ms == [] then [] else [ServerCodec.Encode(ms[0])] + Payloads(ms[1..])
  }

  lemma EncodedIsHeard(m: ServerMessage)
    requires ServerCodec.Representable(m)
    ensures |ServerCodec.Encode(m)| >= 4 && HEARD(ServerCodec.Encode(m)) == Some(m)
  {
    ServerCodec.RoundTrip(m);
  }

  lemma {:induction false} PayloadsAreGood(ms: seq<ServerMessage>)
    requires forall i :: 0 <= i < |ms| ==> ServerCodec.Representable(ms[i]) && |ServerCodec.Encode(ms[i])| < TWO16
    ensures GoodPayloads(Payloads(ms), HEARD) && Messages(Payloads(ms), HEARD) == ms
  {
    if ms != [] {
      EncodedIsHeard(ms[0]);
      PayloadsAreGood(ms[1..]);
      MessagesCons(ServerCodec.Encode(ms[0]), Payloads(ms[1..]), HEARD);
      assert [ms[0]] + ms[1..] == ms;
    }
  }

  /** End to end: any list of messages that fit their frames, encoded, framed and delivered in any
      pieces, comes out of successive calls as that list. */
  lemma MessagesArrive(ms: seq<ServerMessage>, input: seq<ReadOutcome>)
    requires forall i :: 0 <= i < |ms| ==> ServerCodec.Representable(ms[i]) && |ServerCodec.Encode(ms[i])| < TWO16
    requires Healthy(input) && Arriving(input) == FrameAll(Payloads(ms))
    ensures var s := Run([], input, HEARD); Concat(s.batches) == ms && s.last == Waiting && s.buf == []
  {
    PayloadsAreGood(ms);
    assert Arriving(input) == FrameAll(Payloads(ms)) + [];
    ChunkingIndependence(Payloads(ms), [], input, HEARD);
  }

  // ---------------------------------------------------------------------------------------------
  // The sender
  // ---------------------------------------------------------------------------------------------

  /** One `write`; Wrote(n) takes at most the bytes offered, as `Write` promises. */
  datatype WriteOutcome = Wrote(n: nat) | NotNow | Signal | Lost(kind: nat)

  datatype SendResult = Sent | PeerReset | WriteFailed(kind: nat) | FlushFailed | Stuck

  /** What gets out, how the write loop ends, and the outcomes left. Sent means every byte is out. */
  datatype Pushed = Pushed(out: seq<Byte>, result: SendResult, script: seq<WriteOutcome>)

  function Push(dst: seq<Byte>, script: seq<WriteOutcome>): Pushed
    decreases |script|
  {
    if script == [] then Pushed([], Stuck, [])
    else match script[0]
      case NotNow => Push(dst, script[1..])
      case Signal => Push(dst, script[1..])
      case Lost(kind) => Pushed([], WriteFailed(kind), script[1..])
      case Wrote(n) =>
        if n == 0 then Pushed([], PeerReset, script[1..])
        else if n >= |dst| then Pushed(dst, Sent, script[1..])
        else
          var r := Push(dst[n..], script[1..]);
          r.(out := dst[..n] + r.out)
  }

  /** Under any partial writes and transient errors, success means exactly the message went out, and
      anything else means a proper prefix of it did. */
  lemma {:induction false} PushWritesPrefix(dst: seq<Byte>, script: seq<WriteOutcome>)
    requires dst != []
    ensures var r := Push(dst, script);
            && r.out <= dst
            && (r.result.Sent? <==> r.out == dst)
            && !r.result.FlushFailed?
    decreases |script|
  {
    if script != [] {
      if script[0].Wrote? {
        var n := script[0].n;
        if 0 < n < |dst| {
          PushWritesPrefix(dst[n..], script[1..]);
          var r := Push(dst[n..], script[1..]);
          assert dst == dst[..n] + dst[n..];
          assert dst[..n] + r.out <= dst;
          assert r.out == dst[n..] <==> dst[..n] + r.out == dst by {
            assert (dst[..n] + r.out)[n..] == r.out;
          }
        }
      } else if !script[0].Lost? {
        PushWritesPrefix(dst, script[1..]);
      }
    }
  }

  /** Writes that neither end the message nor the connection, and the bytes they take. */
  predicate Underway(script: seq<WriteOutcome>) {
    forall i :: 0 <= i < |script| ==> !script[i].Lost? && (script[i].Wrote? ==> script[i].n > 0)
  }

  function Accepted(script: seq<WriteOutcome>): nat {
    if script == [] then 0 else (if script[0].Wrote? then script[0].n else 0) + Accepted(script[1..])
  }

  /** Whatever is written before, exactly as many bytes as the connection accepted are out. */
  lemma {:induction false} PushGoesOn(dst: seq<Byte>, pre: seq<WriteOutcome>, post: seq<WriteOutcome>)
    requires Underway(pre) && Accepted(pre) < |dst|
    ensures var later := Push(dst[Accepted(pre)..], post);
            Push(dst, pre + post) == later.(out := dst[..Accepted(pre)] + later.out)
    decreases |pre|
  {
    if pre == [] {
      assert pre + post == post && dst[0..] == dst;
      assert dst[..0] + Push(dst, post).out == Push(dst, post).out;
    } else {
      assert (pre + post)[1..] == pre[1..] + post;
      if pre[0].Wrote? {
        var n := pre[0].n;
        PushGoesOn(dst[n..], pre[1..], post);
        assert dst[n..][Accepted(pre[1..])..] == dst[Accepted(pre)..];
        assert dst[..n] + dst[n..][..Accepted(pre[1..])] == dst[..Accepted(pre)];
        Assoc(dst[..n], dst[n..][..Accepted(pre[1..])], Push(dst[Accepted(pre)..], post).out);
      } else {
        PushGoesOn(dst, pre[1..], post);
      }
    }
  }

  /** How a send ends: with an error of the connection as that error, with a write of nothing as a reset,
      with a write that takes the rest as sent; the outcomes after that are not used. */
  lemma PushEndsAt(dst: seq<Byte>, pre: seq<WriteOutcome>, e: WriteOutcome, post: seq<WriteOutcome>)
    requires Underway(pre) && Accepted(pre) < |dst|
    requires e.Lost? || (e.Wrote? && (e.n == 0 || Accepted(pre) + e.n >= |dst|))
    ensures var r := Push(dst, pre + ([e] + post));
            && r.script == post
            && r.out == (if e.Wrote? && e.n > 0 then dst else dst[..Accepted(pre)])
            && r.result == (if e.Lost? then WriteFailed(e.kind) else if e.n == 0 then PeerReset else Sent)
  {
    var n := Accepted(pre);
    PushGoesOn(dst, pre, [e] + post);
    LastWrite(dst[n..], e, post);
    assert dst[..n] + dst[n..] == dst && dst[..n] + [] == dst[..n];
  }

  lemma LastWrite(dst: seq<Byte>, e: WriteOutcome, post: seq<WriteOutcome>)
    requires dst != [] && (e.Lost? || (e.Wrote? && (e.n == 0 || e.n >= |dst|)))
    ensures Push(dst, [e] + post)
            == if e.Lost? then Pushed([], WriteFailed(e.kind), post)
               else if e.n == 0 then Pushed([], PeerReset, post)
               else Pushed(dst, Sent, post)
  {
    assert ([e] + post)[1..] == post;
  }

  /** Successive sends, up to the first that fails. */
  function PushAll(ms: seq<ClientMessages.ClientMessage>, script: seq<WriteOutcome>): Pushed
    decreases |ms|
  {
    if ms == [] then Pushed([], Sent, script)
    else
      var r := Push(ClientMessages.Encode(ms[0]), script);
      if !r.result.Sent? then r
      else
        var q := PushAll(ms[1..], r.script);
        q.(out := r.out + q.out)
  }

  /** Whatever the connection does, the bytes out are a prefix of the encoding of the list, all of it
      exactly when every send succeeded; then the server can split it back into the list. */
  lemma {:induction false} SendsDecode(ms: seq<ClientMessages.ClientMessage>, script: seq<WriteOutcome>)
    requires forall i :: 0 <= i < |ms| ==> ClientMessages.Typed(ms[i]) && ClientMessages.Representable(ms[i])
    ensures var r := PushAll(ms, script);
            && r.out <= ClientMessages.EncodeAll(ms)
            && (r.result.Sent? <==> r.out == ClientMessages.EncodeAll(ms))
            && (r.result.Sent? ==> ClientMessages.DecodeAll(r.out) == Some(ms))
    decreases |ms|
  {
    ClientMessages.StreamRoundTrip(ms);
    if ms != [] {
      var first, later := ClientMessages.Encode(ms[0]), ClientMessages.EncodeAll(ms[1..]);
      var r := Push(first, script);
      PushWritesPrefix(first, script);
      if r.result.Sent? {
        SendsDecode(ms[1..], r.script);
        var q := PushAll(ms[1..], r.script);
        PrefixUnder(first, q.out, later);
      } else {
        assert |r.out| < |first|;
        assert r.out <= first + later;
      }
    }
  }

  lemma PrefixUnder(a: seq<Byte>, p: seq<Byte>, b: seq<Byte>)
    requires p <= b
    ensures a + p <= a + b && (a + p == a + b <==> p == b)
  {
    assert (a + p)[|a|..] == p && (a + b)[|a|..] == b;
  }

  class LmsSend {
    var out: seq<Byte>
    var script: seq<WriteOutcome>

    constructor (script: seq<WriteOutcome>)
      ensures out == [] && this.script == script
    {
      this.out, this.script := [], script;
    }

    /** On success the connection has had exactly the message's encoding more; on any error, a prefix
        of it, and the whole of it only when it was the flush that failed. */
    method Send(msg: ClientMessages.ClientMessage, flushes: bool) returns (r: SendResult)
      modifies this
      ensures old(out) <= out <= old(out) + ClientMessages.Encode(msg)
      ensures r.Sent? || r.FlushFailed? <==> out == old(out) + ClientMessages.Encode(msg)
      ensures var p := Push(ClientMessages.Encode(msg), old(script));
              && out == old(out) + p.out && script == p.script
              && r == if p.result.Sent? && !flushes then FlushFailed else p.result
    {
      var dst := ClientMessages.Serialize(msg);
      ghost var whole := dst;
      ghost var rest := script;
      PushWritesPrefix(whole, rest);
      r := WriteAll(dst);
      assert out[..|old(out)|] == old(out) && out[|old(out)|..] == Push(whole, rest).out;
      if r.Sent? && !flushes {
        r := FlushFailed;
      }
    }

    method WriteAll(whole: seq<Byte>) returns (r: SendResult)
      modifies this
      ensures var p := Push(whole, old(script)); out == old(out) + p.out && r == p.result && script == p.script
    {
      var dst := whole;
      ghost var done := [];
      while script != []
        invariant out == old(out) + done
        invariant var p, q := Push(whole, old(script)), Push(dst, script);
                  p.out == done + q.out && p.result == q.result && p.script == q.script
        decreases |script|
      {
        var outcome := script[0];
        script := script[1..];
        match outcome {
          case NotNow =>
          case Signal =>
          case Lost(kind) => return WriteFailed(kind);
          case Wrote(n) =>
            if n == 0 {
              return PeerReset;
            }
            if n >= |dst| {
              out := out + dst;
              assert old(out) + done + dst == old(out) + (done + dst);
              return Sent;
            }
            ghost var q := Push(dst[n..], script);
            Assoc(done, dst[..n], q.out);
            Assoc(old(out), done, dst[..n]);
            out := out + dst[..n];
            done := done + dst[..n];
            dst := dst[n..];
        }
      }
      r := Stuck;
    }
  }
}
