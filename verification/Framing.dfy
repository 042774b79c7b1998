/** The receiving side of framing (lms-proto/src/frames.rs:27-120), for any message parser: cutting a
    stream into frames at once, and the same over reads of any size. The connection is a script of
    read outcomes; when the script is used up, the call is still waiting. */
module Framing {
  import opened Bytes

  /** What a payload of four bytes or more says; nothing when it is refused as an error. */
  type Parser<M> = seq<Byte> -> Option<M>

  // ---------------------------------------------------------------------------------------------
  // The one-shot reference: cut a whole stream into frames
  // ---------------------------------------------------------------------------------------------

  /** Fine: what is left is not a whole frame. BadFrame: a payload the parser refuses. ShortFrame: a
      payload under four bytes, on which the message parser panics. */
  datatype Verdict = Fine | BadFrame | ShortFrame

  datatype Scanned<M> = Scanned(messages: seq<M>, rest: seq<Byte>, verdict: Verdict)

  function FrameSize(s: seq<Byte>): nat
    requires |s| >= 2
  {
    GetBe(s[..2])
  }

  /** No complete frame to cut off. */
  predicate Partial(s: seq<Byte>) {
    |s| <= 2 || |s| < FrameSize(s) + 2
  }

  function Scan<M>(s: seq<Byte>, parse: Parser<M>): Scanned<M>
    decreases |s|
  {
    if Partial(s) then Scanned([], s, Fine)
    else
      var n := FrameSize(s);
      if n < 4 then Scanned([], s, ShortFrame)
      else
        var m := parse(s[2..2 + n]);
        if m.None? then Scanned([], s, BadFrame) else Prepend([m.value], Scan(s[2 + n..], parse))
  }

  function Prepend<M>(ms: seq<M>, r: Scanned<M>): Scanned<M> {
    r.(messages := ms + r.messages)
  }

  /** A frame as the server writes it, and a stream of them. */
  function Frame(payload: seq<Byte>): seq<Byte> {
    PutBe(|payload|, 2) + payload
  }

  function FrameAll(payloads: seq<seq<Byte>>): seq<Byte> {
    if payloads == [] then [] else Frame(payloads[0]) + FrameAll(payloads[1..])
  }

  function Messages<M>(payloads: seq<seq<Byte>>, parse: Parser<M>): seq<M>
    requires GoodPayloads(payloads, parse)
  {
    if payloads == [] then [] else [parse(payloads[0]).value] + Messages(payloads[1..], parse)
  }

  predicate GoodPayloads<M>(payloads: seq<seq<Byte>>, parse: Parser<M>) {
    forall i :: 0 <= i < |payloads| ==> 4 <= |payloads[i]| < TWO16 && parse(payloads[i]).Some?
  }

  lemma MessagesCons<M>(payload: seq<Byte>, payloads: seq<seq<Byte>>, parse: Parser<M>)
    requires 4 <= |payload| < TWO16 && parse(payload).Some? && GoodPayloads(payloads, parse)
    ensures GoodPayloads([payload] + payloads, parse)
    ensures Messages([payload] + payloads, parse) == [parse(payload).value] + Messages(payloads, parse)
  {
    assert ([payload] + payloads)[1..] == payloads;
  }

  /** The two bytes in front of a payload say how long it is. */
  lemma SizeField(payload: seq<Byte>)
    requires |payload| < TWO16
    ensures |PutBe(|payload|, 2)| == 2 && GetBe(PutBe(|payload|, 2)) == |payload|
  {
    Pow256Values();
    GetPut(|payload|, 2);
  }

  lemma HeadFrame(payload: seq<Byte>, tail: seq<Byte>)
    requires |payload| < TWO16 && |payload| + |tail| >= 1
    ensures var s := Frame(payload) + tail;
            && !Partial(s) && FrameSize(s) == |payload|
            && s[2..2 + |payload|] == payload && s[2 + |payload|..] == tail
  {
    SizeField(payload);
    var size := PutBe(|payload|, 2);
    var s := size + payload + tail;
    assert s[..2] == size;
    assert s[2..2 + |payload|] == payload;
    assert s[2 + |payload|..] == tail;
  }

  lemma ScanFirst<M>(payload: seq<Byte>, tail: seq<Byte>, parse: Parser<M>)
    requires 4 <= |payload| < TWO16 && parse(payload).Some?
    ensures Scan(Frame(payload) + tail, parse) == Prepend([parse(payload).value], Scan(tail, parse))
  {
    HeadFrame(payload, tail);
  }

  /** Scanning a stream of good frames yields their messages, whatever incomplete frame follows. */
  lemma {:induction false} ScanFrames<M>(payloads: seq<seq<Byte>>, tail: seq<Byte>, parse: Parser<M>)
    requires GoodPayloads(payloads, parse) && Partial(tail)
    ensures Scan(FrameAll(payloads) + tail, parse) == Scanned(Messages(payloads, parse), tail, Fine)
  {
    if payloads == [] {
      assert FrameAll(payloads) + tail == tail;
    } else {
      var p, more := payloads[0], FrameAll(payloads[1..]) + tail;
      ScanFirst(p, more, parse);
      Assoc(Frame(p), FrameAll(payloads[1..]), tail);
      assert GoodPayloads(payloads[1..], parse);
      ScanFrames(payloads[1..], tail, parse);
    }
  }

  /** Taking one good frame off the front, with some messages already taken. */
  lemma ScanOneMore<M>(messages: seq<M>, s: seq<Byte>, n: nat, m: Option<M>, parse: Parser<M>)
    requires !Partial(s) && n == FrameSize(s) >= 4 && m == parse(s[2..2 + n]) && m.Some?
    ensures Prepend(messages, Scan(s, parse)) == Prepend(messages + [m.value], Scan(s[2 + n..], parse))
  {
    Assoc(messages, [m.value], Scan(s[2 + n..], parse).messages);
  }

  /** A complete first frame stays the first frame when more bytes follow. */
  lemma FirstStays(a: seq<Byte>, b: seq<Byte>)
    requires !Partial(a)
    ensures !Partial(a + b) && FrameSize(a + b) == FrameSize(a)
    ensures var n := FrameSize(a); (a + b)[2..2 + n] == a[2..2 + n] && (a + b)[2 + n..] == a[2 + n..] + b
  {
    assert (a + b)[..2] == a[..2];
  }

  /** Scanning can stop anywhere and go on later: the heart of chunking independence. */
  lemma {:induction false} ScanAppend<M>(a: seq<Byte>, b: seq<Byte>, parse: Parser<M>)
    ensures var r := Scan(a, parse);
            if r.verdict.Fine? then
              Partial(r.rest) && Scan(a + b, parse) == Prepend(r.messages, Scan(r.rest + b, parse))
            else Scan(a + b, parse).messages == r.messages && Scan(a + b, parse).verdict == r.verdict
    decreases |a|
  {
    if Partial(a) {
      assert [] + Scan(a + b, parse).messages == Scan(a + b, parse).messages;
    } else {
      FirstStays(a, b);
      var n := FrameSize(a);
      if n >= 4 && parse(a[2..2 + n]).Some? {
        var m := parse(a[2..2 + n]).value;
        ScanAppend(a[2 + n..], b, parse);
        var inner := Scan(a[2 + n..], parse);
        assert Scan(a, parse) == Prepend([m], inner);
        assert Scan(a + b, parse) == Prepend([m], Scan(a[2 + n..] + b, parse));
        Assoc([m], inner.messages, Scan(inner.rest + b, parse).messages);
      }
    }
  }

  // ---------------------------------------------------------------------------------------------
  // The receiver
  // ---------------------------------------------------------------------------------------------

  /** One `read` of the connection. A chunk is not empty: zero bytes is Closed. */
  datatype ReadOutcome = Chunk(bytes: seq<Byte>) | WouldBlock | Interrupted | Closed | Broken(kind: nat)

  datatype RecvResult<M> =
    | Received(messages: seq<M>)
    | ConnectionReset
    | ReadFailed(kind: nat)
    | InvalidData
    | Panicked
    | Waiting

  datatype Recv<M> = Recv(result: RecvResult<M>, buf: seq<Byte>, input: seq<ReadOutcome>)

  function AfterRecv<M>(buf: seq<Byte>, input: seq<ReadOutcome>, parse: Parser<M>): Recv<M>
    decreases |input|
  {
    if input == [] then Recv(Waiting, buf, [])
    else match input[0]
      case WouldBlock => AfterRecv(buf, input[1..], parse)
      case Interrupted => AfterRecv(buf, input[1..], parse)
      case Closed => Recv(ConnectionReset, buf, input[1..])
      case Broken(kind) => Recv(ReadFailed(kind), buf, input[1..])
      case Chunk(bytes) =>
        var r := Scan(buf + bytes, parse);
        match r.verdict
        case BadFrame => Recv(InvalidData, [], input[1..])
        case ShortFrame => Recv(Panicked, buf, input[1..])
        case Fine =>
          if r.messages == [] then AfterRecv(r.rest, input[1..], parse)
          else Recv(Received(r.messages), r.rest, input[1..])
  }

  // ---------------------------------------------------------------------------------------------
  // Successive calls
  // ---------------------------------------------------------------------------------------------

  /** The batches of successive calls, how the last call went, and the buffer and the reads it left. */
  datatype Session<M> = Session(batches: seq<seq<M>>, last: RecvResult<M>, buf: seq<Byte>, input: seq<ReadOutcome>)

  lemma {:induction false} RecvUsesInput<M>(buf: seq<Byte>, input: seq<ReadOutcome>, parse: Parser<M>)
    ensures var r := AfterRecv(buf, input, parse); |r.input| <= |input| && (input != [] ==> |r.input| < |input|)
    decreases |input|
  {
    if input != [] {
      RecvUsesInput(buf, input[1..], parse);
      if input[0].Chunk? {
        RecvUsesInput(Scan(buf + input[0].bytes, parse).rest, input[1..], parse);
      }
    }
  }

  function Run<M>(buf: seq<Byte>, input: seq<ReadOutcome>, parse: Parser<M>): Session<M>
    decreases |input|
  {
    RecvUsesInput(buf, input, parse);
    var r := AfterRecv(buf, input, parse);
    if r.result.Received? && input != [] then
      var more := Run(r.buf, r.input, parse);
      more.(batches := [r.result.messages] + more.batches)
    else Session([], r.result, r.buf, r.input)
  }

  /** The bytes a script brings. */
  function Arriving(input: seq<ReadOutcome>): seq<Byte> {
    if input == [] then []
    else if input[0].Chunk? then input[0].bytes + Arriving(input[1..])
    else Arriving(input[1..])
  }

  /** The connection stays up. */
  predicate Healthy(input: seq<ReadOutcome>) {
    forall i :: 0 <= i < |input| ==> !input[i].Closed? && !input[i].Broken?
  }

  /** One call, seen against the one-shot scan of everything that is to come. */
  lemma {:induction false} RecvMatches<M>(buf: seq<Byte>, input: seq<ReadOutcome>, parse: Parser<M>)
    requires Partial(buf) && Healthy(input)
    ensures var r := AfterRecv(buf, input, parse);
            var all := Scan(buf + Arriving(input), parse);
            match r.result
            case Received(ms) =>
              && ms != [] && Partial(r.buf) && Healthy(r.input) && |r.input| < |input|
              && all == Prepend(ms, Scan(r.buf + Arriving(r.input), parse))
            case Waiting => all == Scanned([], r.buf, Fine) && Partial(r.buf)
            case InvalidData => all.verdict.BadFrame?
            case Panicked => all.verdict.ShortFrame?
            case _ => false
    decreases |input|
  {
    if input == [] {
      assert buf + [] == buf;
    } else {
      assert Healthy(input[1..]);
      if input[0].Chunk? {
        var bytes, later := input[0].bytes, Arriving(input[1..]);
        Assoc(buf, bytes, later);
        assert buf + Arriving(input) == buf + bytes + later;
        ScanAppend(buf + bytes, later, parse);
        var s := Scan(buf + bytes, parse);
        if s.verdict.Fine? && s.messages == [] {
          RecvMatches(s.rest, input[1..], parse);
          assert [] + Scan(s.rest + later, parse).messages == Scan(s.rest + later, parse).messages;
        }
      } else {
        RecvMatches(buf, input[1..], parse);
      }
    }
  }

  /** What successive calls deliver, compared with the one-shot scan of the whole stream. */
  lemma {:induction false} RunMatches<M>(buf: seq<Byte>, input: seq<ReadOutcome>, parse: Parser<M>)
    requires Partial(buf) && Healthy(input)
    ensures var s := Run(buf, input, parse);
            var all := Scan(buf + Arriving(input), parse);
            && (forall i :: 0 <= i < |s.batches| ==> s.batches[i] != [])
            && match all.verdict
               case Fine => s.last.Waiting? && Concat(s.batches) == all.messages && s.buf == all.rest && Partial(s.buf)
               case BadFrame => s.last.InvalidData? && Concat(s.batches) <= all.messages
               case ShortFrame => s.last.Panicked? && Concat(s.batches) <= all.messages
    decreases |input|
  {
    RecvMatches(buf, input, parse);
    var r := AfterRecv(buf, input, parse);
    if r.result.Received? {
      var ms := r.result.messages;
      RunMatches(r.buf, r.input, parse);
      var more := Run(r.buf, r.input, parse);
      var s := Run(buf, input, parse);
      assert s.batches[1..] == more.batches;
      assert Concat(s.batches) == ms + Concat(more.batches);
      var inner := Scan(r.buf + Arriving(r.input), parse).messages;
      if Concat(more.batches) <= inner {
        assert ms + Concat(more.batches) <= ms + inner;
      }
    }
  }

  /** Chunking independence. For any stream of frames with payloads of at least four bytes and none
      that parses as Error, followed by an incomplete frame, and for any split of those bytes into
      reads with any interruptions between them: the batches of successive calls, laid end to end,
      are the frames' messages; no batch is empty; and the buffer is left with the incomplete frame. */
  lemma ChunkingIndependence<M>(payloads: seq<seq<Byte>>, tail: seq<Byte>, input: seq<ReadOutcome>, parse: Parser<M>)
    requires GoodPayloads(payloads, parse) && Partial(tail)
    requires Healthy(input) && Arriving(input) == FrameAll(payloads) + tail
    ensures var s := Run([], input, parse);
            && Concat(s.batches) == Messages(payloads, parse)
            && (forall i :: 0 <= i < |s.batches| ==> s.batches[i] != [])
            && s.last == Waiting && s.buf == tail
  {
    ScanFrames(payloads, tail, parse);
    RunMatches([], input, parse);
    assert [] + Arriving(input) == Arriving(input);
  }

  // ---------------------------------------------------------------------------------------------
  // A frame that ends the session
  // ---------------------------------------------------------------------------------------------

  /** A call over two scripts: it ends within the first, or waits at its end and goes on in the second. */
  lemma {:induction false} RecvAppend<M>(buf: seq<Byte>, a: seq<ReadOutcome>, b: seq<ReadOutcome>, parse: Parser<M>)
    ensures var r := AfterRecv(buf, a, parse);
            AfterRecv(buf, a + b, parse)
            == if r.result.Waiting? then AfterRecv(r.buf, b, parse) else r.(input := r.input + b)
    decreases |a|
  {
    if a == [] {
      assert a + b == b;
    } else {
      assert (a + b)[1..] == a[1..] + b;
      RecvAppend(buf, a[1..], b, parse);
      if a[0].Chunk? {
        RecvAppend(Scan(buf + a[0].bytes, parse).rest, a[1..], b, parse);
      }
    }
  }

  /** Successive calls over two scripts, when the first leaves a call waiting. */
  lemma {:induction false} RunAppend<M>(buf: seq<Byte>, a: seq<ReadOutcome>, b: seq<ReadOutcome>, parse: Parser<M>)
    requires Run(buf, a, parse).last.Waiting?
    ensures var s, t := Run(buf, a, parse), Run(Run(buf, a, parse).buf, b, parse);
            Run(buf, a + b, parse) == t.(batches := s.batches + t.batches)
    decreases |a|
  {
    RecvUsesInput(buf, a, parse);
    RecvAppend(buf, a, b, parse);
    var r := AfterRecv(buf, a, parse);
    if r.result.Received? {
      RunAppend(r.buf, r.input, b, parse);
      var s := Run(r.buf, r.input, parse);
      Assoc([r.result.messages], s.batches, Run(s.buf, b, parse).batches);
    } else {
      var t := Run(r.buf, b, parse);
      assert [] + t.batches == t.batches;
      RunFrom(buf, a + b, r.buf, b, parse);
    }
  }

  lemma RunFrom<M>(buf: seq<Byte>, a: seq<ReadOutcome>, buf': seq<Byte>, a': seq<ReadOutcome>, parse: Parser<M>)
    requires AfterRecv(buf, a, parse) == AfterRecv(buf', a', parse)
    ensures Run(buf, a, parse) == Run(buf', a', parse)
  {
  }

  /** How a call ends at a frame the receiver cannot take. */
  function EndAt<M>(v: Verdict): RecvResult<M> {
    if v.BadFrame? then InvalidData else Panicked
  }

  /** The read that meets a bad frame: what was delivered before is exactly what the earlier reads had
      completed, whatever that read brought besides and whatever would have followed. */
  lemma BadReadEndsSession<M>(pre: seq<ReadOutcome>, c: seq<Byte>, post: seq<ReadOutcome>, v: Verdict, parse: Parser<M>)
    requires Healthy(pre) && Scan(Arriving(pre), parse).verdict.Fine?
    requires Scan(Arriving(pre) + c, parse).verdict == v && !v.Fine?
    ensures var s := Run([], pre + ([Chunk(c)] + post), parse);
            && Concat(s.batches) == Scan(Arriving(pre), parse).messages && s.last == EndAt(v)
            && (v.BadFrame? ==> s.buf == []) && s.input == post
  {
    var s := Run([], pre, parse);
    RunMatches([], pre, parse);
    assert [] + Arriving(pre) == Arriving(pre);
    RunAppend([], pre, [Chunk(c)] + post, parse);
    ScanAppend(Arriving(pre), c, parse);
    assert Scan(s.buf + c, parse).verdict == v;
    assert s.batches + [] == s.batches;
  }

  /** A read that ends the connection: delivered is exactly what the reads before it had completed, the
      call says how it ended, and nothing after it is read. */
  lemma LostConnectionEndsSession<M>(pre: seq<ReadOutcome>, e: ReadOutcome, post: seq<ReadOutcome>, parse: Parser<M>)
    requires Healthy(pre) && Scan(Arriving(pre), parse).verdict.Fine? && (e.Closed? || e.Broken?)
    ensures var s := Run([], pre + ([e] + post), parse);
            && Concat(s.batches) == Scan(Arriving(pre), parse).messages
            && s.last == (if e.Closed? then ConnectionReset else ReadFailed(e.kind))
            && s.buf == Scan(Arriving(pre), parse).rest && s.input == post
  {
    var s := Run([], pre, parse);
    RunMatches([], pre, parse);
    assert [] + Arriving(pre) == Arriving(pre);
    RunAppend([], pre, [e] + post, parse);
    assert s.batches + [] == s.batches;
  }

  /** Over good frames: a connection lost anywhere has delivered exactly the frames that had arrived. */
  lemma LostConnectionDelivers<M>(payloads: seq<seq<Byte>>, tail: seq<Byte>, pre: seq<ReadOutcome>, e: ReadOutcome,
                                  post: seq<ReadOutcome>, parse: Parser<M>)
    requires GoodPayloads(payloads, parse) && Partial(tail)
    requires Healthy(pre) && Arriving(pre) == FrameAll(payloads) + tail && (e.Closed? || e.Broken?)
    ensures var s := Run([], pre + ([e] + post), parse);
            && Concat(s.batches) == Messages(payloads, parse)
            && s.last == (if e.Closed? then ConnectionReset else ReadFailed(e.kind)) && s.input == post
  {
    ScanFrames(payloads, tail, parse);
    LostConnectionEndsSession(pre, e, post, parse);
  }

  /** How many of the frames lie wholly within the first n bytes. */
  function Completed(payloads: seq<seq<Byte>>, n: int): (k: nat)
    ensures k <= |payloads|
  {
    if payloads == [] || n < |Frame(payloads[0])| then 0
    else 1 + Completed(payloads[1..], n - |Frame(payloads[0])|)
  }

  lemma {:induction false} AllCompletedIff(payloads: seq<seq<Byte>>, n: nat)
    ensures Completed(payloads, n) == |payloads| <==> n >= |FrameAll(payloads)|
  {
    if payloads != [] && n >= |Frame(payloads[0])| {
      AllCompletedIff(payloads[1..], n - |Frame(payloads[0])|);
    }
  }

  lemma {:induction false} MessagesLength<M>(payloads: seq<seq<Byte>>, parse: Parser<M>)
    requires GoodPayloads(payloads, parse)
    ensures |Messages(payloads, parse)| == |payloads|
  {
    if payloads != [] {
      MessagesLength(payloads[1..], parse);
    }
  }

  lemma AllDeliveredIff<M>(payloads: seq<seq<Byte>>, n: nat, parse: Parser<M>)
    requires GoodPayloads(payloads, parse)
    ensures Messages(payloads[..Completed(payloads, n)], parse) == Messages(payloads, parse)
            <==> n >= |FrameAll(payloads)|
  {
    var done := payloads[..Completed(payloads, n)];
    AllCompletedIff(payloads, n);
    MessagesLength(done, parse);
    MessagesLength(payloads, parse);
    assert |done| == |payloads| ==> done == payloads;
  }

  /** Part of a frame is no frame. */
  lemma CutFrame(payload: seq<Byte>, tail: seq<Byte>, s: seq<Byte>)
    requires |payload| < TWO16 && s <= Frame(payload) + tail && |s| < Max(|Frame(payload)|, 3)
    ensures Partial(s)
  {
    if |s| > 2 {
      SizeField(payload);
      assert s[..2] == PutBe(|payload|, 2);
    }
  }

  lemma FrontAfter(head: seq<Byte>, more: seq<Byte>, s: seq<Byte>, n: nat)
    requires |head| <= |s| && s <= head + more
    ensures s == head + s[|head|..] && s[|head|..] <= more
    ensures |s| >= |head| + n ==> s[|head|..][n..] == s[|head| + n..]
  {
  }

  lemma FrontGrows(head: seq<Byte>, done: seq<Byte>, s: seq<Byte>)
    requires head <= s && done <= s[|head|..]
    ensures head + done <= s && s[|head + done|..] == s[|head|..][|done|..]
  {
  }

  /** Every payload fits its size field. */
  predicate Sized(payloads: seq<seq<Byte>>) {
    forall i :: 0 <= i < |payloads| ==> |payloads[i]| < TWO16
  }

  lemma {:induction false} FrontSplitsAt(payloads: seq<seq<Byte>>, tail: seq<Byte>, s: seq<Byte>)
    requires Sized(payloads) && s <= FrameAll(payloads) + tail
    requires |s| <= |FrameAll(payloads)| || Partial(s[|FrameAll(payloads)|..])
    ensures var done := FrameAll(payloads[..Completed(payloads, |s|)]); done <= s && Partial(s[|done|..])
    decreases |payloads|
  {
    var k := Completed(payloads, |s|);
    if payloads == [] {
      assert s == [] || s[0..] == s;
    } else {
      var p, more := payloads[0], FrameAll(payloads[1..]) + tail;
      Assoc(Frame(p), FrameAll(payloads[1..]), tail);
      if |s| < |Frame(p)| {
        CutFrame(p, more, s);
        assert s[0..] == s;
      } else {
        var rest := s[|Frame(p)|..];
        FrontAfter(Frame(p), more, s, |FrameAll(payloads[1..])|);
        FrontSplitsAt(payloads[1..], tail, rest);
        assert payloads[..k][1..] == payloads[1..][..k - 1];
        FrontGrows(Frame(p), FrameAll(payloads[1..][..k - 1]), s);
      }
    }
  }

  lemma PartialBefore(tail: seq<Byte>, m: nat, n: nat)
    requires m <= n <= |tail| && Partial(tail[..n])
    ensures Partial(tail[..m])
  {
    if m > 2 {
      assert tail[..m][..2] == tail[..n][..2];
    }
  }

  /** The front of a stream is its completed frames and then part of one. */
  lemma FrontSplits(payloads: seq<seq<Byte>>, tail: seq<Byte>, t: nat, all: seq<Byte>, m: nat)
    requires Sized(payloads) && 0 < t <= |tail| && Partial(tail[..t - 1])
    requires all == FrameAll(payloads) + tail && m < |FrameAll(payloads)| + t
    ensures var done := FrameAll(payloads[..Completed(payloads, m)]);
            |done| <= m && all[..m] == done + all[|done|..m] && Partial(all[|done|..m])
  {
    var s, n := all[..m], |FrameAll(payloads)|;
    if m > n {
      assert s[n..] == tail[..m - n];
      PartialBefore(tail, m - n, t - 1);
    }
    FrontSplitsAt(payloads, tail, s);
    var done := FrameAll(payloads[..Completed(payloads, m)]);
    assert s[|done|..] == all[|done|..m];
  }

  lemma GoodIsSized<M>(payloads: seq<seq<Byte>>, k: nat, parse: Parser<M>)
    requires GoodPayloads(payloads, parse) && k <= |payloads|
    ensures Sized(payloads) && GoodPayloads(payloads[..k], parse)
  {
    forall i | 0 <= i < |payloads|
      ensures |payloads[i]| < TWO16
    {
      assert 4 <= |payloads[i]| < TWO16 && parse(payloads[i]).Some?;
    }
  }

  /** Scanning the front of a stream yields the messages of the frames completed in it. */
  lemma ScanFront<M>(payloads: seq<seq<Byte>>, tail: seq<Byte>, t: nat, all: seq<Byte>, m: nat, parse: Parser<M>)
    requires GoodPayloads(payloads, parse) && 0 < t <= |tail| && Partial(tail[..t - 1])
    requires all == FrameAll(payloads) + tail && m < |FrameAll(payloads)| + t
    ensures Scan(all[..m], parse).messages == Messages(payloads[..Completed(payloads, m)], parse)
  {
    var k := Completed(payloads, m);
    GoodIsSized(payloads, k, parse);
    FrontSplits(payloads, tail, t, all, m);
    var done := FrameAll(payloads[..k]);
    ScanFrames(payloads[..k], all[|done|..m], parse);
  }

  /** How many reads end before the n-th byte has arrived. */
  function ReadsBefore(input: seq<ReadOutcome>, n: int): (k: nat)
    ensures k <= |input|
  {
    if input == [] then 0
    else if !input[0].Chunk? then 1 + ReadsBefore(input[1..], n)
    else if |input[0].bytes| >= n then 0
    else 1 + ReadsBefore(input[1..], n - |input[0].bytes|)
  }

  /** The next read is the one that brings it. */
  lemma {:induction false} ReadBringsByte(input: seq<ReadOutcome>, n: int)
    requires 0 < n <= |Arriving(input)|
    ensures var k := ReadsBefore(input, n);
            && k < |input| && input[k].Chunk?
            && |Arriving(input[..k])| < n <= |Arriving(input[..k])| + |input[k].bytes|
            && Arriving(input[..k]) + input[k].bytes <= Arriving(input)
    decreases |input|
  {
    var k := ReadsBefore(input, n);
    if k > 0 {
      var m := if input[0].Chunk? then n - |input[0].bytes| else n;
      ReadBringsByte(input[1..], m);
      assert input[..k][1..] == input[1..][..k - 1];
      if input[0].Chunk? {
        Assoc(input[0].bytes, Arriving(input[1..][..k - 1]), input[k].bytes);
      }
    }
  }

  /** The bytes of the reads that end before the n-th byte has arrived. */
  function EarlierBytes(input: seq<ReadOutcome>, n: int): nat {
    |Arriving(input[..ReadsBefore(input, n)])|
  }

  lemma CutInput(input: seq<ReadOutcome>, k: nat)
    requires Healthy(input) && k < |input| && input[k].Chunk?
    ensures Healthy(input[..k]) && input == input[..k] + ([Chunk(input[k].bytes)] + input[k + 1..])
  {
  }

  /** The scan of a stream goes well up to its n-th byte and ends with verdict v at it. */
  predicate StopsAt<M>(s: seq<Byte>, n: nat, v: Verdict, parse: Parser<M>) {
    && 0 < n <= |s| && !v.Fine?
    && Scan(s[..n - 1], parse).verdict.Fine? && Scan(s[..n], parse).verdict == v
  }

  /** When a stream scans well up to its n-th byte and not with it, the session ends at the read that
      brings this byte, and delivered is exactly what scanning the earlier reads gives. */
  lemma SessionStops<M>(input: seq<ReadOutcome>, n: nat, all: seq<Byte>, v: Verdict, parse: Parser<M>)
    requires Healthy(input) && all == Arriving(input) && StopsAt(all, n, v, parse)
    ensures var s, early := Run([], input, parse), EarlierBytes(input, n);
            early < n && Concat(s.batches) == Scan(all[..early], parse).messages && s.last == EndAt(v)
  {
    var k := ReadsBefore(input, n);
    ReadBringsByte(input, n);
    CutInput(input, k);
    ScanAround(all, n, v, Arriving(input[..k]), input[k].bytes, parse);
    BadReadEndsSession(input[..k], input[k].bytes, input[k + 1..], v, parse);
  }

  /** What a read that brings the n-th byte sees. */
  lemma ScanAround<M>(all: seq<Byte>, n: nat, v: Verdict, a: seq<Byte>, c: seq<Byte>, parse: Parser<M>)
    requires a + c <= all && |a| < n <= |a| + |c| && StopsAt(all, n, v, parse)
    ensures Scan(a, parse).verdict.Fine? && Scan(a + c, parse).verdict == v && all[..|a|] == a
  {
    Fronts(all, n, a, c);
    ScanMore(a, all[..n - 1], parse);
    ScanMore(all[..n], a + c, parse);
  }

  lemma Fronts(all: seq<Byte>, n: nat, a: seq<Byte>, c: seq<Byte>)
    requires a + c <= all && |a| < n <= |a| + |c|
    ensures a <= all[..n - 1] && all[..n] <= a + c && all[..|a|] == a
  {
  }

  /** A stream that scans well has scanned well before; one that does not stays so. */
  lemma ScanMore<M>(a: seq<Byte>, b: seq<Byte>, parse: Parser<M>)
    requires a <= b
    ensures Scan(b, parse).verdict.Fine? ==> Scan(a, parse).verdict.Fine?
    ensures !Scan(a, parse).verdict.Fine? ==> Scan(b, parse).verdict == Scan(a, parse).verdict
  {
    assert b == a + b[|a|..];
    ScanAppend(a, b[|a|..], parse);
  }

  /** Good frames, then a tail that scans well up to its t-th byte and not with it: the session ends
      there, and delivered are exactly the frames completed by the reads before that byte. */
  lemma TailStops<M>(
    payloads: seq<seq<Byte>>, tail: seq<Byte>, t: nat, v: Verdict, all: seq<Byte>, n: nat,
    input: seq<ReadOutcome>, parse: Parser<M>)
    requires GoodPayloads(payloads, parse) && StopsAt(tail, t, v, parse) && Partial(tail[..t - 1])
    requires Healthy(input) && Arriving(input) == all == FrameAll(payloads) + tail && n == |FrameAll(payloads)| + t
    ensures var s, early := Run([], input, parse), EarlierBytes(input, n);
            s.last == EndAt(v) && Concat(s.batches) == Messages(payloads[..Completed(payloads, early)], parse)
  {
    StopsAfterFrames(payloads, tail, t, v, all, n, parse);
    FramesDelivered(payloads, tail, t, v, all, n, input, parse);
  }

  lemma FramesDelivered<M>(
    payloads: seq<seq<Byte>>, tail: seq<Byte>, t: nat, v: Verdict, all: seq<Byte>, n: nat,
    input: seq<ReadOutcome>, parse: Parser<M>)
    requires GoodPayloads(payloads, parse) && 0 < t <= |tail| && Partial(tail[..t - 1])
    requires Healthy(input) && Arriving(input) == all == FrameAll(payloads) + tail
    requires n == |FrameAll(payloads)| + t && StopsAt(all, n, v, parse)
    ensures var s, early := Run([], input, parse), EarlierBytes(input, n);
            s.last == EndAt(v) && Concat(s.batches) == Messages(payloads[..Completed(payloads, early)], parse)
  {
    SessionStops(input, n, all, v, parse);
    ScanFront(payloads, tail, t, all, EarlierBytes(input, n), parse);
  }

  lemma StopsAfterFrames<M>(
    payloads: seq<seq<Byte>>, tail: seq<Byte>, t: nat, v: Verdict, all: seq<Byte>, n: nat, parse: Parser<M>)
    requires GoodPayloads(payloads, parse) && StopsAt(tail, t, v, parse) && all == FrameAll(payloads) + tail
    requires n == |FrameAll(payloads)| + t
    ensures StopsAt(all, n, v, parse)
  {
    FrontOfSum(FrameAll(payloads), tail, t - 1, n - 1, all);
    FrontOfSum(FrameAll(payloads), tail, t, n, all);
    ScanAfterFrames(payloads, tail[..t - 1], parse);
    ScanAfterFrames(payloads, tail[..t], parse);
  }

  lemma FrontOfSum(a: seq<Byte>, b: seq<Byte>, t: nat, n: nat, all: seq<Byte>)
    requires all == a + b && t <= |b| && n == |a| + t
    ensures all[..n] == a + b[..t]
  {
  }

  /** Good frames in front do not change how the scan ends. */
  lemma ScanAfterFrames<M>(payloads: seq<seq<Byte>>, tail: seq<Byte>, parse: Parser<M>)
    requires GoodPayloads(payloads, parse)
    ensures Scan(FrameAll(payloads) + tail, parse).verdict == Scan(tail, parse).verdict
  {
    ScanFrames(payloads, [], parse);
    assert FrameAll(payloads) + [] == FrameAll(payloads);
    ScanAppend(FrameAll(payloads), tail, parse);
    assert [] + tail == tail;
  }

  /** The bytes the receiver needs before it sees a frame: all of it, and at least three. */
  function Visible(payload: seq<Byte>): nat {
    Max(|Frame(payload)|, 3)
  }

  /** A payload on which the scan ends with verdict v. */
  predicate BadPayload<M>(bad: seq<Byte>, v: Verdict, parse: Parser<M>) {
    if |bad| < 4 then v == ShortFrame else |bad| < TWO16 && parse(bad).None? && v == BadFrame
  }

  /** What the scan makes of a bad frame, byte by byte. */
  lemma BadFrameSeen<M>(bad: seq<Byte>, later: seq<Byte>, v: Verdict, tail: seq<Byte>, parse: Parser<M>)
    requires BadPayload(bad, v, parse) && |bad| + |later| >= 1 && tail == Frame(bad) + later
    ensures StopsAt(tail, Visible(bad), v, parse) && Partial(tail[..Visible(bad) - 1])
  {
    var t := Visible(bad);
    CutFrame(bad, later, tail[..t - 1]);
    var more := later[..t - |Frame(bad)|];
    assert tail[..t] == Frame(bad) + more;
    HeadFrame(bad, more);
  }

  /** Delivered are exactly the frames within the first n bytes: all of them if and only if the n bytes
      hold them all. */
  predicate DeliveredWithin<M(==)>(s: Session<M>, payloads: seq<seq<Byte>>, n: nat, parse: Parser<M>)
    requires GoodPayloads(payloads, parse)
  {
    && Concat(s.batches) == Messages(payloads[..Completed(payloads, n)], parse)
    && (Concat(s.batches) == Messages(payloads, parse) <==> n >= |FrameAll(payloads)|)
  }

  lemma Delivers<M>(s: Session<M>, payloads: seq<seq<Byte>>, n: nat, parse: Parser<M>)
    requires GoodPayloads(payloads, parse)
    requires Concat(s.batches) == Messages(payloads[..Completed(payloads, n)], parse)
    ensures DeliveredWithin(s, payloads, n, parse)
  {
    AllDeliveredIff(payloads, n, parse);
  }

  /** Good frames, then a bad one and whatever follows it. */
  lemma BadFrameEndsSession<M>(payloads: seq<seq<Byte>>, bad: seq<Byte>, later: seq<Byte>, v: Verdict,
                               tail: seq<Byte>, n: nat, input: seq<ReadOutcome>, parse: Parser<M>)
    requires GoodPayloads(payloads, parse) && BadPayload(bad, v, parse)
    requires tail == Frame(bad) + later && |bad| + |later| >= 1 && n == |FrameAll(payloads)| + Visible(bad)
    requires Healthy(input) && Arriving(input) == FrameAll(payloads) + tail
    ensures var s := Run([], input, parse);
            s.last == EndAt(v) && DeliveredWithin(s, payloads, EarlierBytes(input, n), parse)
  {
    var t := Visible(bad);
    assert StopsAt(tail, t, v, parse) && Partial(tail[..t - 1]) by {
      BadFrameSeen(bad, later, v, tail, parse);
    }
    TailStops(payloads, tail, t, v, Arriving(input), n, input, parse);
    Delivers(Run([], input, parse), payloads, EarlierBytes(input, n), parse);
  }

  /** A frame whose payload is refused after good ones: the session ends with InvalidData, and exactly
      the frames completed by reads before the one that lets the receiver see it are delivered. All of
      the good ones are if and only if those reads had brought them all. */
  lemma ErrorFrameEndsSession<M>(
    payloads: seq<seq<Byte>>, bad: seq<Byte>, later: seq<Byte>, input: seq<ReadOutcome>, parse: Parser<M>)
    requires GoodPayloads(payloads, parse) && 4 <= |bad| < TWO16 && parse(bad).None?
    requires Healthy(input) && Arriving(input) == FrameAll(payloads) + (Frame(bad) + later)
    ensures var s := Run([], input, parse);
            var early := EarlierBytes(input, |FrameAll(payloads)| + Visible(bad));
            s.last == InvalidData && DeliveredWithin(s, payloads, early, parse)
  {
    var n := |FrameAll(payloads)| + Visible(bad);
    BadFrameEndsSession(payloads, bad, later, BadFrame, Frame(bad) + later, n, input, parse);
  }

  /** A frame whose payload is under four bytes makes the receiver panic instead. One without any
      payload is not seen before another byte has followed. */
  lemma ShortFrameEndsSession<M>(
    payloads: seq<seq<Byte>>, bad: seq<Byte>, later: seq<Byte>, input: seq<ReadOutcome>, parse: Parser<M>)
    requires GoodPayloads(payloads, parse) && |bad| < 4 && |bad| + |later| >= 1
    requires Healthy(input) && Arriving(input) == FrameAll(payloads) + (Frame(bad) + later)
    ensures var s := Run([], input, parse);
            var early := EarlierBytes(input, |FrameAll(payloads)| + Visible(bad));
            s.last == Panicked && DeliveredWithin(s, payloads, early, parse)
  {
    var n := |FrameAll(payloads)| + Visible(bad);
    BadFrameEndsSession(payloads, bad, later, ShortFrame, Frame(bad) + later, n, input, parse);
  }

  /** Until then the session waits, with everything delivered. */
  lemma EmptyFrameWaits<M>(payloads: seq<seq<Byte>>, input: seq<ReadOutcome>, parse: Parser<M>)
    requires GoodPayloads(payloads, parse) && Healthy(input) && Arriving(input) == FrameAll(payloads) + Frame([])
    ensures var s := Run([], input, parse);
            s.last == Waiting && Concat(s.batches) == Messages(payloads, parse) && s.buf == Frame([])
  {
    ChunkingIndependence(payloads, Frame([]), input, parse);
  }

  /** A good frame and a refused one: in one read nothing is delivered, in two the good message is. */
  lemma OneRead<M>(good: seq<Byte>, bad: seq<Byte>, parse: Parser<M>)
    requires 4 <= |good| < TWO16 && 4 <= |bad| < TWO16 && parse(good).Some? && parse(bad).None?
    ensures var s := Run([], [Chunk(Frame(good) + Frame(bad))], parse); s.last == InvalidData && Concat(s.batches) == []
  {
    ScanPair(good, bad, parse);
    var c := Frame(good) + Frame(bad);
    assert Arriving([]) + c == c;
    BadReadEndsSession([], c, [], BadFrame, parse);
    assert [] + ([Chunk(c)] + []) == [Chunk(c)];
  }

  lemma TwoReads<M>(good: seq<Byte>, bad: seq<Byte>, parse: Parser<M>)
    requires 4 <= |good| < TWO16 && 4 <= |bad| < TWO16 && parse(good).Some? && parse(bad).None?
    ensures var s := Run([], [Chunk(Frame(good)), Chunk(Frame(bad))], parse);
            s.last == InvalidData && Concat(s.batches) == [parse(good).value]
  {
    ScanPair(good, bad, parse);
    var pre := [Chunk(Frame(good))];
    assert Arriving(pre) == Frame(good) + [] == Frame(good);
    BadReadEndsSession(pre, Frame(bad), [], BadFrame, parse);
    assert pre + ([Chunk(Frame(bad))] + []) == [Chunk(Frame(good)), Chunk(Frame(bad))];
  }

  lemma ScanPair<M>(good: seq<Byte>, bad: seq<Byte>, parse: Parser<M>)
    requires 4 <= |good| < TWO16 && 4 <= |bad| < TWO16 && parse(good).Some? && parse(bad).None?
    ensures Scan(Frame(good), parse) == Scanned([parse(good).value], [], Fine)
    ensures Scan(Frame(good) + Frame(bad), parse).verdict.BadFrame?
  {
    ScanFirst(good, [], parse);
    assert Frame(good) + [] == Frame(good);
    ScanFirst(good, Frame(bad), parse);
    HeadFrame(bad, []);
    assert Frame(bad) + [] == Frame(bad);
  }
}
