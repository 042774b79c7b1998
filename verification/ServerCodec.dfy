/** A reference encoder for the server's messages, and the proof that the parser inverts it: the
    messages the parser can produce are exactly those the encoder can express. */
module ServerCodec {
  import opened Bytes
  import opened ServerMessages
  import Utf8

  /** A nat that is a multiple of `unit` and fits in one byte of such units. */
  predicate ByteOf(n: nat, unit: nat)
    requires unit > 0
  {
    n % unit == 0 && n / unit < 256
  }

  predicate CommandFits(c: StreamCommand) {
    && RateByte(c.rate).Some?
    && ByteOf(c.threshold, 1024) && ByteOf(c.transPeriod, 1000) && ByteOf(c.outputThreshold, 100)
    && KnownFlags(c.flags)
    && c.replayGain < TWO32 && c.serverPort < TWO16 && c.serverIp < TWO32
    && (c.headers.Some? ==> c.headers.value != [] && Utf8.Valid(c.headers.value))
  }

  /** The messages that have a wire form. Unrecognised and Error are verdicts, not messages. */
  predicate Representable(m: ServerMessage) {
    match m
    case Serv(ip, group) => ip < TWO32 && (group.Some? ==> group.value != [] && Utf8.ToLatin1(group.value).Some?)
    case Status(t) => t < TWO32
    case Stream(c) => CommandFits(c)
    case Gain(l, r) => l < TWO32 && r < TWO32
    case Pause(t) => t < TWO32
    case Unpause(t) => t < TWO32
    case Skip(t) => t < TWO32
    case Setname(name) => Utf8.Valid(name)
    case Unrecognised(_) => false
    case Error => false
    case _ => true
  }

  // ---------------------------------------------------------------------------------------------
  // Encoding
  // ---------------------------------------------------------------------------------------------

  const ZEROS9: seq<Byte> := [0, 0, 0, 0, 0, 0, 0, 0, 0]

  /** A `strm` body whose only content is a sub-command and a time. */
  function TimedBody(cmd: Byte, time: nat): seq<Byte> {
    [cmd, 0, 0, 0, 0] + ZEROS9 + PutBe(time, 4) + [0, 0, 0, 0, 0, 0]
  }

  function StreamHead(c: StreamCommand): seq<Byte>
    requires CommandFits(c)
  {
    [115, AutoStartByte(c.autostart), FormatByte(c.format), SizeByte(c.size), RateByte(c.rate).value,
     ChannelsByte(c.channels), EndianByte(c.endian), c.threshold / 1024, SpdifByte(c.spdif),
     c.transPeriod / 1000, TransitionByte(c.transType), c.flags, c.outputThreshold / 100, 0]
  }

  function StreamBody(c: StreamCommand): seq<Byte>
    requires CommandFits(c)
  {
    StreamHead(c) + PutBe(c.replayGain, 4) + PutBe(c.serverPort, 2) + PutBe(c.serverIp, 4)
    + (if c.headers.Some? then c.headers.value else [])
  }

  function Flag(b: bool): Byte {
    if b then 1 else 0
  }

  function Encode(m: ServerMessage): (payload: seq<Byte>)
    requires Representable(m)
    ensures |payload| >= 4
  {
    match m
    case Serv(ip, group) => SERV + PutBe(ip, 4) + (if group.Some? then Utf8.ToLatin1(group.value).value else [])
    case Status(t) => STRM + TimedBody(116, t)
    case Stream(c) => STRM + StreamBody(c)
    case Gain(l, r) => AUDG + (ZEROS9 + [0] + PutBe(l, 4) + PutBe(r, 4))
    case Enable(s, d) => AUDE + [Flag(s), Flag(d)]
    case Flush => STRM + TimedBody(102, 0)
    case Stop => STRM + TimedBody(113, 0)
    case Pause(t) => STRM + TimedBody(112, t)
    case Unpause(t) => STRM + TimedBody(117, t)
    case Queryname => SETD + [0]
    case Setname(name) => SETD + ([0] + name + [0])
    case DisableDac => SETD + [4]
    case Skip(t) => STRM + TimedBody(97, t)
  }

  // ---------------------------------------------------------------------------------------------
  // The parser undoes the encoder
  // ---------------------------------------------------------------------------------------------

  lemma Tagged(tag: Text, body: seq<Byte>)
    requires |tag| == 4
    ensures (tag + body)[..4] == tag && (tag + body)[4..] == body
  {
  }

  lemma TimedBodyParses(cmd: Byte, time: nat)
    requires time < TWO32
    ensures var b := TimedBody(cmd, time); |b| == 24 && b[0] == cmd && GetBe(b[14..18]) == time
  {
    var b := TimedBody(cmd, time);
    Pow256Values();
    GetPut(time, 4);
    assert b[14..18] == PutBe(time, 4);
  }

  /** The single-byte fields read back as they were written. */
  lemma HeadParses(c: StreamCommand)
    requires CommandFits(c)
    ensures var h := StreamHead(c);
            && AutoStartOf(h[1]) == Some(c.autostart) && FormatOf(h[2]) == Some(c.format)
            && SizeOf(h[3]) == Some(c.size) && RateOf(h[4]) == Some(c.rate)
            && ChannelsOf(h[5]) == Some(c.channels) && EndianOf(h[6]) == Some(c.endian)
            && (h[7] as int) * 1024 == c.threshold && SpdifOf(h[8]) == Some(c.spdif)
            && (h[9] as int) * 1000 == c.transPeriod && TransitionOf(h[10]) == Some(c.transType)
            && FlagsOf(h[11]) == c.flags && (h[12] as int) * 100 == c.outputThreshold
  {
  }

  /** Where the parts of a stream body lie. */
  lemma BodyParts(c: StreamCommand)
    requires CommandFits(c)
    ensures var b := StreamBody(c);
            && |b| >= 24 && b[..14] == StreamHead(c)
            && b[14..18] == PutBe(c.replayGain, 4) && b[18..20] == PutBe(c.serverPort, 2)
            && b[20..24] == PutBe(c.serverIp, 4)
            && b[24..] == (if c.headers.Some? then c.headers.value else [])
  {
    var b := StreamBody(c);
    var h, g, p, i := StreamHead(c), PutBe(c.replayGain, 4), PutBe(c.serverPort, 2), PutBe(c.serverIp, 4);
    var t := if c.headers.Some? then c.headers.value else [];
    assert |h + g| == 18 && |h + g + p| == 20 && |h + g + p + i| == 24;
    assert b[..14] == h;
    assert b[14..18] == g;
    assert b[18..20] == p;
    assert b[20..24] == i;
    assert b[24..] == t;
  }

  lemma StreamParses(c: StreamCommand)
    requires CommandFits(c)
    ensures StreamOf(StreamBody(c)) == Stream(c)
  {
    var b := StreamBody(c);
    BodyParts(c);
    HeadParses(c);
    assert forall i :: 0 <= i < 14 ==> b[i] == b[..14][i];
    Pow256Values();
    GetPut(c.replayGain, 4);
    GetPut(c.serverPort, 2);
    GetPut(c.serverIp, 4);
    if c.headers.Some? {
      Utf8.LossyKeepsValid(c.headers.value);
      assert |b| > 24;
    }
  }

  lemma ServParses(ip: nat, group: Option<Text>)
    requires Representable(Serv(ip, group))
    ensures MessageOf(Encode(Serv(ip, group))) == Serv(ip, group)
  {
    var raw := if group.Some? then Utf8.ToLatin1(group.value).value else [];
    var body := PutBe(ip, 4) + raw;
    assert Encode(Serv(ip, group)) == SERV + body;
    Tagged(SERV, body);
    assert body[..4] == PutBe(ip, 4) && body[4..] == raw;
    Pow256Values();
    GetPut(ip, 4);
    if group.Some? {
      Utf8.Latin1Inverse(group.value);
    }
  }

  lemma GainParses(l: nat, r: nat)
    requires l < TWO32 && r < TWO32
    ensures MessageOf(Encode(Gain(l, r))) == Gain(l, r)
  {
    var body := ZEROS9 + [0] + PutBe(l, 4) + PutBe(r, 4);
    Tagged(AUDG, body);
    assert body[10..14] == PutBe(l, 4) && body[14..18] == PutBe(r, 4);
    Pow256Values();
    GetPut(l, 4);
    GetPut(r, 4);
  }

  lemma SetdParses(body: seq<Byte>)
    ensures MessageOf(SETD + body) == SetdOf(body)
  {
    Tagged(SETD, body);
  }

  lemma StrmParses(body: seq<Byte>)
    ensures MessageOf(STRM + body) == StrmOf(body)
  {
    Tagged(STRM, body);
  }

  /** A sub-command with a time, parsed. */
  lemma TimedParses(cmd: Byte, time: nat)
    requires time < TWO32
    ensures var b := TimedBody(cmd, time);
            && MessageOf(STRM + b) == StrmOf(b) && |b| == 24 && b[0] == cmd && GetBe(b[14..18]) == time
  {
    TimedBodyParses(cmd, time);
    StrmParses(TimedBody(cmd, time));
  }

  lemma SetnameParses(name: seq<Byte>)
    requires Utf8.Valid(name)
    ensures MessageOf(SETD + ([0] + name + [0])) == Setname(name)
  {
    var body := [0] + name + [0];
    SetdParses(body);
    assert body[1..|body| - 1] == name;
  }

  /** Parsing inverts encoding. */
  lemma RoundTrip(m: ServerMessage)
    requires Representable(m)
    ensures MessageOf(Encode(m)) == m
  {
    match m
    case Serv(ip, group) => ServParses(ip, group);
    case Status(t) => TimedParses(116, t);
    case Stream(c) => StrmParses(StreamBody(c)); BodyParts(c); StreamParses(c);
                      assert StreamBody(c)[0] == StreamBody(c)[..14][0];
    case Gain(l, r) => GainParses(l, r);
    case Enable(s, d) => Tagged(AUDE, [Flag(s), Flag(d)]);
    case Flush => TimedParses(102, 0);
    case Stop => TimedParses(113, 0);
    case Pause(t) => TimedParses(112, t);
    case Unpause(t) => TimedParses(117, t);
    case Queryname => SetdParses([0]);
    case Setname(name) => SetnameParses(name);
    case DisableDac => SetdParses([4]);
    case Skip(t) => TimedParses(97, t);
  }

  // ---------------------------------------------------------------------------------------------
  // Whatever the parser accepts can be encoded
  // ---------------------------------------------------------------------------------------------

  lemma RateIsListed(b: Byte)
    ensures RateOf(b).Some? ==> RateByte(RateOf(b).value).Some?
  {
  }

  lemma StreamIsRepresentable(b: seq<Byte>)
    requires |b| >= 24 && !StreamOf(b).Error?
    ensures Representable(StreamOf(b))
  {
    RateIsListed(b[4]);
    Pow256Values();
    if |b| > 24 {
      Utf8.LossyIsValid(b[24..]);
      assert Utf8.Lossy(b[24..]) != [];
    }
  }

  /** Every payload is refused, not recognised, or read as a message that has a wire form. */
  lemma ParsedIsRepresentable(payload: seq<Byte>)
    requires |payload| >= 4
    ensures var m := MessageOf(payload); m.Error? || m.Unrecognised? || Representable(m)
  {
    var cmd, b := payload[..4], payload[4..];
    Pow256Values();
    if cmd == SERV && |b| > 4 {
      Utf8.Latin1RoundTrip(b[4..]);
    } else if cmd == STRM && |b| >= 24 && b[0] == 115 && !StreamOf(b).Error? {
      StreamIsRepresentable(b);
    }
  }

  /** A message has a wire form exactly when some payload parses to it (verdicts aside). */
  lemma RepresentableIff(m: ServerMessage)
    requires !m.Error? && !m.Unrecognised?
    ensures Representable(m) <==> exists payload: seq<Byte> :: |payload| >= 4 && MessageOf(payload) == m
  {
    if Representable(m) {
      RoundTrip(m);
      assert |Encode(m)| >= 4 && MessageOf(Encode(m)) == m;
    }
    forall payload: seq<Byte> | |payload| >= 4 && MessageOf(payload) == m
      ensures Representable(m)
    {
      ParsedIsRepresentable(payload);
    }
  }
}
