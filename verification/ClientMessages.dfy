/** Messages to the server (lms-proto/src/messages.rs:19-113): the serializer, and a reference decoder
    that splits a stream of them by the length field. Durations are milliseconds. */
module ClientMessages {
  import opened Bytes

  /** The fields of a STAT frame (lms-proto/src/status.rs:20-36). */
  datatype StatusData = StatusData(
    crlf: nat,
    bufferSize: nat,
    fullness: nat,
    bytesReceived: nat,
    sigStrength: nat,
    jiffies: nat,
    outputBufferSize: nat,
    outputBufferFullness: nat,
    elapsedSeconds: nat,
    voltage: nat,
    elapsedMilliseconds: nat,
    timestamp: nat,
    errorCode: nat
  )

  /** Characters of `language` are code points; strings are their UTF-8 bytes. */
  datatype ClientMessage =
    | Helo(deviceId: nat, revision: nat, mac: seq<Byte>, uuid: seq<Byte>, wlanChannels: nat, bytesReceived: nat,
           language: (nat, nat), capabilities: seq<Byte>)
    | Stat(eventCode: seq<Byte>, data: StatusData)
    | Bye(val: nat)
    | Name(name: seq<Byte>)

  const HELO: seq<Byte> := [72, 69, 76, 79]
  const STAT: seq<Byte> := [83, 84, 65, 84]
  const BYE: seq<Byte> := [66, 89, 69, 33]
  const SETD: seq<Byte> := [83, 69, 84, 68]

  /** The values the Rust types can hold. */
  predicate Typed(m: ClientMessage) {
    match m
    case Helo(d, r, mac, uuid, w, b, _, _) =>
      d < 256 && r < 256 && |mac| == 6 && |uuid| == 16 && w < Pow256(2) && b < Pow256(8)
    case Stat(_, s) =>
      && s.crlf < 256 && s.bufferSize < TWO32 && s.fullness < TWO32 && s.bytesReceived < Pow256(8)
      && s.sigStrength < Pow256(2) && s.outputBufferSize < TWO32 && s.outputBufferFullness < TWO32
      && s.elapsedSeconds < TWO32 && s.voltage < Pow256(2) && s.elapsedMilliseconds < TWO32 && s.errorCode < Pow256(2)
    case Bye(v) => v < 256
    case Name(_) => true
  }

  /** A millisecond count that does not fit is sent as zero. */
  function Millis(ms: nat): nat {
    if ms < TWO32 then ms else 0
  }

  function Tag(m: ClientMessage): seq<Byte> {
    match m
    case Helo(_, _, _, _, _, _, _, _) => HELO
    case Stat(_, _) => STAT
    case Bye(_) => BYE
    case Name(_) => SETD
  }

  // ---------------------------------------------------------------------------------------------
  // Fields: a body is a list of parts laid end to end
  // ---------------------------------------------------------------------------------------------

  /** The parts of a status report after the event code. */
  function StatusParts(s: StatusData): seq<seq<Byte>> {
    [PutBe(s.crlf, 1), PutBe(0, 2), PutBe(s.bufferSize, 4), PutBe(s.fullness, 4), PutBe(s.bytesReceived, 8),
     PutBe(s.sigStrength, 2), PutBe(Millis(s.jiffies), 4), PutBe(s.outputBufferSize, 4),
     PutBe(s.outputBufferFullness, 4), PutBe(s.elapsedSeconds, 4), PutBe(s.voltage, 2),
     PutBe(s.elapsedMilliseconds, 4), PutBe(Millis(s.timestamp), 4), PutBe(s.errorCode, 2)]
  }

  const STATUS_WIDTHS: seq<nat> := [1, 2, 4, 4, 8, 2, 4, 4, 4, 4, 2, 4, 4, 2]

  function HeloParts(m: ClientMessage): seq<seq<Byte>>
    requires m.Helo?
  {
    [PutBe(m.deviceId, 1), PutBe(m.revision, 1), m.mac, m.uuid, PutBe(m.wlanChannels, 2), PutBe(m.bytesReceived, 8),
     PutBe(m.language.0, 1), PutBe(m.language.1, 1)]
  }

  const HELO_WIDTHS: seq<nat> := [1, 1, 6, 16, 2, 8, 1, 1]

  function Body(m: ClientMessage): seq<Byte> {
    match m
    case Helo(_, _, _, _, _, _, _, caps) => Concat(HeloParts(m)) + caps
    case Stat(code, s) => code + Concat(StatusParts(s))
    case Bye(v) => PutBe(v, 1)
    case Name(name) => [0] + name
  }

  /** The length field counts the body, in 32 bits, and never goes below zero. */
  function LengthField(size: nat): nat {
    if size % TWO32 >= 4 then size % TWO32 - 4 else 0
  }

  function Encode(m: ClientMessage): (frame: seq<Byte>)
    ensures |frame| >= 8
  {
    Tag(m) + PutBe(LengthField(4 + |Body(m)|), 4) + Body(m)
  }

  // ---------------------------------------------------------------------------------------------
  // The serializer
  // ---------------------------------------------------------------------------------------------

  /** From<ClientMessage> for Bytes: append the fields, then splice the length in after the tag. */
  method Serialize(m: ClientMessage) returns (msg: seq<Byte>)
    ensures msg == Encode(m)
  {
    msg := PutFields(m);
    TagThenBody(Tag(m), Body(m));
    msg := Splice(msg);
  }

  lemma TagThenBody(tag: seq<Byte>, body: seq<Byte>)
    requires |tag| == 4
    ensures (tag + body)[..4] == tag && (tag + body)[4..] == body && |tag + body| == 4 + |body|
  {
  }

  method PutFields(m: ClientMessage) returns (msg: seq<Byte>)
    ensures msg == Tag(m) + Body(m)
  {
    match m {
      case Helo(deviceId, revision, mac, uuid, wlan, received, language, capabilities) =>
        msg := PutAll(HELO, [PutBe(deviceId, 1), PutBe(revision, 1), mac, uuid, PutBe(wlan, 2), PutBe(received, 8),
                             PutBe(language.0, 1), PutBe(language.1, 1)]);
        Assoc(HELO, Concat(HeloParts(m)), capabilities);
        msg := msg + capabilities;
      case Bye(val) =>
        msg := BYE + PutBe(val, 1);
      case Stat(code, data) =>
        msg := PutAll(STAT + code, StatusParts(data));
        Assoc(STAT, code, Concat(StatusParts(data)));
      case Name(name) =>
        Assoc(SETD, [0], name);
        msg := SETD + [0] + name;
    }
  }

  /** Puts the length field between the tag and the body. */
  method Splice(msg: seq<Byte>) returns (framed: seq<Byte>)
    requires |msg| >= 4
    ensures framed == msg[..4] + PutBe(LengthField(|msg|), 4) + msg[4..]
  {
    var length := PutBe(LengthField(|msg|), 4);
    framed := msg[..4] + length + msg[4..];
  }

  /** A run of appends. */
  method PutAll(start: seq<Byte>, parts: seq<seq<Byte>>) returns (msg: seq<Byte>)
    ensures msg == start + Concat(parts)
  {
    msg := start;
    for i := 0 to |parts|
      invariant msg + Concat(parts[i..]) == start + Concat(parts)
    {
      assert parts[i..][1..] == parts[i + 1..];
      Assoc(msg, parts[i], Concat(parts[i + 1..]));
      msg := msg + parts[i];
    }
    assert parts[|parts|..] == [];
    assert msg + [] == msg;
  }

  // ---------------------------------------------------------------------------------------------
  // The reference decoder
  // ---------------------------------------------------------------------------------------------

  /** Cuts parts of the given widths off the front; the rest comes last. */
  function Cut(widths: seq<nat>, s: seq<Byte>): (r: Option<seq<seq<Byte>>>)
    ensures r.Some? ==> |r.value| == |widths| + 1
  {
    if widths == [] then Some([s])
    else if |s| < widths[0] then None
    else
      var r := Cut(widths[1..], s[widths[0]..]);
      if r.None? then None else Some([s[..widths[0]]] + r.value)
  }

  function DecodeStatus(code: seq<Byte>, s: seq<Byte>): Option<ClientMessage> {
    var r := Cut(STATUS_WIDTHS, s);
    if r.None? || r.value[14] != [] then None
    else
      var p := r.value;
      Some(Stat(code, StatusData(
        GetBe(p[0]), GetBe(p[2]), GetBe(p[3]), GetBe(p[4]), GetBe(p[5]), GetBe(p[6]), GetBe(p[7]), GetBe(p[8]),
        GetBe(p[9]), GetBe(p[10]), GetBe(p[11]), GetBe(p[12]), GetBe(p[13]))))
  }

  function DecodeHelo(s: seq<Byte>): Option<ClientMessage> {
    var r := Cut(HELO_WIDTHS, s);
    if r.None? then None
    else
      var p := r.value;
      Some(Helo(GetBe(p[0]), GetBe(p[1]), p[2], p[3], GetBe(p[4]), GetBe(p[5]), (GetBe(p[6]), GetBe(p[7])), p[8]))
  }

  function DecodeBody(tag: seq<Byte>, b: seq<Byte>): Option<ClientMessage> {
    if tag == HELO then DecodeHelo(b)
    else if tag == STAT then if |b| < 4 then None else DecodeStatus(b[..4], b[4..])
    else if tag == BYE then if |b| != 1 then None else Some(Bye(GetBe(b)))
    else if tag == SETD then if |b| < 1 || b[0] != 0 then None else Some(Name(b[1..]))
    else None
  }

  /** The first message of a stream, and what follows it. */
  function DecodeFirst(s: seq<Byte>): (r: Option<(ClientMessage, seq<Byte>)>)
    ensures r.Some? ==> |r.value.1| < |s|
  {
    if |s| < 8 then None
    else
      var n := GetBe(s[4..8]);
      if |s| < 8 + n then None
      else
        var m := DecodeBody(s[..4], s[8..8 + n]);
        if m.None? then None else Some((m.value, s[8 + n..]))
  }

  function DecodeAll(s: seq<Byte>): Option<seq<ClientMessage>>
    decreases |s|
  {
    if s == [] then Some([])
    else
      var r := DecodeFirst(s);
      if r.None? then None
      else
        var more := DecodeAll(r.value.1);
        if more.None? then None else Some([r.value.0] + more.value)
  }

  // ---------------------------------------------------------------------------------------------
  // Round trips
  // ---------------------------------------------------------------------------------------------

  /** What must hold for a message to be read back as it was: event codes of four bytes, language
      characters and times that fit, and a body whose length fits. */
  predicate Representable(m: ClientMessage) {
    && |Body(m)| + 4 < TWO32
    && match m
       case Helo(_, _, _, _, _, _, lang, _) => lang.0 < 256 && lang.1 < 256
       case Stat(code, s) => |code| == 4 && s.jiffies < TWO32 && s.timestamp < TWO32
       case _ => true
  }

  predicate WidthsOf(parts: seq<seq<Byte>>, widths: seq<nat>) {
    |parts| == |widths| && forall i :: 0 <= i < |parts| ==> |parts[i]| == widths[i]
  }

  lemma {:induction false} CutConcat(parts: seq<seq<Byte>>, widths: seq<nat>, tail: seq<Byte>)
    requires WidthsOf(parts, widths)
    ensures Cut(widths, Concat(parts) + tail) == Some(parts + [tail])
  {
    if parts == [] {
      assert Concat(parts) + tail == tail;
      assert parts + [tail] == [tail];
    } else {
      var s := Concat(parts) + tail;
      Assoc(parts[0], Concat(parts[1..]), tail);
      assert s == parts[0] + (Concat(parts[1..]) + tail);
      CutConcat(parts[1..], widths[1..], tail);
      assert s[..widths[0]] == parts[0] && s[widths[0]..] == Concat(parts[1..]) + tail;
      assert [parts[0]] + (parts[1..] + [tail]) == parts + [tail];
    }
  }

  lemma StatusRoundTrip(code: seq<Byte>, s: StatusData)
    requires Typed(Stat(code, s))
    ensures DecodeStatus(code, Concat(StatusParts(s)))
            == Some(Stat(code, s.(jiffies := Millis(s.jiffies), timestamp := Millis(s.timestamp))))
  {
    var p := StatusParts(s);
    CutConcat(p, STATUS_WIDTHS, []);
    assert Concat(p) + [] == Concat(p);
    Pow256Values();
    assert Pow256(1) == 256;
    GetPut(s.crlf, 1);
    GetPut(s.bufferSize, 4);
    GetPut(s.fullness, 4);
    GetPut(s.bytesReceived, 8);
    GetPut(s.sigStrength, 2);
    GetPut(Millis(s.jiffies), 4);
    GetPut(s.outputBufferSize, 4);
    GetPut(s.outputBufferFullness, 4);
    GetPut(s.elapsedSeconds, 4);
    GetPut(s.voltage, 2);
    GetPut(s.elapsedMilliseconds, 4);
    GetPut(Millis(s.timestamp), 4);
    GetPut(s.errorCode, 2);
  }

  lemma LowByte(n: nat)
    ensures GetBe(PutBe(n, 1)) == n % 256
  {
    assert PutBe(n, 1) == PutBe(n / 256, 0) + [n % 256] == [n % 256];
  }

  lemma OneByte(n: nat)
    requires n < 256
    ensures GetBe(PutBe(n, 1)) == n
  {
    LowByte(n);
  }

  /** The parts of a HELO body, found again by their widths. */
  lemma HeloCut(m: ClientMessage)
    requires m.Helo? && Typed(m)
    ensures Cut(HELO_WIDTHS, Body(m)) == Some(HeloParts(m) + [m.capabilities])
  {
    CutConcat(HeloParts(m), HELO_WIDTHS, m.capabilities);
  }

  lemma HeloFields(m: ClientMessage)
    requires m.Helo? && Typed(m)
    ensures var p := HeloParts(m);
            && GetBe(p[0]) == m.deviceId && GetBe(p[1]) == m.revision
            && GetBe(p[4]) == m.wlanChannels && GetBe(p[5]) == m.bytesReceived
            && GetBe(p[6]) == m.language.0 % 256 && GetBe(p[7]) == m.language.1 % 256
  {
    var p := HeloParts(m);
    assert p[0] == PutBe(m.deviceId, 1) && p[1] == PutBe(m.revision, 1);
    assert p[6] == PutBe(m.language.0, 1) && p[7] == PutBe(m.language.1, 1);
    OneByte(m.deviceId);
    OneByte(m.revision);
    LowByte(m.language.0);
    LowByte(m.language.1);
    GetPut(m.wlanChannels, 2);
    GetPut(m.bytesReceived, 8);
  }

  lemma HeloRoundTrip(m: ClientMessage)
    requires m.Helo? && Typed(m)
    ensures DecodeHelo(Body(m)) == Some(AsReceived(m))
  {
    HeloCut(m);
    HeloFields(m);
    var p, q := HeloParts(m), HeloParts(m) + [m.capabilities];
    assert forall i :: 0 <= i < 8 ==> q[i] == p[i];
    assert q[8] == m.capabilities;
  }

  /** What the server reads back from any message: times that overflow become zero, language
      characters lose all but their low byte. */
  function AsReceived(m: ClientMessage): ClientMessage {
    match m
    case Helo(_, _, _, _, _, _, l, _) => m.(language := (l.0 % 256, l.1 % 256))
    case Stat(_, s) => m.(data := s.(jiffies := Millis(s.jiffies), timestamp := Millis(s.timestamp)))
    case _ => m
  }

  lemma BodyRoundTrip(m: ClientMessage)
    requires Typed(m) && (m.Stat? ==> |m.eventCode| == 4)
    ensures DecodeBody(Tag(m), Body(m)) == Some(AsReceived(m))
  {
    match m
    case Helo(_, _, _, _, _, _, _, _) => HeloRoundTrip(m);
    case Stat(code, s) =>
      StatusRoundTrip(code, s);
      assert Body(m)[..4] == code && Body(m)[4..] == Concat(StatusParts(s));
    case Bye(v) => LowByte(v);
    case Name(name) => assert Body(m)[1..] == name;
  }

  lemma FrameSlices(tag: seq<Byte>, len: seq<Byte>, b: seq<Byte>, tail: seq<Byte>)
    requires |tag| == 4 && |len| == 4
    ensures var s := tag + len + b + tail;
            && |s| == 8 + |b| + |tail|
            && s[..4] == tag && s[4..8] == len && s[8..8 + |b|] == b && s[8 + |b|..] == tail
  {
  }

  /** The length field delimits one frame of a stream. */
  lemma FirstFrame(m: ClientMessage, tail: seq<Byte>)
    requires |Body(m)| + 4 < TWO32
    ensures var b := DecodeBody(Tag(m), Body(m));
            DecodeFirst(Encode(m) + tail) == (if b.None? then None else Some((b.value, tail)))
  {
    assert LengthField(4 + |Body(m)|) == |Body(m)|;
    FramedFirst(Tag(m), Body(m), tail);
  }

  lemma FramedFirst(tag: seq<Byte>, b: seq<Byte>, tail: seq<Byte>)
    requires |tag| == 4 && |b| < TWO32
    ensures var m := DecodeBody(tag, b);
            DecodeFirst(tag + PutBe(|b|, 4) + b + tail) == (if m.None? then None else Some((m.value, tail)))
  {
    Pow256Values();
    GetPut(|b|, 4);
    FrameSlices(tag, PutBe(|b|, 4), b, tail);
  }

  /** Only a representable message is received as it was sent. */
  lemma ReceivedIff(m: ClientMessage)
    requires |Body(m)| + 4 < TWO32 && (m.Stat? ==> |m.eventCode| == 4)
    ensures AsReceived(m) == m <==> Representable(m)
  {
  }

  /** One message alone reads back as itself exactly when it is representable. */
  lemma RoundTripIff(m: ClientMessage)
    requires Typed(m)
    ensures DecodeFirst(Encode(m)) == Some((m, [])) <==> Representable(m)
  {
    if |Body(m)| + 4 >= TWO32 {
      LongBody(m);
      return;
    }
    FirstFrame(m, []);
    assert Encode(m) + [] == Encode(m);
    if m.Stat? && |m.eventCode| != 4 {
      OddEventCode(m);
    } else {
      BodyRoundTrip(m);
      ReceivedIff(m);
    }
  }

  /** A body too long for the length field is cut short by it. */
  lemma LongBody(m: ClientMessage)
    requires |Body(m)| + 4 >= TWO32
    ensures var r := DecodeFirst(Encode(m)); r.Some? ==> r.value.1 != []
  {
    var b := Body(m);
    var n := LengthField(4 + |b|);
    LengthCut(4 + |b|);
    CutFirst(Tag(m), n, b);
  }

  lemma LengthCut(size: nat)
    requires size >= TWO32
    ensures LengthField(size) < size - 4 && LengthField(size) < TWO32
  {
  }

  lemma CutFirst(tag: seq<Byte>, n: nat, b: seq<Byte>)
    requires |tag| == 4 && n < |b| && n < TWO32
    ensures var r := DecodeFirst(tag + PutBe(n, 4) + b); r.Some? ==> r.value.1 != []
  {
    Pow256Values();
    GetPut(n, 4);
    FrameSlices(tag, PutBe(n, 4), b, []);
    assert tag + PutBe(n, 4) + b + [] == tag + PutBe(n, 4) + b;
  }

  lemma OddEventCode(m: ClientMessage)
    requires m.Stat? && Typed(m) && |m.eventCode| != 4
    ensures DecodeBody(Tag(m), Body(m)) != Some(m)
  {
    var r := DecodeBody(Tag(m), Body(m));
    if r.Some? && |Body(m)| >= 4 {
      assert |r.value.eventCode| == 4;
    }
  }

  function EncodeAll(ms: seq<ClientMessage>): seq<Byte> {
    if ms == [] then [] else Encode(ms[0]) + EncodeAll(ms[1..])
  }

  lemma DecodeCons(m: ClientMessage, tail: seq<Byte>)
    requires DecodeFirst(Encode(m) + tail) == Some((m, tail)) && DecodeAll(tail).Some?
    ensures DecodeAll(Encode(m) + tail) == Some([m] + DecodeAll(tail).value)
  {
    assert Encode(m) + tail != [];
  }

  /** Any list of representable messages, written one after another, splits back into that list. */
  lemma {:induction false} StreamRoundTrip(ms: seq<ClientMessage>)
    requires forall i :: 0 <= i < |ms| ==> Typed(ms[i]) && Representable(ms[i])
    ensures DecodeAll(EncodeAll(ms)) == Some(ms)
  {
    if ms != [] {
      var m, tail := ms[0], EncodeAll(ms[1..]);
      FirstFrame(m, tail);
      BodyRoundTrip(m);
      ReceivedIff(m);
      StreamRoundTrip(ms[1..]);
      DecodeCons(m, tail);
      assert [ms[0]] + ms[1..] == ms;
    }
  }

  /** Hence the encoding is unambiguous: two lists with the same bytes are the same list. */
  lemma EncodingIsInjective(ms: seq<ClientMessage>, ns: seq<ClientMessage>)
    requires forall i :: 0 <= i < |ms| ==> Typed(ms[i]) && Representable(ms[i])
    requires forall i :: 0 <= i < |ns| ==> Typed(ns[i]) && Representable(ns[i])
    requires EncodeAll(ms) == EncodeAll(ns)
    ensures ms == ns
  {
    StreamRoundTrip(ms);
    StreamRoundTrip(ns);
  }
}
