/** Messages from the server (lms-proto/src/messages.rs): the layout of each payload, the parser that
    consumes it field by field. The reference encoder is ServerCodec. Durations are milliseconds and
    gains are the raw 16.16 numbers on the wire. */
module ServerMessages {
  import opened Bytes
  import Utf8

  type Text = seq<Byte>

  datatype AutoStart = NoStart | Auto | Direct | AutoDirect
  datatype Format = Pcm | Mp3 | Flac | Wma | Ogg | Aac | Alac
  datatype SampleSize = Eight | Sixteen | Twenty | ThirtyTwo | SizeSelfDescribing
  datatype SampleRate = Rate(hz: nat) | RateSelfDescribing
  datatype Channels = Mono | Stereo | ChannelsSelfDescribing
  datatype Endian = Big | Little | EndianSelfDescribing
  datatype Spdif = SpdifAuto | SpdifOn | SpdifOff
  datatype Transition = NoTransition | Crossfade | FadeIn | FadeOut | FadeInOut

  datatype StreamCommand = StreamCommand(
    autostart: AutoStart,
    format: Format,
    size: SampleSize,
    rate: SampleRate,
    channels: Channels,
    endian: Endian,
    threshold: nat,
    spdif: Spdif,
    transPeriod: nat,
    transType: Transition,
    flags: Byte,
    outputThreshold: nat,
    replayGain: nat,
    serverPort: nat,
    serverIp: nat,
    headers: Option<Text>
  )

  datatype ServerMessage =
    | Serv(ip: nat, syncGroup: Option<Text>)
    | Status(timestamp: nat)
    | Stream(command: StreamCommand)
    | Gain(left: nat, right: nat)
    | Enable(spdif: bool, dac: bool)
    | Flush
    | Stop
    | Pause(until: nat)
    | Unpause(at: nat)
    | Queryname
    | Setname(name: Text)
    | DisableDac
    | Skip(interval: nat)
    | Unrecognised(what: Text)
    | Error

  const SERV: Text := [115, 101, 114, 118]
  const STRM: Text := [115, 116, 114, 109]
  const AUDE: Text := [97, 117, 100, 101]
  const AUDG: Text := [97, 117, 100, 103]
  const SETD: Text := [115, 101, 116, 100]

  /** The ASCII text "This SETD is unused: ". */
  const UNUSED: Text := [84, 104, 105, 115, 32, 83, 69, 84, 68, 32, 105, 115, 32, 117, 110, 117, 115, 101, 100, 58, 32]

  // ---------------------------------------------------------------------------------------------
  // Single-byte fields
  // ---------------------------------------------------------------------------------------------

  /** An index among the digits '0', '1', ... or, at `n`, the character '?'. */
  function Digit(b: Byte): int {
    b - 48
  }

  const QUERY := 63

  function AutoStartOf(b: Byte): Option<AutoStart> {
    match Digit(b)
    case 0 => Some(NoStart)
    case 1 => Some(Auto)
    case 2 => Some(Direct)
    case 3 => Some(AutoDirect)
    case _ => None
  }

  function AutoStartByte(a: AutoStart): Byte {
    match a
    case NoStart => 48
    case Auto => 49
    case Direct => 50
    case AutoDirect => 51
  }

  function FormatOf(b: Byte): Option<Format> {
    match b
    case 112 => Some(Pcm)
    case 109 => Some(Mp3)
    case 102 => Some(Flac)
    case 119 => Some(Wma)
    case 111 => Some(Ogg)
    case 97 => Some(Aac)
    case 108 => Some(Alac)
    case _ => None
  }

  function FormatByte(f: Format): Byte {
    match f
    case Pcm => 112
    case Mp3 => 109
    case Flac => 102
    case Wma => 119
    case Ogg => 111
    case Aac => 97
    case Alac => 108
  }

  function SizeOf(b: Byte): Option<SampleSize> {
    if b == QUERY then Some(SizeSelfDescribing)
    else match Digit(b)
      case 0 => Some(Eight)
      case 1 => Some(Sixteen)
      case 2 => Some(Twenty)
      case 3 => Some(ThirtyTwo)
      case _ => None
  }

  function SizeByte(s: SampleSize): Byte {
    match s
    case Eight => 48
    case Sixteen => 49
    case Twenty => 50
    case ThirtyTwo => 51
    case SizeSelfDescribing => QUERY
  }

  /** The rates the ten digits stand for. */
  const RATES: seq<nat> := [11_000, 22_000, 32_000, 44_100, 48_000, 8_000, 12_000, 16_000, 24_000, 96_000]

  function RateOf(b: Byte): Option<SampleRate> {
    if b == QUERY then Some(RateSelfDescribing)
    else if 0 <= Digit(b) < 10 then Some(Rate(RATES[Digit(b)]))
    else None
  }

  function RateByte(r: SampleRate): Option<Byte> {
    match r
    case RateSelfDescribing => Some(QUERY)
    case Rate(hz) =>
      if hz == 11_000 then Some(48) else if hz == 22_000 then Some(49) else if hz == 32_000 then Some(50)
      else if hz == 44_100 then Some(51) else if hz == 48_000 then Some(52) else if hz == 8_000 then Some(53)
      else if hz == 12_000 then Some(54) else if hz == 16_000 then Some(55) else if hz == 24_000 then Some(56)
      else if hz == 96_000 then Some(57) else None
  }

  function ChannelsOf(b: Byte): Option<Channels> {
    match b
    case 49 => Some(Mono)
    case 50 => Some(Stereo)
    case 63 => Some(ChannelsSelfDescribing)
    case _ => None
  }

  function ChannelsByte(c: Channels): Byte {
    match c
    case Mono => 49
    case Stereo => 50
    case ChannelsSelfDescribing => QUERY
  }

  function EndianOf(b: Byte): Option<Endian> {
    match b
    case 48 => Some(Big)
    case 49 => Some(Little)
    case 63 => Some(EndianSelfDescribing)
    case _ => None
  }

  function EndianByte(e: Endian): Byte {
    match e
    case Big => 48
    case Little => 49
    case EndianSelfDescribing => QUERY
  }

  function SpdifOf(b: Byte): Option<Spdif> {
    match b
    case 0 => Some(SpdifAuto)
    case 1 => Some(SpdifOn)
    case 2 => Some(SpdifOff)
    case _ => None
  }

  function SpdifByte(s: Spdif): Byte {
    match s
    case SpdifAuto => 0
    case SpdifOn => 1
    case SpdifOff => 2
  }

  function TransitionOf(b: Byte): Option<Transition> {
    match Digit(b)
    case 0 => Some(NoTransition)
    case 1 => Some(Crossfade)
    case 2 => Some(FadeIn)
    case 3 => Some(FadeOut)
    case 4 => Some(FadeInOut)
    case _ => None
  }

  function TransitionByte(t: Transition): Byte {
    match t
    case NoTransition => 48
    case Crossfade => 49
    case FadeIn => 50
    case FadeOut => 51
    case FadeInOut => 52
  }

  /** Only bits 0, 1, 6 and 7 are flags. */
  predicate KnownFlags(b: Byte) {
    b / 4 % 16 == 0
  }

  function FlagsOf(b: Byte): Byte {
    if KnownFlags(b) then b else 0
  }

  function Decimal(n: nat): Text {
    if n < 10 then [48 + n] else Decimal(n / 10) + [48 + n % 10]
  }

  // ---------------------------------------------------------------------------------------------
  // The layout of a payload, by offsets
  // ---------------------------------------------------------------------------------------------

  /** The stream command in a `strm` body, whose byte 0 is the sub-command. */
  function StreamOf(b: seq<Byte>): ServerMessage
    requires |b| >= 24
  {
    var autostart, format, size, rate := AutoStartOf(b[1]), FormatOf(b[2]), SizeOf(b[3]), RateOf(b[4]);
    var channels, endian, spdif, trans := ChannelsOf(b[5]), EndianOf(b[6]), SpdifOf(b[8]), TransitionOf(b[10]);
    if autostart.None? || format.None? || size.None? || rate.None? ||
       channels.None? || endian.None? || spdif.None? || trans.None? then Error
    else
      Stream(StreamCommand(
        autostart.value, format.value, size.value, rate.value, channels.value, endian.value,
        (b[7] as int) * 1024, spdif.value, (b[9] as int) * 1000, trans.value, FlagsOf(b[11]), (b[12] as int) * 100,
        GetBe(b[14..18]), GetBe(b[18..20]), GetBe(b[20..24]),
        if |b| == 24 then None else Some(Utf8.Lossy(b[24..]))))
  }

  function StrmOf(b: seq<Byte>): ServerMessage {
    if |b| < 24 then Error
    else
      var time := GetBe(b[14..18]);
      match b[0]
      case 116 => Status(time)
      case 115 => StreamOf(b)
      case 113 => Stop
      case 102 => Flush
      case 112 => Pause(time)
      case 117 => Unpause(time)
      case 97 => Skip(time)
      case c => Unrecognised(STRM + [95] + Utf8.CharBytes(c))
  }

  function SetdOf(b: seq<Byte>): ServerMessage {
    if b == [] then Error
    else match b[0]
      case 0 => if |b| == 1 then Queryname else Setname(Utf8.OrDefault(b[1..|b| - 1]))
      case 4 => DisableDac
      case v => Unrecognised(UNUSED + Decimal(v))
  }

  function ServOf(b: seq<Byte>): ServerMessage {
    if |b| < 4 then Error
    else Serv(GetBe(b[..4]), if |b| == 4 then None else Some(Utf8.FromLatin1(b[4..])))
  }

  function AudgOf(b: seq<Byte>): ServerMessage {
    if |b| < 18 then Error else Gain(GetBe(b[10..14]), GetBe(b[14..18]))
  }

  function MessageOf(payload: seq<Byte>): ServerMessage
    requires |payload| >= 4
  {
    var cmd, b := payload[..4], payload[4..];
    if cmd == SERV then ServOf(b)
    else if cmd == STRM then StrmOf(b)
    else if cmd == AUDE then
      if |b| < 2 then Error else Enable(b[0] != 0, b[1] != 0)
    else if cmd == AUDG then AudgOf(b)
    else if cmd == SETD then SetdOf(b)
    else Unrecognised(Utf8.Lossy(cmd))
  }

  // ---------------------------------------------------------------------------------------------
  // The parser: a buffer consumed from the front
  // ---------------------------------------------------------------------------------------------

  /** A BytesMut that is only ever split or advanced at the front. */
  class Cursor {
    const data: seq<Byte>
    var pos: nat

    ghost predicate Valid()
      reads this
    {
      pos <= |data|
    }

    function Remaining(): nat
      requires Valid()
      reads this
    {
      |data| - pos
    }

    constructor (data: seq<Byte>)
      ensures Valid() && this.data == data && pos == 0
    {
      this.data, this.pos := data, 0;
    }

    /** Panics in the source when fewer than n bytes remain. */
    method SplitTo(n: nat) returns (s: seq<Byte>)
      requires Valid() && n <= Remaining()
      modifies this
      ensures Valid() && pos == old(pos) + n && s == data[old(pos)..pos]
    {
      s := data[pos..pos + n];
      pos := pos + n;
    }

    method TakeByte() returns (b: Byte)
      requires Valid() && 1 <= Remaining()
      modifies this
      ensures Valid() && pos == old(pos) + 1 && b == data[old(pos)]
    {
      b := data[pos];
      pos := pos + 1;
    }

    method Advance(n: nat)
      requires Valid() && n <= Remaining()
      modifies this
      ensures Valid() && pos == old(pos) + n
    {
      pos := pos + n;
    }

    method GetU32() returns (n: nat)
      requires Valid() && 4 <= Remaining()
      modifies this
      ensures Valid() && pos == old(pos) + 4 && n == GetBe(data[old(pos)..pos])
    {
      n := GetBe(data[pos..pos + 4]);
      pos := pos + 4;
    }
  }

  /** The first six fields of the `s` form, one byte each. */
  datatype Choices = Choices(
    autostart: AutoStart, format: Format, size: SampleSize, rate: SampleRate, channels: Channels, endian: Endian)

  /** Nothing when one of the choices is not recognised. */
  method ParseChoices(buf: Cursor) returns (c: Option<Choices>)
    requires buf.Valid() && buf.Remaining() >= 6
    modifies buf
    ensures buf.Valid()
    ensures c.Some? ==> buf.pos == old(buf.pos) + 6
    ensures var p := old(buf.pos);
            var autostart, format, size := AutoStartOf(buf.data[p]), FormatOf(buf.data[p + 1]), SizeOf(buf.data[p + 2]);
            var rate, channels := RateOf(buf.data[p + 3]), ChannelsOf(buf.data[p + 4]);
            var endian := EndianOf(buf.data[p + 5]);
            if autostart.None? || format.None? || size.None? || rate.None? || channels.None? || endian.None?
            then c == None
            else c == Some(Choices(autostart.value, format.value, size.value, rate.value, channels.value, endian.value))
  {
    var b := buf.TakeByte();
    var autostart := AutoStartOf(b);
    if autostart.None? { return None; }
    b := buf.TakeByte();
    var format := FormatOf(b);
    if format.None? { return None; }
    b := buf.TakeByte();
    var size := SizeOf(b);
    if size.None? { return None; }
    b := buf.TakeByte();
    var rate := RateOf(b);
    if rate.None? { return None; }
    b := buf.TakeByte();
    var channels := ChannelsOf(b);
    if channels.None? { return None; }
    b := buf.TakeByte();
    var endian := EndianOf(b);
    if endian.None? { return None; }
    c := Some(Choices(autostart.value, format.value, size.value, rate.value, channels.value, endian.value));
  }

  /** The six bytes after the choices; an unused byte, gain, port and address follow them. */
  datatype Settings = Settings(
    threshold: nat, spdif: Spdif, transPeriod: nat, transType: Transition, flags: Byte, outputThreshold: nat)

  method ParseSettings(buf: Cursor) returns (s: Option<Settings>)
    requires buf.Valid() && buf.Remaining() >= 6
    modifies buf
    ensures buf.Valid()
    ensures s.Some? ==> buf.pos == old(buf.pos) + 6
    ensures var p := old(buf.pos);
            var spdif, trans := SpdifOf(buf.data[p + 1]), TransitionOf(buf.data[p + 3]);
            if spdif.None? || trans.None? then s == None
            else s == Some(Settings((buf.data[p] as int) * 1024, spdif.value, (buf.data[p + 2] as int) * 1000,
                                    trans.value, FlagsOf(buf.data[p + 4]), (buf.data[p + 5] as int) * 100))
  {
    var threshold := buf.TakeByte();
    var b := buf.TakeByte();
    var spdif := SpdifOf(b);
    if spdif.None? { return None; }
    var transPeriod := buf.TakeByte();
    b := buf.TakeByte();
    var trans := TransitionOf(b);
    if trans.None? { return None; }
    var flags := buf.TakeByte();
    var outputThreshold := buf.TakeByte();
    s := Some(Settings((threshold as int) * 1024, spdif.value, (transPeriod as int) * 1000, trans.value, FlagsOf(flags),
                       (outputThreshold as int) * 100));
  }

  /** The 's' form. The caller has checked for 24 bytes and taken the first: no read passes the end. */
  method ParseStream(buf: Cursor) returns (m: ServerMessage)
    requires buf.Valid() && buf.Remaining() >= 23 && buf.pos >= 1
    modifies buf
    ensures m == StreamOf(buf.data[old(buf.pos) - 1..])
  {
    ghost var body := buf.data[buf.pos - 1..];
    assert forall i :: 0 <= i < 24 ==> body[i] == buf.data[buf.pos - 1 + i];
    var choices := ParseChoices(buf);
    if choices.None? { return Error; }
    var settings := ParseSettings(buf);
    if settings.None? { return Error; }
    buf.Advance(1);
    var gain := buf.GetU32();
    var port := buf.SplitTo(2);
    var ip := buf.GetU32();
    var headers: Option<Text> := None;
    if buf.Remaining() > 0 {
      headers := Some(Utf8.Lossy(buf.data[buf.pos..]));
    }
    var c, s := choices.value, settings.value;
    m := Stream(StreamCommand(
      c.autostart, c.format, c.size, c.rate, c.channels, c.endian, s.threshold, s.spdif,
      s.transPeriod, s.transType, s.flags, s.outputThreshold, gain, GetBe(port), ip, headers));
    assert body[14..18] == buf.data[old(buf.pos) + 13..old(buf.pos) + 17];
    assert body[18..20] == port;
    assert body[20..24] == buf.data[old(buf.pos) + 19..old(buf.pos) + 23];
    assert body[24..] == buf.data[old(buf.pos) + 23..];
  }

  method ParseStrm(buf: Cursor) returns (m: ServerMessage)
    requires buf.Valid()
    modifies buf
    ensures m == StrmOf(buf.data[old(buf.pos)..])
  {
    ghost var body := buf.data[buf.pos..];
    if buf.Remaining() < 24 {
      return Error;
    }
    var cmd := buf.TakeByte();
    if cmd == 115 {
      m := ParseStream(buf);
    } else if cmd == 113 {
      m := Stop;
    } else if cmd == 102 {
      m := Flush;
    } else if cmd == 116 || cmd == 112 || cmd == 117 || cmd == 97 {
      buf.Advance(13);
      var time := buf.GetU32();
      assert body[14..18] == buf.data[old(buf.pos) + 14..old(buf.pos) + 18];
      m := if cmd == 116 then Status(time) else if cmd == 112 then Pause(time)
           else if cmd == 117 then Unpause(time) else Skip(time);
    } else {
      m := Unrecognised(STRM + [95] + Utf8.CharBytes(cmd));
    }
  }

  method ParseServ(buf: Cursor) returns (m: ServerMessage)
    requires buf.Valid()
    modifies buf
    ensures m == ServOf(buf.data[old(buf.pos)..])
  {
    if buf.Remaining() < 4 { return Error; }
    var ip := buf.GetU32();
    ghost var body := buf.data[old(buf.pos)..];
    assert body[..4] == buf.data[old(buf.pos)..buf.pos];
    var group := None;
    if buf.Remaining() > 0 {
      group := Some(Utf8.FromLatin1(buf.data[buf.pos..]));
      assert body[4..] == buf.data[buf.pos..];
    }
    m := Serv(ip, group);
  }

  method ParseAudg(buf: Cursor) returns (m: ServerMessage)
    requires buf.Valid()
    modifies buf
    ensures m == AudgOf(buf.data[old(buf.pos)..])
  {
    if buf.Remaining() < 18 { return Error; }
    ghost var p := buf.pos;
    buf.Advance(10);
    var left := buf.GetU32();
    var right := buf.GetU32();
    m := Gain(left, right);
    assert buf.data[p..][10..14] == buf.data[p + 10..p + 14];
    assert buf.data[p..][14..18] == buf.data[p + 14..p + 18];
  }

  method ParseSetd(buf: Cursor) returns (m: ServerMessage)
    requires buf.Valid()
    modifies buf
    ensures m == SetdOf(buf.data[old(buf.pos)..])
  {
    if buf.Remaining() == 0 {
      return Error;
    }
    var what := buf.TakeByte();
    if what == 0 {
      if buf.Remaining() == 0 {
        m := Queryname;
      } else {
        m := Setname(Utf8.OrDefault(buf.data[buf.pos..|buf.data| - 1]));
        ghost var body := buf.data[old(buf.pos)..];
        assert body[1..|body| - 1] == buf.data[buf.pos..|buf.data| - 1];
      }
    } else if what == 4 {
      m := DisableDac;
    } else {
      m := Unrecognised(UNUSED + Decimal(what));
    }
  }

  /** From<BytesMut> for ServerMessage. The source splits off four bytes without looking. */
  method Parse(payload: seq<Byte>) returns (m: ServerMessage)
    requires |payload| >= 4
    ensures m == MessageOf(payload)
  {
    var buf := new Cursor(payload);
    var tag := buf.SplitTo(4);
    assert tag == payload[..4];
    var msg := Utf8.Lossy(tag);
    TagsAreExact(tag);
    if msg == SERV {
      m := ParseServ(buf);
    } else if msg == STRM {
      m := ParseStrm(buf);
    } else if msg == AUDE {
      if buf.Remaining() < 2 { return Error; }
      m := Enable(payload[buf.pos] != 0, payload[buf.pos + 1] != 0);
    } else if msg == AUDG {
      m := ParseAudg(buf);
    } else if msg == SETD {
      m := ParseSetd(buf);
    } else {
      m := Unrecognised(msg);
    }
  }

  /** Comparing the lossy text with an ASCII tag is comparing the bytes. */
  lemma TagIsExact(tag: seq<Byte>, t: Text)
    requires Utf8.Ascii(t)
    ensures Utf8.Lossy(tag) == t <==> tag == t
  {
    if Utf8.Lossy(tag) == t {
      Utf8.LossyAscii(tag);
    }
    if tag == t {
      Utf8.AsciiIsValid(t);
      Utf8.LossyKeepsValid(t);
    }
  }

  lemma TagsAreExact(tag: seq<Byte>)
    ensures (Utf8.Lossy(tag) == SERV <==> tag == SERV) && (Utf8.Lossy(tag) == STRM <==> tag == STRM)
    ensures (Utf8.Lossy(tag) == AUDE <==> tag == AUDE) && (Utf8.Lossy(tag) == AUDG <==> tag == AUDG)
    ensures Utf8.Lossy(tag) == SETD <==> tag == SETD
  {
    TagIsExact(tag, SERV);
    TagIsExact(tag, STRM);
    TagIsExact(tag, AUDE);
    TagIsExact(tag, AUDG);
    TagIsExact(tag, SETD);
  }
}
