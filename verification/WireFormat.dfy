/** The wire formats in numbers and characters: the tags, the field tables, the offsets and the limits of
    the messages, written out independently of the encoders and parsers that use them. */
module WireFormat {
  import opened Bytes
  import Utf8
  import SM = ServerMessages
  import CM = ClientMessages
  import D = Discovery
  import F = Framing

  lemma TagsSpelled()
    ensures SM.SERV == Ascii("serv") && SM.STRM == Ascii("strm") && SM.AUDE == Ascii("aude")
    ensures SM.AUDG == Ascii("audg") && SM.SETD == Ascii("setd")
    ensures SM.UNUSED == Ascii("This SETD is unused: ")
    ensures CM.HELO == Ascii("HELO") && CM.STAT == Ascii("STAT") && CM.BYE == Ascii("BYE!") && CM.SETD == Ascii("SETD")
    ensures D.NAME == Ascii("NAME") && D.VERS == Ascii("VERS") && D.IPAD == Ascii("IPAD") && D.JSON == Ascii("JSON")
  {
  }

  // ---------------------------------------------------------------------------------------------
  // Server messages: one-byte fields
  // ---------------------------------------------------------------------------------------------

  /** A field reads exactly these bytes, as these values in order, and refuses every other byte. */
  ghost predicate Table<T(!new)>(of: Byte -> Option<T>, bytes: seq<Byte>, values: seq<T>) {
    && |bytes| == |values|
    && (forall i :: 0 <= i < |bytes| ==> of(bytes[i]) == Some(values[i]))
    && (forall b: Byte :: of(b).Some? ==> b in bytes)
  }

  lemma FormatTables()
    ensures Table(SM.AutoStartOf, Ascii("0123"), [SM.NoStart, SM.Auto, SM.Direct, SM.AutoDirect])
    ensures Table(SM.FormatOf, Ascii("pmfwoal"), [SM.Pcm, SM.Mp3, SM.Flac, SM.Wma, SM.Ogg, SM.Aac, SM.Alac])
  {
    assert Ascii("0123") == [48, 49, 50, 51];
    assert Ascii("pmfwoal") == [112, 109, 102, 119, 111, 97, 108];
  }

  lemma SampleTables()
    ensures Table(SM.SizeOf, Ascii("0123?"), [SM.Eight, SM.Sixteen, SM.Twenty, SM.ThirtyTwo, SM.SizeSelfDescribing])
    ensures Table(SM.ChannelsOf, Ascii("12?"), [SM.Mono, SM.Stereo, SM.ChannelsSelfDescribing])
    ensures Table(SM.EndianOf, Ascii("01?"), [SM.Big, SM.Little, SM.EndianSelfDescribing])
  {
    assert Ascii("0123?") == [48, 49, 50, 51, 63];
    assert Ascii("12?") == [49, 50, 63];
    assert Ascii("01?") == [48, 49, 63];
  }

  lemma OutputTables()
    ensures Table(SM.SpdifOf, [0, 1, 2], [SM.SpdifAuto, SM.SpdifOn, SM.SpdifOff])
    ensures Table(SM.TransitionOf, Ascii("01234"),
                  [SM.NoTransition, SM.Crossfade, SM.FadeIn, SM.FadeOut, SM.FadeInOut])
  {
    assert Ascii("01234") == [48, 49, 50, 51, 52];
  }

  lemma RateTable()
    ensures Table(SM.RateOf, Ascii("0123456789?"),
                  [SM.Rate(11_000), SM.Rate(22_000), SM.Rate(32_000), SM.Rate(44_100), SM.Rate(48_000), SM.Rate(8_000),
                   SM.Rate(12_000), SM.Rate(16_000), SM.Rate(24_000), SM.Rate(96_000), SM.RateSelfDescribing])
  {
    assert Ascii("0123456789?") == [48, 49, 50, 51, 52, 53, 54, 55, 56, 57, 63];
  }

  /** Flags are kept exactly when no bit but 7, 6, 1 and 0 is set; otherwise none are. */
  lemma FlagBits(b: Byte)
    ensures SM.FlagsOf(b)
            == if b == 128 * (b / 128) + 64 * (b / 64 % 2) + 2 * (b / 2 % 2) + b % 2 then b else 0
  {
  }

  // ---------------------------------------------------------------------------------------------
  // Server messages: the payloads
  // ---------------------------------------------------------------------------------------------

  /** The payload with a tag and a body is read by its tag. */
  lemma ByTag(tag: seq<Byte>, body: seq<Byte>)
    requires |tag| == 4
    ensures SM.MessageOf(tag + body)
            == if tag == SM.SERV then SM.ServOf(body)
               else if tag == SM.STRM then SM.StrmOf(body)
               else if tag == SM.AUDE then
                 if |body| < 2 then SM.Error else SM.Enable(body[0] != 0, body[1] != 0)
               else if tag == SM.AUDG then SM.AudgOf(body)
               else if tag == SM.SETD then SM.SetdOf(body)
               else SM.Unrecognised(Utf8.Lossy(tag))
  {
    assert (tag + body)[..4] == tag && (tag + body)[4..] == body;
  }

  /** Address and group. */
  lemma ServOnWire(a: Byte, b: Byte, c: Byte, d: Byte, group: seq<Byte>)
    ensures SM.MessageOf(Ascii("serv") + ([a, b, c, d] + group))
            == SM.Serv(0x100_0000 * a + 0x1_0000 * b + 0x100 * c + d,
                       if group == [] then None else Some(Utf8.FromLatin1(group)))
  {
    TagsSpelled();
    var body := [a, b, c, d] + group;
    ByTag(SM.SERV, body);
    MostSignificantFirst(a, b, c, d);
    assert body[..4] == [a, b, c, d] && body[4..] == group;
  }

  /** Whether each output is on: any byte but zero is yes. */
  lemma AudeOnWire(spdif: Byte, dac: Byte, more: seq<Byte>)
    ensures SM.MessageOf(Ascii("aude") + ([spdif, dac] + more)) == SM.Enable(spdif > 0, dac > 0)
  {
    TagsSpelled();
    ByTag(SM.AUDE, [spdif, dac] + more);
  }

  /** Ten bytes that do not matter, then two gains. */
  lemma AudgOnWire(unused: seq<Byte>, a: Byte, b: Byte, c: Byte, d: Byte, e: Byte, f: Byte, g: Byte, h: Byte)
    requires |unused| == 10
    ensures SM.MessageOf(Ascii("audg") + (unused + [a, b, c, d, e, f, g, h]))
            == SM.Gain(0x100_0000 * a + 0x1_0000 * b + 0x100 * c + d, 0x100_0000 * e + 0x1_0000 * f + 0x100 * g + h)
  {
    TagsSpelled();
    var body := unused + [a, b, c, d, e, f, g, h];
    ByTag(SM.AUDG, body);
    MostSignificantFirst(a, b, c, d);
    MostSignificantFirst(e, f, g, h);
    assert body[10..14] == [a, b, c, d] && body[14..18] == [e, f, g, h];
  }

  /** A name loses its last byte, and is empty when it is not UTF-8. */
  lemma SetdOnWire(name: seq<Byte>, last: Byte, what: Byte, more: seq<Byte>)
    ensures SM.MessageOf(Ascii("setd") + [0]) == SM.Queryname
    ensures SM.MessageOf(Ascii("setd") + ([0] + name + [last])) == SM.Setname(if Utf8.Valid(name) then name else [])
    ensures SM.MessageOf(Ascii("setd") + ([4] + more)) == SM.DisableDac
    ensures what != 0 && what != 4 ==>
              SM.MessageOf(Ascii("setd") + ([what] + more))
              == SM.Unrecognised(Ascii("This SETD is unused: ") + SM.Decimal(what))
  {
    TagsSpelled();
    ByTag(SM.SETD, [0]);
    var body := [0] + name + [last];
    ByTag(SM.SETD, body);
    assert body[1..|body| - 1] == name;
    ByTag(SM.SETD, [4] + more);
    ByTag(SM.SETD, [what] + more);
  }

  /** The sub-commands of a body of at least twenty-four bytes; a time is fourteen bytes into it. */
  lemma TimedOnWire(cmd: char, before: seq<Byte>, a: Byte, b: Byte, c: Byte, d: Byte, after: seq<Byte>)
    requires |before| == 13 && |after| >= 6 && cmd in {'t', 'p', 'u', 'a', 'q', 'f'}
    ensures var time := 0x100_0000 * a + 0x1_0000 * b + 0x100 * c + d;
            SM.MessageOf(Ascii("strm") + ([cmd as int] + (before + [a, b, c, d] + after)))
            == match cmd
               case 't' => SM.Status(time)
               case 'p' => SM.Pause(time)
               case 'u' => SM.Unpause(time)
               case 'a' => SM.Skip(time)
               case 'q' => SM.Stop
               case _ => SM.Flush
  {
    Timed(cmd as int, before, [a, b, c, d], after);
    MostSignificantFirst(a, b, c, d);
  }

  /** Any other sub-command but the stream's own is reported by its character. */
  lemma UnknownCommand(cmd: Byte, before: seq<Byte>, after: seq<Byte>)
    requires |before| == 13 && |after| >= 10 && cmd !in Ascii("tpuaqfs")
    ensures SM.MessageOf(Ascii("strm") + ([cmd] + (before + after)))
            == SM.Unrecognised(Ascii("strm_") + Utf8.EncodeScalar(cmd))
  {
    assert Ascii("tpuaqfs") == [116, 112, 117, 97, 113, 102, 115];
    Timed(cmd, before, after[..4], after[4..]);
    assert before + after == before + after[..4] + after[4..];
    Utf8.LatinIsScalar(cmd);
    assert SM.STRM + [95] == Ascii("strm_");
  }

  lemma Timed(cmd: Byte, before: seq<Byte>, time: seq<Byte>, after: seq<Byte>)
    requires |before| == 13 && |time| == 4 && |after| >= 6
    ensures var body := [cmd] + (before + time + after);
            && SM.MessageOf(Ascii("strm") + body) == SM.StrmOf(body)
            && |body| >= 24 && body[0] == cmd && body[14..18] == time
  {
    TagsSpelled();
    var body := [cmd] + (before + time + after);
    ByTag(SM.STRM, body);
    assert body[14..18] == time;
  }

  /** Every field of the stream command at its place: a command whose bytes are all different, and any
      headers. */
  lemma StreamOnWire(f: seq<Byte>, headers: seq<Byte>)
    requires f == [115, 51, 102, 48, 56, 50, 49, 7, 1, 5, 52, 0xC3, 9, 0, 11, 12, 13, 14, 15, 16, 17, 18, 19, 20]
    ensures SM.MessageOf(Ascii("strm") + (f + headers))
            == SM.Stream(SM.StreamCommand(
                 SM.AutoDirect, SM.Flac, SM.Eight, SM.Rate(24_000), SM.Stereo, SM.Little, 7168, SM.SpdifOn, 5000,
                 SM.FadeInOut, 0xC3, 900, 0x0B0C_0D0E, 0x0F10, 0x1112_1314,
                 if headers == [] then None else Some(Utf8.Lossy(headers))))
  {
    StreamFields(f, headers);
    StreamChoices(f);
    StreamNumbers();
  }

  lemma StreamChoices(f: seq<Byte>)
    requires f == [115, 51, 102, 48, 56, 50, 49, 7, 1, 5, 52, 0xC3, 9, 0, 11, 12, 13, 14, 15, 16, 17, 18, 19, 20]
    ensures SM.AutoStartOf(f[1]) == Some(SM.AutoDirect) && SM.FormatOf(f[2]) == Some(SM.Flac)
    ensures SM.SizeOf(f[3]) == Some(SM.Eight) && SM.RateOf(f[4]) == Some(SM.Rate(24_000))
    ensures SM.ChannelsOf(f[5]) == Some(SM.Stereo) && SM.EndianOf(f[6]) == Some(SM.Little)
    ensures SM.SpdifOf(f[8]) == Some(SM.SpdifOn) && SM.TransitionOf(f[10]) == Some(SM.FadeInOut)
    ensures SM.FlagsOf(f[11]) == 0xC3
  {
  }

  lemma StreamNumbers()
    ensures GetBe([11, 12, 13, 14]) == 0x0B0C_0D0E && GetBe([15, 16]) == 0x0F10
    ensures GetBe([17, 18, 19, 20]) == 0x1112_1314
  {
    MostSignificantFirst(11, 12, 13, 14);
    MostSignificantFirst(15, 16, 0, 0);
    MostSignificantFirst(17, 18, 19, 20);
  }

  lemma StreamFields(f: seq<Byte>, headers: seq<Byte>)
    requires |f| == 24 && f[0] == 115
    ensures var body := f + headers;
            && SM.MessageOf(Ascii("strm") + body) == SM.StreamOf(body)
            && (forall i :: 0 <= i < 24 ==> body[i] == f[i])
            && body[14..18] == [f[14], f[15], f[16], f[17]] && body[18..20] == [f[18], f[19]]
            && body[20..24] == [f[20], f[21], f[22], f[23]] && body[24..] == headers
  {
    TagsSpelled();
    ByTag(SM.STRM, f + headers);
  }

  /** Bodies too short for their message are errors. */
  lemma ShortServ(body: seq<Byte>)
    ensures |body| < 4 ==> SM.MessageOf(Ascii("serv") + body) == SM.Error
  {
    TagsSpelled();
    ByTag(SM.SERV, body);
  }

  lemma ShortStrm(body: seq<Byte>)
    ensures |body| < 24 ==> SM.MessageOf(Ascii("strm") + body) == SM.Error
  {
    TagsSpelled();
    ByTag(SM.STRM, body);
  }

  lemma ShortAude(body: seq<Byte>)
    ensures |body| < 2 ==> SM.MessageOf(Ascii("aude") + body) == SM.Error
  {
    TagsSpelled();
    ByTag(SM.AUDE, body);
  }

  lemma ShortAudg(body: seq<Byte>)
    ensures |body| < 18 ==> SM.MessageOf(Ascii("audg") + body) == SM.Error
  {
    TagsSpelled();
    ByTag(SM.AUDG, body);
  }

  lemma ShortSetd()
    ensures SM.MessageOf(Ascii("setd")) == SM.Error
  {
    TagsSpelled();
    assert SM.SETD + [] == SM.SETD;
    ByTag(SM.SETD, []);
  }

  /** The number a decimal text denotes. */
  function DecimalValue(t: seq<Byte>): int {
    if t == [] then 0 else 10 * DecimalValue(t[..|t| - 1]) + (t[|t| - 1] - '0' as int)
  }

  lemma {:induction false} DecimalDenotes(n: nat)
    ensures var t := SM.Decimal(n);
            && DecimalValue(t) == n && (forall i :: 0 <= i < |t| ==> '0' as int <= t[i] <= '9' as int)
            && (t[0] == '0' as int ==> n == 0 && |t| == 1)
  {
    if n >= 10 {
      DecimalDenotes(n / 10);
      var t := SM.Decimal(n);
      assert t[..|t| - 1] == SM.Decimal(n / 10);
    } else {
      assert SM.Decimal(n)[..0] == [];
    }
  }

  // ---------------------------------------------------------------------------------------------
  // Client messages
  // ---------------------------------------------------------------------------------------------

  /** The length field counts the body, modulo 2^32 and never below zero. */
  lemma LengthOnWire(m: CM.ClientMessage)
    ensures var f, n := CM.Encode(m), (4 + |CM.Body(m)|) % 0x1_0000_0000;
            && |f| == 8 + |CM.Body(m)| && f[4..8] == PutBe(if n < 4 then 0 else n - 4, 4)
            && f[8..] == CM.Body(m)
  {
    var b := CM.Body(m);
    var n := (4 + |b|) % 0x1_0000_0000;
    assert CM.LengthField(4 + |b|) == if n < 4 then 0 else n - 4;
    ThreeParts(CM.Tag(m), PutBe(CM.LengthField(4 + |b|), 4), b);
  }

  lemma ThreeParts(tag: seq<Byte>, length: seq<Byte>, b: seq<Byte>)
    requires |tag| == 4 && |length| == 4
    ensures var f := tag + length + b; |f| == 8 + |b| && f[4..8] == length && f[8..] == b
  {
  }

  /** A short body, framed. */
  lemma ShortFrame(m: CM.ClientMessage, n: nat)
    requires |CM.Body(m)| == n < 0x100
    ensures CM.Encode(m) == CM.Tag(m) + [0, 0, 0, n] + CM.Body(m)
  {
    SmallLength(n);
    assert CM.LengthField(4 + n) == n;
  }

  lemma ByeOnWire(v: Byte)
    ensures CM.Encode(CM.Bye(v)) == Ascii("BYE!") + [0, 0, 0, 1, v]
  {
    TagsSpelled();
    OneByte(v);
    ShortFrame(CM.Bye(v), 1);
    Assoc(CM.BYE, [0, 0, 0, 1], [v]);
    assert [0, 0, 0, 1] + [v] == [0, 0, 0, 1, v];
  }

  lemma NameOnWire(name: seq<Byte>)
    requires |name| + 1 < 0x100
    ensures CM.Encode(CM.Name(name)) == Ascii("SETD") + ([0, 0, 0, |name| + 1, 0] + name)
  {
    TagsSpelled();
    var n := |name| + 1;
    ShortFrame(CM.Name(name), n);
    Assoc(CM.SETD, [0, 0, 0, n], [0] + name);
    assert [0, 0, 0, n] + ([0] + name) == [0, 0, 0, n, 0] + name;
  }

  lemma OneByte(v: Byte)
    ensures PutBe(v as int, 1) == [v]
  {
    assert [v][..0] == [];
    PutGet([v]);
  }

  lemma SmallLength(n: nat)
    requires n < 0x100
    ensures PutBe(n, 4) == [0, 0, 0, n]
  {
    MostSignificantFirst(0, 0, 0, n);
    PutGet([0, 0, 0, n]);
  }

  /** Where the k-th part of a list laid end to end begins. */
  function Offset(parts: seq<seq<Byte>>, k: nat): nat
    requires k <= |parts|
  {
    if k == 0 then 0 else Offset(parts, k - 1) + |parts[k - 1]|
  }

  lemma {:induction false} FieldAt(parts: seq<seq<Byte>>, k: nat)
    requires k < |parts|
    ensures Offset(parts, k) + |parts[k]| <= |Concat(parts)|
    ensures Concat(parts)[Offset(parts, k)..Offset(parts, k) + |parts[k]|] == parts[k]
    decreases k
  {
    if k > 0 {
      FieldAt(parts[1..], k - 1);
      OffsetSkips(parts, k);
      var o, n := Offset(parts[1..], k - 1), |parts[0]|;
      assert Concat(parts)[n + o..n + o + |parts[k]|] == Concat(parts[1..])[o..o + |parts[k]|];
    }
  }

  lemma {:induction false} OffsetSkips(parts: seq<seq<Byte>>, k: nat)
    requires 0 < k <= |parts|
    ensures Offset(parts, k) == |parts[0]| + Offset(parts[1..], k - 1)
    decreases k
  {
    if k > 1 {
      OffsetSkips(parts, k - 1);
    }
  }

  /** A status report, field by field: 61 bytes, times that do not fit in 32 bits sent as zero. */
  lemma StatOnWire(code: seq<Byte>, s: CM.StatusData)
    requires |code| == 4
    ensures var f := CM.Encode(CM.Stat(code, s));
            && |f| == 61 && f[..4] == Ascii("STAT") && f[4..8] == [0, 0, 0, 53] && f[8..12] == code
            && f[12..13] == PutBe(s.crlf, 1) && f[13..15] == [0, 0] && f[15..19] == PutBe(s.bufferSize, 4)
            && f[19..23] == PutBe(s.fullness, 4) && f[23..31] == PutBe(s.bytesReceived, 8)
            && f[31..33] == PutBe(s.sigStrength, 2)
            && f[33..37] == PutBe(if s.jiffies < 0x1_0000_0000 then s.jiffies else 0, 4)
            && f[37..41] == PutBe(s.outputBufferSize, 4) && f[41..45] == PutBe(s.outputBufferFullness, 4)
            && f[45..49] == PutBe(s.elapsedSeconds, 4) && f[49..51] == PutBe(s.voltage, 2)
            && f[51..55] == PutBe(s.elapsedMilliseconds, 4)
            && f[55..59] == PutBe(if s.timestamp < 0x1_0000_0000 then s.timestamp else 0, 4)
            && f[59..61] == PutBe(s.errorCode, 2)
  {
    var b := Concat(CM.StatusParts(s));
    StatFields(s);
    var f := CM.Encode(CM.Stat(code, s));
    StatParts(code, s, b);
    StatSlices(f, code, b);
  }

  lemma StatParts(code: seq<Byte>, s: CM.StatusData, b: seq<Byte>)
    requires |code| == 4 && b == Concat(CM.StatusParts(s)) && |b| == 49
    ensures CM.Encode(CM.Stat(code, s)) == Ascii("STAT") + [0, 0, 0, 53] + (code + b)
  {
    TagsSpelled();
    ShortFrame(CM.Stat(code, s), 53);
  }

  lemma StatSlices(f: seq<Byte>, code: seq<Byte>, b: seq<Byte>)
    requires |code| == 4 && |b| == 49 && f == Ascii("STAT") + [0, 0, 0, 53] + (code + b)
    ensures |f| == 61 && f[..4] == Ascii("STAT") && f[4..8] == [0, 0, 0, 53] && f[8..12] == code
    ensures f[12..13] == b[0..1] && f[13..15] == b[1..3] && f[15..19] == b[3..7] && f[19..23] == b[7..11]
    ensures f[23..31] == b[11..19] && f[31..33] == b[19..21] && f[33..37] == b[21..25] && f[37..41] == b[25..29]
    ensures f[41..45] == b[29..33] && f[45..49] == b[33..37] && f[49..51] == b[37..39] && f[51..55] == b[39..43]
    ensures f[55..59] == b[43..47] && f[59..61] == b[47..49]
  {
    assert f[12..] == b;
  }

  lemma StatFields(s: CM.StatusData)
    ensures var b := Concat(CM.StatusParts(s));
            && |b| == 49 && b[0..1] == PutBe(s.crlf, 1) && b[1..3] == [0, 0] && b[3..7] == PutBe(s.bufferSize, 4)
            && b[7..11] == PutBe(s.fullness, 4) && b[11..19] == PutBe(s.bytesReceived, 8)
            && b[19..21] == PutBe(s.sigStrength, 2)
            && b[21..25] == PutBe(if s.jiffies < 0x1_0000_0000 then s.jiffies else 0, 4)
            && b[25..29] == PutBe(s.outputBufferSize, 4) && b[29..33] == PutBe(s.outputBufferFullness, 4)
            && b[33..37] == PutBe(s.elapsedSeconds, 4) && b[37..39] == PutBe(s.voltage, 2)
            && b[39..43] == PutBe(s.elapsedMilliseconds, 4)
            && b[43..47] == PutBe(if s.timestamp < 0x1_0000_0000 then s.timestamp else 0, 4)
            && b[47..49] == PutBe(s.errorCode, 2)
  {
    var p := CM.StatusParts(s);
    assert PutBe(0, 2) == [0, 0] by {
      MostSignificantFirst(0, 0, 0, 0);
      PutGet([0, 0]);
    }
    StatOffsets(p);
    forall k | 0 <= k < 14
      ensures Offset(p, k) + |p[k]| <= |Concat(p)|
      ensures Concat(p)[Offset(p, k)..Offset(p, k) + |p[k]|] == p[k]
    {
      FieldAt(p, k);
    }
    ConcatLength(p);
  }

  lemma {:induction false} ConcatLength(parts: seq<seq<Byte>>)
    ensures |Concat(parts)| == Offset(parts, |parts|)
  {
    if parts != [] {
      ConcatLength(parts[1..]);
      OffsetSkips(parts, |parts|);
    }
  }

  lemma StatOffsets(p: seq<seq<Byte>>)
    requires |p| == 14
    requires |p[0]| == 1 && |p[1]| == 2 && |p[2]| == 4 && |p[3]| == 4 && |p[4]| == 8 && |p[5]| == 2 && |p[6]| == 4
    requires |p[7]| == 4 && |p[8]| == 4 && |p[9]| == 4 && |p[10]| == 2 && |p[11]| == 4 && |p[12]| == 4 && |p[13]| == 2
    ensures Offset(p, 0) == 0 && Offset(p, 1) == 1 && Offset(p, 2) == 3 && Offset(p, 3) == 7 && Offset(p, 4) == 11
    ensures Offset(p, 5) == 19 && Offset(p, 6) == 21 && Offset(p, 7) == 25 && Offset(p, 8) == 29 && Offset(p, 9) == 33
    ensures Offset(p, 10) == 37 && Offset(p, 11) == 39 && Offset(p, 12) == 43 && Offset(p, 13) == 47
    ensures Offset(p, 14) == 49
  {
  }

  /** A greeting, field by field; of a language character only the low byte goes out. */
  lemma HeloOnWire(m: CM.ClientMessage)
    requires m.Helo? && |m.mac| == 6 && |m.uuid| == 16
    ensures var f := CM.Encode(m);
            && |f| == 44 + |m.capabilities| && f[..4] == Ascii("HELO")
            && f[8..9] == PutBe(m.deviceId, 1) && f[9..10] == PutBe(m.revision, 1)
            && f[10..16] == m.mac && f[16..32] == m.uuid
            && f[32..34] == PutBe(m.wlanChannels, 2) && f[34..42] == PutBe(m.bytesReceived, 8)
            && f[42..44] == [m.language.0 % 256, m.language.1 % 256] && f[44..] == m.capabilities
  {
    TagsSpelled();
    LengthOnWire(m);
    HeloBody(m);
    var f, b := CM.Encode(m), CM.Body(m);
    assert f[8..] == b;
    assert f[8..9] == b[0..1] && f[9..10] == b[1..2] && f[10..16] == b[2..8] && f[16..32] == b[8..24];
    assert f[32..34] == b[24..26] && f[34..42] == b[26..34] && f[42..44] == b[34..36] && f[44..] == b[36..];
  }

  lemma HeloBody(m: CM.ClientMessage)
    requires m.Helo? && |m.mac| == 6 && |m.uuid| == 16
    ensures var b := CM.Body(m);
            && |b| == 36 + |m.capabilities|
            && b[0..1] == PutBe(m.deviceId, 1) && b[1..2] == PutBe(m.revision, 1)
            && b[2..8] == m.mac && b[8..24] == m.uuid
            && b[24..26] == PutBe(m.wlanChannels, 2) && b[26..34] == PutBe(m.bytesReceived, 8)
            && b[34..36] == [m.language.0 % 256, m.language.1 % 256] && b[36..] == m.capabilities
  {
    var p := CM.HeloParts(m);
    HeloOffsets(p);
    ConcatLength(p);
    forall k | 0 <= k < 8
      ensures Offset(p, k) + |p[k]| <= |Concat(p)|
      ensures Concat(p)[Offset(p, k)..Offset(p, k) + |p[k]|] == p[k]
    {
      FieldAt(p, k);
    }
    HeloSlices(m, Concat(p));
  }

  lemma HeloSlices(m: CM.ClientMessage, c: seq<Byte>)
    requires m.Helo? && |m.mac| == 6 && |m.uuid| == 16 && c == Concat(CM.HeloParts(m)) && |c| == 36
    requires c[34..35] == PutBe(m.language.0, 1) && c[35..36] == PutBe(m.language.1, 1)
    ensures CM.Body(m)[34..36] == [m.language.0 % 256, m.language.1 % 256]
    ensures |CM.Body(m)| == 36 + |m.capabilities| && CM.Body(m)[36..] == m.capabilities
    ensures forall i, j :: 0 <= i <= j <= 36 ==> CM.Body(m)[i..j] == c[i..j]
  {
    LowByte(m.language.0);
    LowByte(m.language.1);
    assert c[34] == c[34..35][0] && c[35] == c[35..36][0];
  }

  lemma LowByte(n: nat)
    ensures PutBe(n, 1) == [n % 256]
  {
    assert PutBe(n / 256, 0) == [];
  }

  lemma HeloOffsets(p: seq<seq<Byte>>)
    requires |p| == 8 && |p[0]| == 1 && |p[1]| == 1 && |p[2]| == 6 && |p[3]| == 16
    requires |p[4]| == 2 && |p[5]| == 8 && |p[6]| == 1 && |p[7]| == 1
    ensures Offset(p, 0) == 0 && Offset(p, 1) == 1 && Offset(p, 2) == 2 && Offset(p, 3) == 8 && Offset(p, 4) == 24
    ensures Offset(p, 5) == 26 && Offset(p, 6) == 34 && Offset(p, 7) == 35 && Offset(p, 8) == 36
  {
  }

  // ---------------------------------------------------------------------------------------------
  // Frames and discovery replies
  // ---------------------------------------------------------------------------------------------

  /** A frame is its length in two bytes, most significant first, and its payload. */
  lemma FrameOnWire(payload: seq<Byte>)
    requires |payload| < 0x1_0000
    ensures F.Frame(payload) == [|payload| / 256, |payload| % 256] + payload
  {
    var n := |payload|;
    MostSignificantFirst(n / 256, n % 256, 0, 0);
    PutGet([n / 256, n % 256]);
  }

  /** What the decoder of discovery replies cannot read: too little, a high first byte, a value cut short, a
      tag it does not know, an address or a port that does not parse. */
  predicate Unreadable(view: seq<Byte>, ps: D.Parsers) {
    || |view| <= 4 || view[0] >= 128 || |view| - 5 < view[4]
    || (var value := view[5..5 + view[4]];
        var text := if Utf8.Valid(value) then value else [];
        || view[..4] !in {Ascii("NAME"), Ascii("VERS"), Ascii("IPAD"), Ascii("JSON")}
        || (view[..4] == Ascii("IPAD") && ps.ip(text).None?)
        || (view[..4] == Ascii("JSON") && ps.port(text).None?))
  }

  lemma UnreadableIff(view: seq<Byte>, ps: D.Parsers)
    ensures D.FirstEntry(view, ps).None? <==> Unreadable(view, ps)
  {
    TagsSpelled();
    if |view| > 4 {
      TokenIsTag(view[..4]);
    }
  }

  /** An ASCII token is found exactly when its bytes are there. */
  lemma TokenIs(tag: seq<Byte>, t: seq<Byte>)
    requires Utf8.Ascii(t) && t != []
    ensures Utf8.OrDefault(tag) == t <==> tag == t
  {
    Utf8.AsciiIsValid(t);
  }

  lemma TokenIsTag(tag: seq<Byte>)
    ensures (Utf8.OrDefault(tag) == D.NAME <==> tag == D.NAME) && (Utf8.OrDefault(tag) == D.VERS <==> tag == D.VERS)
    ensures (Utf8.OrDefault(tag) == D.IPAD <==> tag == D.IPAD) && (Utf8.OrDefault(tag) == D.JSON <==> tag == D.JSON)
  {
    TokenIs(tag, D.NAME);
    TokenIs(tag, D.VERS);
    TokenIs(tag, D.IPAD);
    TokenIs(tag, D.JSON);
  }

  /** The first entry that cannot be read ends the reply: the entries before it count, and nothing after. */
  lemma {:induction false} ReplyStopsAt(
    ts: seq<D.Tlv>, bad: seq<Byte>, ps: D.Parsers, pr: D.Printers, sofar: map<D.Text, D.Tlv>)
    requires D.AllWellFormed(ts, ps, pr) && Unreadable(bad, ps)
    ensures D.Decoded(D.Reply(ts, pr) + bad, ps, sofar) == D.LastWins(ts, sofar)
  {
    if ts == [] {
      assert D.Reply(ts, pr) + bad == bad;
      UnreadableIff(bad, ps);
    } else {
      D.EntryReadsBack(ts[0], D.Reply(ts[1..], pr) + bad, ps, pr);
      Assoc(D.Entry(ts[0], pr), D.Reply(ts[1..], pr), bad);
      ReplyStopsAt(ts[1..], bad, ps, pr, sofar[D.Token(ts[0]) := ts[0]]);
    }
  }

  /** What a value means under each tag; text that is not UTF-8 reads as empty. */
  lemma MeaningOnWire(tag: seq<Byte>, value: seq<Byte>, ps: D.Parsers)
    ensures var text := if Utf8.Valid(value) then value else [];
            D.Meaning(Utf8.OrDefault(tag), Utf8.OrDefault(value), ps)
            == if tag == Ascii("NAME") then Some(D.Name(text))
               else if tag == Ascii("VERS") then Some(D.Version(text))
               else if tag == Ascii("IPAD") then
                 if ps.ip(text).None? then None else Some(D.Address(ps.ip(text).value))
               else if tag == Ascii("JSON") then
                 if ps.port(text).None? then None else Some(D.Port(ps.port(text).value))
               else None
  {
    TagsSpelled();
    TokenIsTag(tag);
  }

  /** An entry that can be read, whatever its value. */
  lemma EntryOnWire(tag: seq<Byte>, value: seq<Byte>, tail: seq<Byte>, ps: D.Parsers)
    requires |tag| == 4 && |value| < 256 && tag[0] < 128
    ensures var r := D.FirstEntry(tag + [|value|] + value + tail, ps);
            var m := D.Meaning(Utf8.OrDefault(tag), Utf8.OrDefault(value), ps);
            r == if m.None? then None else Some((Utf8.OrDefault(tag), m.value, tail))
  {
    D.EntrySlices(tag, value, tail);
  }
}
