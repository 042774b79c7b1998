/** The decoder of discovery replies (lms-proto/src/discovery.rs:92-134): a list of four-letter tags,
    one-byte lengths and values, read from a buffer padded with zeros. Parsing an address or a port
    is the standard library's business, so it is a parameter. */
module Discovery {
  import opened Bytes
  import Utf8

  type Text = seq<Byte>

  datatype Tlv = Name(text: Text) | Version(text: Text) | Address(ip: nat) | Port(port: nat)

  const NAME: Text := [78, 65, 77, 69]
  const VERS: Text := [86, 69, 82, 83]
  const IPAD: Text := [73, 80, 65, 68]
  const JSON: Text := [74, 83, 79, 78]

  /** The text forms of addresses and ports. */
  datatype Parsers = Parsers(ip: Text -> Option<nat>, port: Text -> Option<nat>)

  /** What one entry's value means; nothing stops the decoder. */
  function Meaning(token: Text, value: Text, ps: Parsers): Option<Tlv> {
    if token == NAME then Some(Name(value))
    else if token == VERS then Some(Version(value))
    else if token == IPAD then
      var r := ps.ip(value);
      if r.Some? then Some(Address(r.value)) else None
    else if token == JSON then
      var r := ps.port(value);
      if r.Some? then Some(Port(r.value)) else None
    else None
  }

  /** The entry at the front of a view, and the view after it. */
  function FirstEntry(view: seq<Byte>, ps: Parsers): (r: Option<(Text, Tlv, seq<Byte>)>)
    ensures r.Some? ==> |r.value.2| < |view|
  {
    if |view| <= 4 || view[0] >= 128 then None
    else
      var token, n := Utf8.OrDefault(view[..4]), view[4];
      if |view| - 5 < n then None
      else
        var m := Meaning(token, Utf8.OrDefault(view[5..5 + n]), ps);
        if m.None? then None else Some((token, m.value, view[5 + n..]))
  }

  /** Later entries win. */
  function Decoded(view: seq<Byte>, ps: Parsers, sofar: map<Text, Tlv>): map<Text, Tlv>
    decreases |view|
  {
    var e := FirstEntry(view, ps);
    if e.None? then sofar else Decoded(e.value.2, ps, sofar[e.value.0 := e.value.1])
  }

  /** Total on every input: the view shrinks on every round and no index passes its end. */
  method DecodeTlv(buf: seq<Byte>, ps: Parsers) returns (ret: map<Text, Tlv>)
    ensures ret == Decoded(buf, ps, map[])
  {
    ret := map[];
    var view := buf;
    while |view| > 4 && view[0] < 128
      invariant Decoded(view, ps, ret) == Decoded(buf, ps, map[])
      decreases |view|
    {
      var token := Utf8.OrDefault(view[..4]);
      var valen := view[4];
      ghost var before := view;
      view := view[5..];
      if |view| < valen {
        break;
      }
      assert before[5..5 + valen] == view[..valen] && before[5 + valen..] == view[valen..];
      var value := Utf8.OrDefault(view[..valen]);
      var tlv;
      if token == NAME {
        tlv := Name(value);
      } else if token == VERS {
        tlv := Version(value);
      } else if token == IPAD {
        var addr := ps.ip(value);
        if addr.None? {
          break;
        }
        tlv := Address(addr.value);
      } else if token == JSON {
        var port := ps.port(value);
        if port.None? {
          break;
        }
        tlv := Port(port.value);
      } else {
        break;
      }
      ret := ret[token := tlv];
      view := view[valen..];
    }
  }

  // ---------------------------------------------------------------------------------------------
  // A reply as a server writes it
  // ---------------------------------------------------------------------------------------------

  function Token(t: Tlv): Text {
    match t
    case Name(_) => NAME
    case Version(_) => VERS
    case Address(_) => IPAD
    case Port(_) => JSON
  }

  /** Printing, the other way round. */
  datatype Printers = Printers(ip: nat -> Text, port: nat -> Text)

  function Value(t: Tlv, pr: Printers): Text {
    match t
    case Name(text) => text
    case Version(text) => text
    case Address(ip) => pr.ip(ip)
    case Port(port) => pr.port(port)
  }

  predicate WellFormed(t: Tlv, ps: Parsers, pr: Printers) {
    && |Value(t, pr)| < 256
    && Utf8.Valid(Value(t, pr))
    && (t.Address? ==> ps.ip(pr.ip(t.ip)) == Some(t.ip))
    && (t.Port? ==> ps.port(pr.port(t.port)) == Some(t.port))
  }

  function Entry(t: Tlv, pr: Printers): seq<Byte>
    requires |Value(t, pr)| < 256
  {
    Token(t) + [|Value(t, pr)|] + Value(t, pr)
  }

  predicate AllWellFormed(ts: seq<Tlv>, ps: Parsers, pr: Printers) {
    forall i :: 0 <= i < |ts| ==> WellFormed(ts[i], ps, pr) && |Value(ts[i], pr)| < 256
  }

  function Reply(ts: seq<Tlv>, pr: Printers): seq<Byte>
    requires forall i :: 0 <= i < |ts| ==> |Value(ts[i], pr)| < 256
  {
    if ts == [] then [] else Entry(ts[0], pr) + Reply(ts[1..], pr)
  }

  /** The last entry of each kind. */
  function LastWins(ts: seq<Tlv>, sofar: map<Text, Tlv>): map<Text, Tlv> {
    if ts == [] then sofar else LastWins(ts[1..], sofar[Token(ts[0]) := ts[0]])
  }

  lemma TokenIsValid(t: Tlv)
    ensures Utf8.Valid(Token(t)) && |Token(t)| == 4 && Token(t)[0] < 128
  {
    Utf8.AsciiIsValid(Token(t));
  }

  lemma EntryReadsBack(t: Tlv, tail: seq<Byte>, ps: Parsers, pr: Printers)
    requires WellFormed(t, ps, pr)
    ensures FirstEntry(Entry(t, pr) + tail, ps) == Some((Token(t), t, tail))
  {
    var v := Value(t, pr);
    TokenIsValid(t);
    EntrySlices(Token(t), v, tail);
    assert Meaning(Token(t), v, ps) == Some(t);
  }

  lemma EntrySlices(token: Text, v: Text, tail: seq<Byte>)
    requires |token| == 4 && |v| < 256
    ensures var view := token + [|v|] + v + tail;
            && |view| == 5 + |v| + |tail| && view[0] == token[0]
            && view[..4] == token && view[4] == |v| && view[5..5 + |v|] == v && view[5 + |v|..] == tail
  {
  }

  predicate Zeros(s: seq<Byte>) {
    forall i :: 0 <= i < |s| ==> s[i] == 0
  }

  lemma PaddingStops(pad: seq<Byte>, ps: Parsers)
    requires Zeros(pad)
    ensures FirstEntry(pad, ps).None?
  {
    if |pad| > 4 {
      assert pad[..4] == [0, 0, 0, 0];
      Utf8.AsciiIsValid(pad[..4]);
    }
  }

  /** Any list of well-formed entries, followed by any number of zero bytes, decodes to the last entry
      of each kind. */
  lemma {:induction false} ReplyRoundTrip(
    ts: seq<Tlv>, pad: seq<Byte>, ps: Parsers, pr: Printers, sofar: map<Text, Tlv>)
    requires AllWellFormed(ts, ps, pr) && Zeros(pad)
    ensures Decoded(Reply(ts, pr) + pad, ps, sofar) == LastWins(ts, sofar)
  {
    if ts == [] {
      assert Reply(ts, pr) + pad == pad;
      PaddingStops(pad, ps);
    } else {
      var tail := Reply(ts[1..], pr) + pad;
      EntryReadsBack(ts[0], tail, ps, pr);
      Assoc(Entry(ts[0], pr), Reply(ts[1..], pr), pad);
      ReplyRoundTrip(ts[1..], pad, ps, pr, sofar[Token(ts[0]) := ts[0]]);
    }
  }

  /** The last entry with a given token. */
  function LastOf(ts: seq<Tlv>, token: Text): Option<Tlv> {
    if ts == [] then None
    else
      var later := LastOf(ts[1..], token);
      if later.Some? then later else if Token(ts[0]) == token then Some(ts[0]) else None
  }

  lemma {:induction false} LastWinsIsLast(ts: seq<Tlv>, sofar: map<Text, Tlv>, token: Text)
    ensures var m, last := LastWins(ts, sofar), LastOf(ts, token);
            if last.Some? then token in m && m[token] == last.value
            else (token in m <==> token in sofar) && (token in m ==> m[token] == sofar[token])
    decreases |ts|
  {
    if ts != [] {
      LastWinsIsLast(ts[1..], sofar[Token(ts[0]) := ts[0]], token);
    }
  }

  /** A padded reply, looked up: each token gives the last entry written under it, and no other. */
  lemma ReplyLookup(ts: seq<Tlv>, pad: seq<Byte>, ps: Parsers, pr: Printers, token: Text)
    requires AllWellFormed(ts, ps, pr) && Zeros(pad)
    ensures var m, last := Decoded(Reply(ts, pr) + pad, ps, map[]), LastOf(ts, token);
            if last.Some? then token in m && m[token] == last.value else token !in m
  {
    ReplyRoundTrip(ts, pad, ps, pr, map[]);
    LastWinsIsLast(ts, map[], token);
  }
}
