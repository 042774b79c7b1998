/** UTF-8 as Rust's String sees it. A String is modelled by its bytes, which are valid UTF-8. */
module Utf8 {
  import opened Bytes

  predicate Cont(b: Byte) {
    0x80 <= b < 0xC0
  }

  /** The second byte a lead byte of a longer sequence allows. */
  predicate SecondOk(lead: Byte, b: Byte) {
    if lead == 0xE0 then 0xA0 <= b < 0xC0
    else if lead == 0xED then 0x80 <= b < 0xA0
    else if lead == 0xF0 then 0x90 <= b < 0xC0
    else if lead == 0xF4 then 0x80 <= b < 0x90
    else Cont(b)
  }

  /** The length of the sequence a lead byte announces; 0 for a byte that cannot lead. */
  function Announced(lead: Byte): nat {
    if lead < 0x80 then 1
    else if 0xC2 <= lead < 0xE0 then 2
    else if 0xE0 <= lead < 0xF0 then 3
    else if 0xF0 <= lead < 0xF5 then 4
    else 0
  }

  /** The first sequence of s and whether it is complete; when it is not, the bytes that belong to it
      are those that a lossy conversion replaces together. */
  function First(s: seq<Byte>): (r: (nat, bool))
    requires s != []
    ensures 1 <= r.0 <= |s| && r.0 <= 4
    ensures r.1 ==> r.0 == Announced(s[0])
  {
    var n := Announced(s[0]);
    if n == 1 then (1, true)
    else if n == 0 || |s| < 2 || !SecondOk(s[0], s[1]) then (1, false)
    else if n == 2 then (2, true)
    else if |s| < 3 || !Cont(s[2]) then (2, false)
    else if n == 3 then (3, true)
    else if |s| < 4 || !Cont(s[3]) then (3, false)
    else (4, true)
  }

  predicate Valid(s: seq<Byte>)
    decreases |s|
  {
    s == [] || (First(s).1 && Valid(s[First(s).0..]))
  }

  const REPLACEMENT: seq<Byte> := [0xEF, 0xBF, 0xBD]

  /** String::from_utf8_lossy. */
  function Lossy(s: seq<Byte>): seq<Byte>
    decreases |s|
  {
    if s == [] then []
    else
      var (n, ok) := First(s);
      (if ok then s[..n] else REPLACEMENT) + Lossy(s[n..])
  }

  /** String::from_utf8(..).unwrap_or_default(). */
  function OrDefault(s: seq<Byte>): (r: seq<Byte>)
    ensures Valid(r) && (Valid(s) ==> r == s) && (!Valid(s) ==> r == [])
  {
    if Valid(s) then s else []
  }

  lemma {:induction false} LossyKeepsValid(s: seq<Byte>)
    requires Valid(s)
    ensures Lossy(s) == s
    decreases |s|
  {
    if s != [] {
      var n := First(s).0;
      LossyKeepsValid(s[n..]);
      assert s == s[..n] + s[n..];
    }
  }

  /** A complete first sequence does not depend on what follows it. */
  lemma FirstIsLocal(s: seq<Byte>, t: seq<Byte>)
    requires s != [] && First(s).1
    ensures First(s[..First(s).0] + t) == First(s)
  {
  }

  lemma {:induction false} LossyIsValid(s: seq<Byte>)
    ensures Valid(Lossy(s))
    decreases |s|
  {
    if s != [] {
      var (n, ok) := First(s);
      var tail := Lossy(s[n..]);
      LossyIsValid(s[n..]);
      if ok {
        FirstIsLocal(s, tail);
        assert (s[..n] + tail)[n..] == tail;
      } else {
        assert (REPLACEMENT + tail)[3..] == tail;
        assert First(REPLACEMENT + tail) == (3, true);
      }
    }
  }

  predicate Ascii(s: seq<Byte>) {
    forall i :: 0 <= i < |s| ==> s[i] < 0x80
  }

  lemma {:induction false} AsciiIsValid(s: seq<Byte>)
    requires Ascii(s)
    ensures Valid(s)
    decreases |s|
  {
    if s != [] {
      AsciiIsValid(s[1..]);
    }
  }

  /** A lossy conversion yields an ASCII text only from that text. */
  lemma {:induction false} LossyAscii(s: seq<Byte>)
    requires Ascii(Lossy(s))
    ensures Lossy(s) == s
    decreases |s|
  {
    if s != [] {
      var (n, ok) := First(s);
      var head := if ok then s[..n] else REPLACEMENT;
      assert Lossy(s) == head + Lossy(s[n..]);
      assert forall i :: 0 <= i < |head| ==> Lossy(s)[i] == head[i];
      assert forall i :: 0 <= i < |Lossy(s[n..])| ==> Lossy(s)[|head| + i] == Lossy(s[n..])[i];
      assert head[0] < 0x80;
      LossyAscii(s[n..]);
      assert s == s[..n] + s[n..];
    }
  }

  // ---------------------------------------------------------------------------------------------
  // Validity against the encoding of scalar values
  // ---------------------------------------------------------------------------------------------

  /** A Unicode scalar value: a code point that is not a surrogate. */
  type Scalar = c: nat | c < 0x11_0000 && !(0xD800 <= c < 0xE000)

  /** Section 3 of RFC 3629. */
  function EncodeScalar(c: Scalar): seq<Byte> {
    if c < 0x80 then [c]
    else if c < 0x800 then [0xC0 + c / 0x40, 0x80 + c % 0x40]
    else if c < 0x1_0000 then [0xE0 + c / 0x1000, 0x80 + c / 0x40 % 0x40, 0x80 + c % 0x40]
    else [0xF0 + c / 0x4_0000, 0x80 + c / 0x1000 % 0x40, 0x80 + c / 0x40 % 0x40, 0x80 + c % 0x40]
  }

  function EncodeText(cs: seq<Scalar>): seq<Byte> {
    if cs == [] then [] else EncodeScalar(cs[0]) + EncodeText(cs[1..])
  }

  lemma FirstOfEncoded(c: Scalar, t: seq<Byte>)
    ensures First(EncodeScalar(c) + t) == (|EncodeScalar(c)|, true)
  {
    var e := EncodeScalar(c);
    assert forall i :: 0 <= i < |e| ==> (e + t)[i] == e[i];
    if c >= 0x1_0000 {
      assert First(e + t) == (4, true);
    } else if c >= 0x800 {
      assert First(e + t) == (3, true);
    }
  }

  /** The scalar value a complete sequence encodes. */
  function ScalarOf(s: seq<Byte>): (c: Scalar)
    requires s != [] && First(s) == (|s|, true)
  {
    var b: seq<int> := s;
    if |s| == 1 then b[0]
    else if |s| == 2 then (b[0] - 0xC0) * 0x40 + (b[1] - 0x80)
    else if |s| == 3 then (b[0] - 0xE0) * 0x1000 + (b[1] - 0x80) * 0x40 + (b[2] - 0x80)
    else (b[0] - 0xF0) * 0x4_0000 + (b[1] - 0x80) * 0x1000 + (b[2] - 0x80) * 0x40 + (b[3] - 0x80)
  }

  /** The six-bit digits of a number. */
  lemma Digits(a: nat, b: nat, c: nat, d: nat)
    requires b < 0x40 && c < 0x40 && d < 0x40
    ensures var x := a * 0x4_0000 + b * 0x1000 + c * 0x40 + d;
            x / 0x4_0000 == a && x / 0x1000 % 0x40 == b && x / 0x40 % 0x40 == c && x % 0x40 == d
    ensures var x := b * 0x1000 + c * 0x40 + d;
            x / 0x1000 == b && x / 0x40 % 0x40 == c && x % 0x40 == d
  {
    var x := a * 0x4_0000 + b * 0x1000 + c * 0x40 + d;
    assert x / 0x40 == a * 0x1000 + b * 0x40 + c;
    assert x / 0x1000 == a * 0x40 + b;
  }

  lemma ScalarEncodesBack(s: seq<Byte>)
    requires s != [] && First(s) == (|s|, true)
    ensures EncodeScalar(ScalarOf(s)) == s
  {
    if |s| == 3 {
      ThreeBytes(s);
    } else if |s| == 4 {
      FourBytes(s);
    }
  }

  lemma ThreeBytes(s: seq<Byte>)
    requires |s| == 3 && First(s) == (3, true)
    ensures EncodeScalar(ScalarOf(s)) == s
  {
    var a: int, b: int, c: int := s[0] - 0xE0, s[1] - 0x80, s[2] - 0x80;
    Digits(0, a, b, c);
    assert 0x800 <= ScalarOf(s) == a * 0x1000 + b * 0x40 + c < 0x1_0000;
    assert s == [0xE0 + a, 0x80 + b, 0x80 + c];
  }

  lemma FourBytes(s: seq<Byte>)
    requires |s| == 4 && First(s) == (4, true)
    ensures EncodeScalar(ScalarOf(s)) == s
  {
    var a: int, b: int, c: int, d: int := s[0] - 0xF0, s[1] - 0x80, s[2] - 0x80, s[3] - 0x80;
    Digits(a, b, c, d);
    assert 0x1_0000 <= ScalarOf(s) == a * 0x4_0000 + b * 0x1000 + c * 0x40 + d;
    assert s == [0xF0 + a, 0x80 + b, 0x80 + c, 0x80 + d];
  }

  lemma FirstAlone(s: seq<Byte>)
    requires s != [] && First(s).1
    ensures First(s[..First(s).0]) == First(s)
  {
    FirstIsLocal(s, []);
    assert s[..First(s).0] + [] == s[..First(s).0];
  }

  lemma EncodeCons(c: Scalar, cs: seq<Scalar>)
    ensures EncodeText([c] + cs) == EncodeScalar(c) + EncodeText(cs)
  {
    assert ([c] + cs)[1..] == cs;
  }

  lemma HeadScalar(s: seq<Byte>) returns (c: Scalar)
    requires s != [] && First(s).1
    ensures EncodeScalar(c) == s[..First(s).0]
  {
    FirstAlone(s);
    c := ScalarOf(s[..First(s).0]);
    ScalarEncodesBack(s[..First(s).0]);
  }

  lemma {:induction false} ScalarsOf(s: seq<Byte>) returns (cs: seq<Scalar>)
    requires Valid(s)
    ensures EncodeText(cs) == s
    decreases |s|
  {
    cs := [];
    if s != [] {
      var c := HeadScalar(s);
      var tail := ScalarsOf(s[First(s).0..]);
      cs := [c] + tail;
      EncodeCons(c, tail);
    }
  }

  lemma {:induction false} EncodedIsValid(cs: seq<Scalar>)
    ensures Valid(EncodeText(cs))
  {
    if cs != [] {
      var head, tail := EncodeScalar(cs[0]), EncodeText(cs[1..]);
      FirstOfEncoded(cs[0], tail);
      EncodedIsValid(cs[1..]);
      assert (head + tail)[|head|..] == tail;
    }
  }

  /** A byte string is valid exactly when it encodes some list of scalar values. */
  lemma ValidIff(s: seq<Byte>)
    ensures Valid(s) <==> exists cs :: EncodeText(cs) == s
  {
    if Valid(s) {
      var cs := ScalarsOf(s);
    }
    if cs :| EncodeText(cs) == s {
      EncodedIsValid(cs);
    }
  }

  /** Some scalar value's encoding starts with these bytes. */
  ghost predicate Begins(s: seq<Byte>) {
    exists c: Scalar :: s <= EncodeScalar(c)
  }

  /** Where a text breaks, what a lossy conversion replaces is the longest beginning of an encoding, or
      one byte when there is none; the text goes on after it. */
  lemma LossyReplaces(good: seq<Byte>, bad: seq<Byte>)
    requires Valid(good) && bad != [] && !First(bad).1
    ensures var n := First(bad).0;
            && Lossy(good + bad) == good + [0xEF, 0xBF, 0xBD] + Lossy(bad[n..])
            && (n == 1 || Begins(bad[..n])) && (n < |bad| ==> !Begins(bad[..n + 1]))
            && (forall c: Scalar :: !(EncodeScalar(c) <= bad))
  {
    LossyGoesOn(good, bad);
    Assoc(good, REPLACEMENT, Lossy(bad[First(bad).0..]));
    if First(bad).0 > 1 {
      BrokenBegins(bad);
    }
    BrokenEnds(bad);
  }

  lemma LossyHead(h: seq<Byte>, t: seq<Byte>)
    requires h != [] && First(h) == (|h|, true)
    ensures Lossy(h + t) == h + Lossy(t)
  {
    FirstIsLocal(h, t);
    assert h[..|h|] == h;
    assert (h + t)[..|h|] == h && (h + t)[|h|..] == t;
  }

  lemma {:induction false} LossyGoesOn(good: seq<Byte>, bad: seq<Byte>)
    requires Valid(good)
    ensures Lossy(good + bad) == good + Lossy(bad)
    decreases |good|
  {
    if good == [] {
      assert good + bad == bad;
    } else {
      var n := First(good).0;
      FirstAlone(good);
      LossyHead(good[..n], good[n..] + bad);
      LossyGoesOn(good[n..], bad);
      SplitSum(good, n, bad);
      SplitSum(good, n, Lossy(bad));
    }
  }

  lemma SplitSum(s: seq<Byte>, n: nat, t: seq<Byte>)
    requires n <= |s|
    ensures s + t == s[..n] + (s[n..] + t)
  {
  }

  lemma BrokenBegins(bad: seq<Byte>)
    requires bad != [] && !First(bad).1 && First(bad).0 > 1
    ensures Begins(bad[..First(bad).0])
  {
    var n := First(bad).0;
    var whole := bad[..n] + (if Announced(bad[0]) - n == 1 then [0x80] else [0x80, 0x80]);
    assert First(whole) == (|whole|, true);
    ScalarEncodesBack(whole);
  }

  lemma BrokenEnds(bad: seq<Byte>)
    requires bad != [] && !First(bad).1
    ensures First(bad).0 < |bad| ==> !Begins(bad[..First(bad).0 + 1])
    ensures forall c: Scalar :: !(EncodeScalar(c) <= bad)
  {
    forall c: Scalar
      ensures !(EncodeScalar(c) <= bad)
      ensures First(bad).0 < |bad| ==> !(bad[..First(bad).0 + 1] <= EncodeScalar(c))
    {
      NotPrefix(bad, c);
    }
  }

  lemma NotPrefix(bad: seq<Byte>, c: Scalar)
    requires bad != [] && !First(bad).1
    ensures !(EncodeScalar(c) <= bad)
    ensures First(bad).0 < |bad| ==> !(bad[..First(bad).0 + 1] <= EncodeScalar(c))
  {
    var e := EncodeScalar(c);
    FirstOfEncoded(c, []);
    assert e + [] == e;
  }

  // ---------------------------------------------------------------------------------------------
  // One character per byte
  // ---------------------------------------------------------------------------------------------

  /** The UTF-8 form of a character below 256. */
  function CharBytes(c: Byte): (r: seq<Byte>)
    ensures 1 <= |r| <= 2
  {
    if c < 0x80 then [c] else [0xC0 + c / 64, 0x80 + c % 64]
  }

  /** Each byte taken as a character, as the parser does for a sync group. */
  function FromLatin1(b: seq<Byte>): seq<Byte> {
    if b == [] then [] else CharBytes(b[0]) + FromLatin1(b[1..])
  }

  /** The bytes a string of characters below 256 came from, if it is one. */
  function ToLatin1(s: seq<Byte>): Option<seq<Byte>>
    decreases |s|
  {
    if s == [] then Some([])
    else if s[0] < 0x80 then
      var r := ToLatin1(s[1..]);
      if r.Some? then Some([s[0]] + r.value) else None
    else if |s| >= 2 && 0xC2 <= s[0] <= 0xC3 && Cont(s[1]) then
      var r := ToLatin1(s[2..]);
      if r.Some? then Some([(s[0] - 0xC0) * 64 + (s[1] - 0x80)] + r.value) else None
    else None
  }

  lemma {:induction false} Latin1RoundTrip(b: seq<Byte>)
    ensures ToLatin1(FromLatin1(b)) == Some(b)
    ensures b != [] ==> FromLatin1(b) != []
  {
    if b != [] {
      Latin1RoundTrip(b[1..]);
      var s, c := FromLatin1(b), CharBytes(b[0]);
      assert s == c + FromLatin1(b[1..]);
      assert s[|c|..] == FromLatin1(b[1..]);
      assert [b[0]] + b[1..] == b;
    }
  }

  /** The string of a byte is that byte as a scalar value. */
  lemma LatinIsScalar(c: Byte)
    ensures CharBytes(c) == EncodeScalar(c)
  {
  }

  lemma {:induction false} Latin1Inverse(s: seq<Byte>)
    requires ToLatin1(s).Some?
    ensures FromLatin1(ToLatin1(s).value) == s
    ensures s != [] ==> ToLatin1(s).value != []
    decreases |s|
  {
    if s != [] {
      var k := if s[0] < 0x80 then 1 else 2;
      var r := ToLatin1(s).value;
      Latin1Inverse(s[k..]);
      assert r[1..] == ToLatin1(s[k..]).value;
      assert CharBytes(r[0]) == s[..k];
      assert s == s[..k] + s[k..];
    }
  }
}
