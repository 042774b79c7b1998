/** Skipping the HTTP response headers of a data stream (vibe/src/decode.rs:329-344) through a buffered
    reader that may show the stream in pieces of any size. The calls the loop makes are folded into a
    state, which HeaderTheorems follows over the runs of SlimBuffer. */
module Headers {
  import opened Bytes
  import Utf8
  import Calls = SlimBufferSystem

  const LF: Byte := 10
  const BLANK: seq<Byte> := [13, 10]
  const MAX_LINE := 8 * 1024

  type Size = n: nat | n >= 1 witness 1

  /** The length of the first line, with its line feed; everything when there is none. */
  function LineLen(s: seq<Byte>): (n: nat)
    ensures n <= |s| && (s != [] ==> n >= 1)
  {
    if s == [] then 0 else if s[0] == LF then 1 else 1 + LineLen(s[1..])
  }

  predicate Ended(s: seq<Byte>) {
    s != [] && s[|s| - 1] == LF
  }

  /** A line, or the source's error, or text that is not UTF-8. */
  datatype LineResult = Line(text: seq<Byte>) | Fault(error: nat) | NotText

  /** What read_line makes of the bytes s that are left, when the source ends with `fault`. */
  function NextLine(s: seq<Byte>, fault: Option<nat>): LineResult {
    var text := s[..LineLen(s)];
    if !Ended(text) && fault.Some? then Fault(fault.value)
    else if !Utf8.Valid(text) then NotText
    else Line(text)
  }

  predicate NoLf(s: seq<Byte>) {
    forall i :: 0 <= i < |s| ==> s[i] != LF
  }

  /** One line feed, at the end. */
  predicate FullLine(l: seq<Byte>) {
    l != [] && l[|l| - 1] == LF && NoLf(l[..|l| - 1])
  }

  datatype Skipped = Body(rest: seq<Byte>) | Refused

  /** The line that ends the header loop. */
  predicate LastLine(text: seq<Byte>) {
    text == [] || text == BLANK || |text| > MAX_LINE
  }

  /** The bytes left after the header loop. */
  function AfterHeaders(s: seq<Byte>, fault: Option<nat>): Skipped
    decreases |s|
  {
    var r := NextLine(s, fault);
    if !r.Line? then Refused
    else if LastLine(r.text) then Body(s[|r.text|..])
    else AfterHeaders(s[|r.text|..], fault)
  }

  // ---------------------------------------------------------------------------------------------
  // The calls of the loop
  // ---------------------------------------------------------------------------------------------

  /** Where the loop is: about to call fill_buf with a line begun, about to consume from the slice it
      was shown, past the headers with the bytes taken since, or gone with an error. */
  datatype Place = At(line: seq<Byte>) | Shown(line: seq<Byte>, slice: seq<Byte>) | Past(taken: seq<Byte>) | Failed

  /** Where a complete line leaves the loop. */
  function LineDone(text: seq<Byte>): Place {
    if !Utf8.Valid(text) then Failed else if LastLine(text) then Past([]) else At([])
  }

  /** One call and its answer; nothing when it is not the call the loop makes. Past the headers the
      caller may do as it likes. */
  function Next(h: Place, e: Calls.Event): Option<Place> {
    match h
    case At(line) =>
      if e.FillRet? then Some(Shown(line, e.data)) else if e.ErrRet? then Some(Failed) else None
    case Shown(line, slice) =>
      if !e.ConsumeRet? || e.data != slice[..LineLen(slice)] then None
      else if Ended(e.data) || e.data == [] then Some(LineDone(line + e.data))
      else Some(At(line + e.data))
    case Past(taken) => Some(if e.ReadRet? || e.ConsumeRet? then Past(taken + e.data) else h)
    case Failed => Some(h)
  }

  /** Where a log leaves the loop, if it is a log of the loop. */
  function Follow(log: seq<Calls.Event>): Option<Place> {
    if log == [] then Some(At([]))
    else
      var h := Follow(log[..|log| - 1]);
      if h.None? then None else Next(h.value, log[|log| - 1])
  }

  lemma FollowSnoc(log: seq<Calls.Event>, e: Calls.Event)
    ensures Follow(log + [e]) == (if Follow(log).None? then None else Next(Follow(log).value, e))
  {
    assert (log + [e])[..|log|] == log;
  }

  // ---------------------------------------------------------------------------------------------
  // The reader and the loops
  // ---------------------------------------------------------------------------------------------

  /** A BufRead over a stream: at each offset it shows a slice of some size; at the end it reports its
      fault, if it has one, and then shows empty slices. `log` is the calls made. */
  class Reader {
    const stream: seq<Byte>
    const cut: nat -> Size
    var fault: Option<nat>
    var offset: nat
    ghost var log: seq<Calls.Event>

    ghost predicate Valid()
      reads this
    {
      offset <= |stream|
    }

    ghost function Left(): seq<Byte>
      requires Valid()
      reads this
    {
      stream[offset..]
    }

    constructor (stream: seq<Byte>, fault: Option<nat>, cut: nat -> Size)
      ensures Valid() && Left() == stream && this.fault == fault && log == []
    {
      this.stream, this.fault, this.cut, this.offset, this.log := stream, fault, cut, 0, [];
    }

    /** fill_buf: an empty slice only at the end. */
    method FillBuf() returns (r: LineResult)
      requires Valid()
      modifies this`fault, this`log
      ensures match r
              case Line(slice) =>
                && slice <= Left() && (slice == [] ==> Left() == [] && fault.None?)
                && fault == old(fault) && log == old(log) + [Calls.FillRet(slice)]
              case Fault(e) =>
                Left() == [] && old(fault) == Some(e) && fault == None && log == old(log) + [Calls.ErrRet(e)]
              case NotText => false
    {
      if offset == |stream| && fault.Some? {
        r := Fault(fault.value);
        log := log + [Calls.ErrRet(fault.value)];
        fault := None;
        return;
      }
      r := Line(stream[offset..Min(offset + cut(offset), |stream|)]);
      log := log + [Calls.FillRet(r.text)];
    }

    method Consume(n: nat)
      requires Valid() && n <= |Left()|
      modifies this`offset, this`log
      ensures Valid() && offset == old(offset) + n && Left() == old(Left())[n..]
      ensures log == old(log) + [Calls.ConsumeRet(old(Left())[..n])]
    {
      log := log + [Calls.ConsumeRet(Left()[..n])];
      offset := offset + n;
    }

    /** BufRead::read_line: collect slices up to the first line feed or the end. */
    method ReadLine() returns (r: LineResult)
      requires Valid() && Follow(log) == Some(At([]))
      modifies this
      ensures Valid() && r == NextLine(old(Left()), old(fault))
      ensures r.Line? ==> fault == old(fault) && Left() == old(Left())[|r.text|..]
      ensures Follow(log) == Some(if r.Line? then LineDone(r.text) else Failed)
    {
      r := ReadUntilLf();
      if r.Line? && !Utf8.Valid(r.text) {
        r := NotText;
      }
    }

    /** Takes a slice up to its first line feed, or all of it. */
    method TakeLine(slice: seq<Byte>, ghost line: seq<Byte>) returns (piece: seq<Byte>, done: bool)
      requires Valid() && slice <= Left() && (slice == [] ==> Left() == [] && fault.None?)
      requires Follow(log) == Some(Shown(line, slice))
      modifies this`offset, this`log
      ensures Valid() && piece <= old(Left())
      ensures offset == old(offset) + |piece| && Left() == old(Left())[|piece|..]
      ensures if !done then piece != [] && NoLf(piece)
              else if piece == [] then old(Left()) == [] && fault.None? else FullLine(piece)
      ensures Follow(log) == Some(if done then LineDone(line + piece) else At(line + piece))
    {
      ghost var calls := log;
      var k := FindLf(slice);
      piece := if k < |slice| then slice[..k + 1] else slice;
      done := k < |slice| || slice == [];
      UsedIsLine(slice, k);
      assert piece == slice[..LineLen(slice)];
      Consume(|piece|);
      FollowSnoc(calls, Calls.ConsumeRet(piece));
    }

    /** BufRead::read_until: the bytes up to and with the next line feed. */
    method ReadUntilLf() returns (r: LineResult)
      requires Valid() && Follow(log) == Some(At([]))
      modifies this
      ensures Valid()
      ensures var all := old(Left());
              var text := all[..LineLen(all)];
              if !Ended(text) && old(fault).Some? then r == Fault(old(fault).value) && Follow(log) == Some(Failed)
              else
                && r == Line(text) && fault == old(fault) && Left() == all[|text|..]
                && Follow(log) == Some(LineDone(text))
    {
      ghost var all := Left();
      var text, done := [], false;
      while !done
        invariant Valid() && text <= all && Left() == all[|text|..]
        invariant if done then LineEnds(text, all, fault) else NoLf(text)
        invariant fault == old(fault)
        invariant Follow(log) == Some(if done then LineDone(text) else At(text))
        decreases |stream| - offset, !done
      {
        ghost var calls := log;
        var slice := FillBuf();
        if slice.Fault? {
          FollowSnoc(calls, Calls.ErrRet(slice.error));
          assert all == text;
          LineWithoutLf(all);
          return slice;
        }
        FollowSnoc(calls, Calls.FillRet(slice.text));
        var piece;
        piece, done := TakeLine(slice.text, text);
        LineGrows(all, text, piece, done, fault);
        text := text + piece;
      }
      LineComplete(text, all, fault);
      r := Line(text);
    }

    /** The loop in make_decoder: it leaves what the one-shot definition says, and its calls are those
        that Follow accepts. */
    method SkipHeaders() returns (ok: bool)
      requires Valid() && log == []
      modifies this
      ensures Valid()
      ensures match AfterHeaders(old(Left()), old(fault))
              case Body(rest) => ok && Left() == rest
              case Refused => !ok
      ensures Follow(log) == Some(if ok then Past([]) else Failed)
    {
      while true
        invariant Valid() && AfterHeaders(Left(), fault) == AfterHeaders(old(Left()), old(fault))
        invariant Follow(log) == Some(At([]))
        decreases |Left()|
      {
        var line := ReadLine();
        if !line.Line? {
          return false;
        }
        if line.text == [] || line.text == BLANK || |line.text| > MAX_LINE {
          return true;
        }
      }
    }
  }

  /** What read_until takes of a slice is its first line. */
  lemma UsedIsLine(slice: seq<Byte>, k: nat)
    requires k <= |slice| && (k < |slice| ==> slice[k] == LF) && forall i :: 0 <= i < k ==> slice[i] != LF
    ensures LineLen(slice) == (if k < |slice| then k + 1 else |slice|)
    ensures Ended(slice[..LineLen(slice)]) <==> k < |slice|
  {
    LineLenSkip(slice, k);
  }

  /** The index of the first line feed, or the length. */
  method FindLf(s: seq<Byte>) returns (k: nat)
    ensures k <= |s| && (k < |s| ==> s[k] == LF)
    ensures forall i :: 0 <= i < k ==> s[i] != LF
  {
    k := 0;
    while k < |s| && s[k] != LF
      invariant k <= |s| && forall i :: 0 <= i < k ==> s[i] != LF
    {
      k := k + 1;
    }
  }

  lemma {:induction false} LineLenSkip(s: seq<Byte>, k: nat)
    requires k <= |s| && forall i :: 0 <= i < k ==> s[i] != LF
    ensures LineLen(s) == k + LineLen(s[k..])
    decreases k
  {
    if k == 0 {
      assert s[0..] == s;
    } else {
      LineLenSkip(s[1..], k - 1);
      assert s[1..][k - 1..] == s[k..];
    }
  }

  lemma LineWithoutLf(s: seq<Byte>)
    requires NoLf(s)
    ensures LineLen(s) == |s| && s[..LineLen(s)] == s && !Ended(s)
  {
    LineLenSkip(s, |s|);
  }

  lemma LineWithLf(s: seq<Byte>, k: nat)
    requires k < |s| && s[k] == LF && forall i :: 0 <= i < k ==> s[i] != LF
    ensures LineLen(s) == k + 1 && Ended(s[..k + 1])
  {
    LineLenSkip(s, k);
  }

  /** The line read so far is complete: by its line feed, or because nothing follows it. */
  predicate LineEnds(text: seq<Byte>, all: seq<Byte>, fault: Option<nat>) {
    FullLine(text) || (NoLf(text) && text == all && fault.None?)
  }

  lemma LineGrows(all: seq<Byte>, line: seq<Byte>, piece: seq<Byte>, done: bool, fault: Option<nat>)
    requires line <= all && NoLf(line) && piece <= all[|line|..]
    requires if !done then NoLf(piece)
             else if piece == [] then all[|line|..] == [] && fault.None? else FullLine(piece)
    ensures line + piece <= all && all[|line + piece|..] == all[|line|..][|piece|..]
    ensures if done then LineEnds(line + piece, all, fault) else NoLf(line + piece)
  {
    if done && piece == [] {
      assert line + piece == line == all;
    } else if done {
      assert (line + piece)[..|line + piece| - 1] == line + piece[..|piece| - 1];
    }
  }

  lemma LineComplete(text: seq<Byte>, all: seq<Byte>, fault: Option<nat>)
    requires text <= all && LineEnds(text, all, fault)
    ensures all[..LineLen(all)] == text && (!Ended(text) ==> fault.None?)
  {
    if FullLine(text) {
      assert forall i :: 0 <= i < |text| - 1 ==> all[i] == text[..|text| - 1][i];
      LineWithLf(all, |text| - 1);
    } else {
      LineWithoutLf(all);
    }
  }

  // ---------------------------------------------------------------------------------------------
  // A well-formed response
  // ---------------------------------------------------------------------------------------------

  lemma FirstLine(l: seq<Byte>, tail: seq<Byte>, fault: Option<nat>)
    requires FullLine(l) && Utf8.Valid(l)
    ensures NextLine(l + tail, fault) == Line(l) && (l + tail)[|l|..] == tail
  {
    LineComplete(l, l + tail, fault);
    assert Ended(l);
  }

  /** A header line in numbers: one byte 10, at the end; UTF-8; not 13 10; at most 8192 bytes. */
  predicate ShortLine(l: seq<Byte>) {
    && l != [] && l[|l| - 1] == 10 && (forall i :: 0 <= i < |l| - 1 ==> l[i] != 10)
    && Utf8.Valid(l) && l != [13, 10] && |l| <= 8192
  }

  /** For any header lines, a blank line and any body, what is left is exactly the body, as section 2.1
      of RFC 9112 delimits it, whatever follows the body. */
  lemma {:induction false} HeadersStripped(lines: seq<seq<Byte>>, body: seq<Byte>, fault: Option<nat>)
    requires forall i :: 0 <= i < |lines| ==> ShortLine(lines[i])
    ensures AfterHeaders(Concat(lines) + ([13, 10] + body), fault) == Body(body)
  {
    if lines == [] {
      Utf8.AsciiIsValid([13, 10]);
      FirstLine([13, 10], body, fault);
      assert Concat(lines) + ([13, 10] + body) == [13, 10] + body;
    } else {
      var tail := Concat(lines[1..]) + ([13, 10] + body);
      FirstLine(lines[0], tail, fault);
      Assoc(lines[0], Concat(lines[1..]), [13, 10] + body);
      HeadersStripped(lines[1..], body, fault);
    }
  }

  /** A line of text longer than 8192 bytes ends the headers too: after any header lines, what is left is
      exactly what follows it. */
  lemma {:induction false} LongLineEndsHeaders(
    lines: seq<seq<Byte>>, long: seq<Byte>, after: seq<Byte>, fault: Option<nat>)
    requires forall i :: 0 <= i < |lines| ==> ShortLine(lines[i])
    requires |long| > 8192 && long[|long| - 1] == 10 && (forall i :: 0 <= i < |long| - 1 ==> long[i] != 10)
    requires Utf8.Valid(long)
    ensures AfterHeaders(Concat(lines) + (long + after), fault) == Body(after)
  {
    if lines == [] {
      FirstLine(long, after, fault);
      assert Concat(lines) + (long + after) == long + after;
    } else {
      var tail := Concat(lines[1..]) + (long + after);
      FirstLine(lines[0], tail, fault);
      Assoc(lines[0], Concat(lines[1..]), long + after);
      LongLineEndsHeaders(lines[1..], long, after, fault);
    }
  }

  /** A line that is not UTF-8 refuses the stream. */
  lemma BadTextRefused(l: seq<Byte>, tail: seq<Byte>, fault: Option<nat>)
    requires l != [] && l[|l| - 1] == 10 && (forall i :: 0 <= i < |l| - 1 ==> l[i] != 10) && !Utf8.Valid(l)
    ensures AfterHeaders(l + tail, fault) == Refused
  {
    LineComplete(l, l + tail, fault);
  }

  /** A stream that ends among its headers: refused with the source's error; without one, what is left of
      a last line is taken as a line, and nothing remains. */
  lemma CutShort(l: seq<Byte>, fault: Option<nat>)
    requires forall i :: 0 <= i < |l| ==> l[i] != 10
    ensures AfterHeaders(l, fault) == if fault.Some? || !Utf8.Valid(l) then Refused else Body([])
  {
    LineWithoutLf(l);
    if fault.None? && Utf8.Valid(l) && l != [] {
      assert l[|l|..] == [];
      LineWithoutLf([]);
    }
  }

  /** Only CR LF is blank: a bare line feed is taken for a header line and skipped with the rest. */
  lemma BareLineFeedIsNotBlank(body: seq<Byte>, fault: Option<nat>)
    ensures AfterHeaders([LF] + body, fault) == AfterHeaders(body, fault)
  {
    Utf8.AsciiIsValid([LF]);
    FirstLine([LF], body, fault);
  }
}
