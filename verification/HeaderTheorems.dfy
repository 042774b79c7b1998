/** Header stripping through SlimBuffer: over every run of the two threads in which the consumer's calls
    are those of the header loop, what the loop leaves is exactly the body. */
module HeaderTheorems {
  import opened Bytes
  import opened SlimBufferSystem
  import SlimBufferSafety
  import SlimBufferTheorems
  import H = Headers

  // ---------------------------------------------------------------------------------------------
  // One call
  // ---------------------------------------------------------------------------------------------

  /** `ahead` is what follows the bytes taken, `fault` how the source ends after it, and `all` what
      the one-shot definition makes of the whole stream. */
  predicate Agrees(h: H.Place, ahead: seq<Byte>, fault: Option<nat>, all: H.Skipped) {
    match h
    case At(line) => H.NoLf(line) && all == H.AfterHeaders(line + ahead, fault)
    case Shown(line, slice) =>
      && H.NoLf(line) && all == H.AfterHeaders(line + ahead, fault)
      && slice <= ahead && (slice == [] ==> ahead == [] && fault.None?)
    case Past(taken) => all == H.Body(taken + ahead)
    case Failed => all == H.Refused
  }

  /** What a call says about the bytes ahead. */
  predicate Tells(e: Event, ahead: seq<Byte>, fault: Option<nat>) {
    match e
    case FillRet(slice) => slice <= ahead && (slice == [] ==> ahead == [] && fault.None?)
    case ErrRet(error) => ahead == [] && fault == Some(error)
    case _ => e.data <= ahead
  }

  function AheadAfter(e: Event, ahead: seq<Byte>): seq<Byte>
    requires (e.ReadRet? || e.ConsumeRet?) ==> |e.data| <= |ahead|
  {
    if e.ReadRet? || e.ConsumeRet? then ahead[|e.data|..] else ahead
  }

  /** A complete line, taken off the front of what is left. */
  lemma LineTaken(text: seq<Byte>, ahead: seq<Byte>, fault: Option<nat>)
    requires H.LineEnds(text, text + ahead, fault)
    ensures Agrees(H.LineDone(text), ahead, fault, H.AfterHeaders(text + ahead, fault))
  {
    H.LineComplete(text, text + ahead, fault);
    assert (text + ahead)[|text|..] == ahead;
    assert [] + ahead == ahead;
  }

  lemma ConsumeAgrees(line: seq<Byte>, slice: seq<Byte>, ahead: seq<Byte>, fault: Option<nat>, all: H.Skipped)
    requires Agrees(H.Shown(line, slice), ahead, fault, all)
    ensures var e := ConsumeRet(slice[..H.LineLen(slice)]);
            Agrees(H.Next(H.Shown(line, slice), e).value, AheadAfter(e, ahead), fault, all)
  {
    var data := slice[..H.LineLen(slice)];
    var left := ahead[|data|..];
    FirstLineOf(slice);
    TakeFront(line, data, slice, ahead);
    H.LineGrows(line + ahead, line, data, H.Ended(data) || data == [], fault);
    if H.Ended(data) || data == [] {
      LineTaken(line + data, left, fault);
    }
  }

  lemma TakeFront(line: seq<Byte>, data: seq<Byte>, slice: seq<Byte>, ahead: seq<Byte>)
    requires data <= slice <= ahead
    ensures (line + ahead)[|line|..] == ahead && data <= ahead
    ensures line + ahead == line + data + ahead[|data|..]
  {
    assert ahead == data + ahead[|data|..];
  }

  /** The first line of a slice: up to its line feed, or the whole slice without one. */
  lemma {:induction false} FirstLineOf(slice: seq<Byte>)
    ensures var data := slice[..H.LineLen(slice)];
            if H.Ended(data) then H.FullLine(data) else data == slice && H.NoLf(data)
    decreases |slice|
  {
    if slice != [] && slice[0] != H.LF {
      FirstLineOf(slice[1..]);
      var n := H.LineLen(slice[1..]);
      assert slice[..1 + n] == [slice[0]] + slice[1..][..n];
      if n > 0 {
        assert slice[..1 + n][..n] == [slice[0]] + slice[1..][..n][..n - 1];
      }
    }
  }

  /** Every call the loop makes keeps the agreement. */
  lemma CallAgrees(h: H.Place, e: Event, ahead: seq<Byte>, fault: Option<nat>, all: H.Skipped)
    requires Agrees(h, ahead, fault, all) && H.Next(h, e).Some?
    requires h.Past? || h.Failed? ==> ((e.ReadRet? || e.ConsumeRet?) ==> e.data <= ahead)
    requires !h.Past? && !h.Failed? ==> Tells(e, ahead, fault)
    ensures Agrees(H.Next(h, e).value, AheadAfter(e, ahead), fault, all)
  {
    match h
    case At(line) =>
      if e.ErrRet? {
        assert line + ahead == line;
        H.LineWithoutLf(line);
      }
    case Shown(line, slice) => ConsumeAgrees(line, slice, ahead, fault, all);
    case Past(taken) =>
      if e.ReadRet? || e.ConsumeRet? {
        assert ahead == e.data + ahead[|e.data|..];
        Assoc(taken, e.data, ahead[|e.data|..]);
      }
    case Failed =>
  }

  // ---------------------------------------------------------------------------------------------
  // Whole runs
  // ---------------------------------------------------------------------------------------------

  /** The consumer has been told that the stream is over. */
  predicate Told(log: seq<Event>) {
    exists k :: 0 <= k < |log| && log[k].Terminal()
  }

  /** The source may still bring `future` and end with `fault`: anything, until it has ended. */
  predicate Possible(s: Sys, future: seq<Byte>, fault: Option<nat>) {
    Told(s.log) ==> future == [] && fault == s.failure
  }

  /** Pulled from the source and not yet taken: staged, buffered or in flight. */
  function Waiting(s: Sys): seq<Byte>
    requires |s.delivered| <= |s.pulled|
  {
    s.pulled[|s.delivered|..]
  }

  /** The state agrees with the one-shot definition on everything pulled and to come. */
  predicate Follows(s: Sys, future: seq<Byte>, fault: Option<nat>) {
    && |s.delivered| <= |s.pulled|
    && (H.Follow(s.log).Some? ==>
          Agrees(H.Follow(s.log).value, Waiting(s) + future, fault, H.AfterHeaders(s.pulled + future, fault)))
  }

  /** A step either leaves the log alone, and may pull, or adds one call to it. */
  lemma LogGrows(s: Sys, step: Step)
    requires Enabled(s, step)
    ensures var t := Apply(s, step);
            && (t.log == s.log ==> s.pulled <= t.pulled)
            && (t.log != s.log ==>
                  |t.log| == |s.log| + 1 && t.log[..|s.log|] == s.log && t.pulled == s.pulled && t.failure == s.failure)
            && (!s.fill.Reading? ==> t.pulled == s.pulled && t.failure == s.failure)
            && (t.log != s.log && t.log[|s.log|].FillRet? ==> step.CallReturns? && s.consumer.op.FillBuf?)
  {
  }

  /** Bytes that arrive were part of the future. */
  lemma PullFollows(s: Sys, t: Sys, future: seq<Byte>, fault: Option<nat>)
    requires t.log == s.log && t.delivered == s.delivered <= s.pulled <= t.pulled
    requires Follows(s, t.pulled[|s.pulled|..] + future, fault)
    ensures Follows(t, future, fault)
  {
    var more := t.pulled[|s.pulled|..];
    assert t.pulled == s.pulled + more;
    assert s.pulled + (more + future) == t.pulled + future;
    assert Waiting(s) + (more + future) == Waiting(t) + future;
  }

  /** A call that the buffer answers truthfully keeps the agreement. */
  lemma CallFollows(s: Sys, t: Sys, e: Event, future: seq<Byte>, fault: Option<nat>)
    requires t.log == s.log + [e] && t.pulled == s.pulled && Follows(s, future, fault)
    requires if e.ReadRet? || e.ConsumeRet? then t.delivered == s.delivered + e.data <= s.pulled
             else t.delivered == s.delivered
    requires var h := H.Follow(s.log);
             h.Some? && !h.value.Past? && !h.value.Failed? ==> Tells(e, Waiting(s) + future, fault)
    ensures Follows(t, future, fault)
  {
    H.FollowSnoc(s.log, e);
    var ahead := Waiting(s) + future;
    if e.ReadRet? || e.ConsumeRet? {
      assert e.data <= Waiting(s);
      assert Waiting(t) + future == ahead[|e.data|..];
    }
    if H.Follow(t.log).Some? {
      CallAgrees(H.Follow(s.log).value, e, ahead, fault, H.AfterHeaders(s.pulled + future, fault));
    }
  }

  /** While the loop is under way no error has been returned. */
  lemma {:induction false} NoErrorYet(log: seq<Event>)
    requires H.Follow(log).Some? && (H.Follow(log).value.At? || H.Follow(log).value.Shown?)
    ensures forall k :: 0 <= k < |log| ==> !log[k].ErrRet?
    decreases |log|
  {
    if log != [] {
      NoErrorYet(log[..|log| - 1]);
      assert forall k :: 0 <= k < |log| - 1 ==> log[k] == log[..|log| - 1][k];
    }
  }

  /** What a call takes is the next bytes in the stream. */
  lemma CallTakes(states: seq<Sys>, steps: seq<Step>, n: nat, e: Event)
    requires IsRun(states, steps) && n < |steps| && states[n + 1].log == states[n].log + [e]
    ensures var s, t := states[n], states[n + 1];
            if e.ReadRet? || e.ConsumeRet? then t.delivered == s.delivered + e.data <= s.pulled
            else t.delivered == s.delivered <= s.pulled
  {
    SlimBufferTheorems.StreamIntegrity(states, steps, n);
    SlimBufferTheorems.StreamIntegrity(states, steps, n + 1);
    SlimBufferSafety.DeliveredSnoc(states[n].log, e);
    LogGrows(states[n], steps[n]);
  }

  /** An answer that ends the stream is the whole truth: nothing is waiting, nothing will come, and
      the fault is the one reported before, if any. */
  lemma EndTells(states: seq<Sys>, steps: seq<Step>, n: nat, future: seq<Byte>, fault: Option<nat>)
    requires IsRun(states, steps) && n < |states| && states[n].log != []
    requires var s := states[n]; s.log[|s.log| - 1].Terminal() && Possible(s, future, fault)
    ensures var s := states[n];
            var e := s.log[|s.log| - 1];
            && s.delivered == s.pulled && future == [] && fault == s.failure
            && (e.ErrRet? ==> fault == Some(e.error))
            && ((forall k :: 0 <= k < |s.log| ==> !s.log[k].ErrRet?) ==> fault.None?)
  {
    SlimBufferTheorems.EndAndErrors(states, steps, n);
  }

  lemma AnswerTells(states: seq<Sys>, steps: seq<Step>, n: nat, e: Event, future: seq<Byte>, fault: Option<nat>)
    requires IsRun(states, steps) && n < |steps| && states[n + 1].log == states[n].log + [e]
    requires Possible(states[n + 1], future, fault) && |states[n].delivered| <= |states[n].pulled|
    requires var h := H.Follow(states[n].log); h.Some? && (h.value.At? || h.value.Shown?)
    ensures Tells(e, Waiting(states[n]) + future, fault)
  {
    var s, t := states[n], states[n + 1];
    CallTakes(states, steps, n, e);
    LogGrows(s, steps[n]);
    NoErrorYet(s.log);
    assert t.log[|t.log| - 1] == e;
    if e.Terminal() {
      EndTells(states, steps, n + 1, future, fault);
      assert s.delivered == s.pulled ==> Waiting(s) + future == [];
    }
    if e.FillRet? {
      SlimBufferTheorems.FillBufShowsNext(states, steps, n);
      assert e.data <= Waiting(s);
    }
  }

  /** Once the end has been told, nothing more is pulled. */
  lemma PossibleBefore(states: seq<Sys>, steps: seq<Step>, n: nat, future: seq<Byte>, fault: Option<nat>)
    requires IsRun(states, steps) && 0 < n < |states| && Possible(states[n], future, fault)
    ensures var s, t := states[n - 1], states[n];
            s.pulled <= t.pulled && Possible(s, t.pulled[|s.pulled|..] + future, fault)
  {
    var s, t := states[n - 1], states[n];
    LogGrows(s, steps[n - 1]);
    SlimBufferTheorems.EndAndErrors(states, steps, n - 1);
    if Told(s.log) {
      var k :| 0 <= k < |s.log| && s.log[k].Terminal();
      assert t.log[k] == s.log[k];
    }
  }

  /** Each call keeps the agreement. */
  lemma CallKeeps(states: seq<Sys>, steps: seq<Step>, n: nat, e: Event, future: seq<Byte>, fault: Option<nat>)
    requires IsRun(states, steps) && n < |steps| && states[n + 1].log == states[n].log + [e]
    requires Possible(states[n + 1], future, fault) && Follows(states[n], future, fault)
    requires states[n + 1].pulled == states[n].pulled
    ensures Follows(states[n + 1], future, fault)
  {
    var s, t := states[n], states[n + 1];
    CallTakes(states, steps, n, e);
    var h := H.Follow(s.log);
    if h.Some? && (h.value.At? || h.value.Shown?) {
      AnswerTells(states, steps, n, e, future, fault);
    }
    CallFollows(s, t, e, future, fault);
  }

  /** Each step does. */
  lemma StepFollows(states: seq<Sys>, steps: seq<Step>, n: nat, future: seq<Byte>, fault: Option<nat>)
    requires IsRun(states, steps) && 0 < n < |states| && Possible(states[n], future, fault)
    requires var s, t := states[n - 1], states[n];
             s.pulled <= t.pulled && Follows(s, t.pulled[|s.pulled|..] + future, fault)
    ensures Follows(states[n], future, fault)
  {
    var s, t := states[n - 1], states[n];
    LogGrows(s, steps[n - 1]);
    if t.log == s.log {
      SlimBufferTheorems.StreamIntegrity(states, steps, n - 1);
      SlimBufferTheorems.StreamIntegrity(states, steps, n);
      PullFollows(s, t, future, fault);
    } else {
      assert t.log == s.log + [t.log[|s.log|]];
      assert t.pulled[|s.pulled|..] + future == future;
      CallKeeps(states, steps, n - 1, t.log[|s.log|], future, fault);
    }
  }

  /** In every run, whatever the source still brings, the state agrees with the one-shot definition. */
  lemma {:induction false} FollowsAlong(
    states: seq<Sys>, steps: seq<Step>, n: nat, future: seq<Byte>, fault: Option<nat>)
    requires IsRun(states, steps) && n < |states| && Possible(states[n], future, fault)
    ensures Follows(states[n], future, fault)
    decreases n
  {
    if n == 0 {
      assert [] + future == future;
    } else {
      PossibleBefore(states, steps, n, future, fault);
      FollowsAlong(states, steps, n - 1, states[n].pulled[|states[n - 1].pulled|..] + future, fault);
      StepFollows(states, steps, n, future, fault);
    }
  }

  /** Over every run in which the consumer makes the calls of the header loop, under any read sizes and
      any interleaving with the fill thread: once the loop is past the headers, the bytes taken since,
      those staged, buffered or in flight, and those still to come are exactly the body; and the loop
      fails only where the one-shot definition refuses the stream. */
  lemma BodyIsLeft(states: seq<Sys>, steps: seq<Step>, n: nat, future: seq<Byte>, fault: Option<nat>)
    requires IsRun(states, steps) && n < |states| && Possible(states[n], future, fault)
    requires H.Follow(states[n].log).Some?
    ensures var s := states[n];
            var h := H.Follow(s.log).value;
            && |s.delivered| <= |s.pulled|
            && (!s.core.shutdown ==>
                  s.core.pos <= |s.core.staging| && Waiting(s) == s.core.Staged() + s.core.buf + InFlight(s.fill))
            && (h.Past? ==> H.AfterHeaders(s.pulled + future, fault) == H.Body(h.taken + (Waiting(s) + future)))
            && (h.Failed? ==> H.AfterHeaders(s.pulled + future, fault) == H.Refused)
            && (h.At? || h.Shown? ==>
                  H.AfterHeaders(s.pulled + future, fault) == H.AfterHeaders(h.line + (Waiting(s) + future), fault))
  {
    FollowsAlong(states, steps, n, future, fault);
    SlimBufferTheorems.StreamIntegrity(states, steps, n);
    var s := states[n];
    if !s.core.shutdown {
      var held := s.core.Staged() + s.core.buf + InFlight(s.fill);
      Regroup(s.delivered, s.core.Staged(), s.core.buf, InFlight(s.fill));
      assert s.pulled == s.delivered + held;
    }
  }

  /** For a response of any header lines, a blank line and a body, in every such run: the loop does not
      fail, and past the headers the decoder has had, and will get, exactly the body. */
  lemma ResponseIsStripped(states: seq<Sys>, steps: seq<Step>, n: nat, lines: seq<seq<Byte>>, body: seq<Byte>,
                           future: seq<Byte>, fault: Option<nat>)
    requires IsRun(states, steps) && n < |states| && Possible(states[n], future, fault)
    requires H.Follow(states[n].log).Some?
    requires forall i :: 0 <= i < |lines| ==> H.ShortLine(lines[i])
    requires states[n].pulled + future == Concat(lines) + ([13, 10] + body)
    ensures var s := states[n];
            var h := H.Follow(s.log).value;
            && !h.Failed? && |s.delivered| <= |s.pulled|
            && (h.Past? ==> h.taken + (Waiting(s) + future) == body)
  {
    BodyIsLeft(states, steps, n, future, fault);
    H.HeadersStripped(lines, body, fault);
  }
}
