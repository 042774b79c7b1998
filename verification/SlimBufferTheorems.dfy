/** The main results about SlimBuffer, over whole runs: nothing is lost, nobody sleeps for ever,
    calls and `drop` end, the end of the stream and its error are reported once and in order. */
module SlimBufferTheorems {
  import opened Bytes
  import opened SlimBufferCore
  import opened SlimBufferSystem
  import opened SlimBufferSafety

  // ---------------------------------------------------------------------------------------------
  // Bytes
  // ---------------------------------------------------------------------------------------------

  /** Until shutdown the bytes pulled are, in order, those delivered, staged, buffered and in flight;
      what a caller has taken is always a prefix of what was pulled. */
  lemma StreamIntegrity(states: seq<Sys>, steps: seq<Step>, i: nat)
    requires IsRun(states, steps) && i < |states|
    ensures var s := states[i];
            && s.core.pos <= |s.core.staging|
            && (!s.core.shutdown ==> s.delivered + s.core.Staged() + s.core.buf + InFlight(s.fill) == s.pulled)
            && Delivered(s.log) == s.delivered <= s.pulled
            && |s.delivered| + |s.core.Staged()| + |s.core.buf| + |InFlight(s.fill)| + |s.discarded| == |s.pulled|
  {
    InvAlong(states, steps, i);
    var s := states[i];
    if !s.core.shutdown {
      assert s.discarded == [];
    }
  }

  /** The buffered-reader contract: fill_buf shows the bytes that come next in the stream after those
      already taken, and an empty slice only when none are left; consume takes a prefix of them. */
  lemma FillBufShowsNext(states: seq<Sys>, steps: seq<Step>, i: nat)
    requires IsRun(states, steps) && i < |steps|
    ensures var s, t := states[i], states[i + 1];
            && (steps[i].CallReturns? && s.consumer.op.FillBuf? ==>
                  && t.log != [] && t.log[|t.log| - 1].FillRet?
                  && var slice := t.log[|t.log| - 1].data;
                  && t.delivered == s.delivered && s.delivered + slice <= s.pulled
                  && (slice == [] ==> s.core.eof && s.delivered == s.pulled))
            && (steps[i].CallConsume? ==>
                  && t.log != [] && t.log[|t.log| - 1].ConsumeRet?
                  && var data := t.log[|t.log| - 1].data;
                  t.delivered == s.delivered + data && s.delivered + data <= s.pulled && |data| <= steps[i].amt)
  {
    InvAlong(states, steps, i);
    if steps[i].CallReturns? && states[i].consumer.op.FillBuf? {
      SliceIsNext(states[i]);
    } else if steps[i].CallConsume? {
      ConsumeIsNext(states[i], steps[i].amt);
    }
  }

  /** What each call and each locked section moves, exactly. A read hands over min(len, staged) bytes, a
      consume min(amt, staged), a fill_buf shows all that is staged and takes none; a refill moves
      min(8192, buffered) bytes to the empty staging area; and the fill thread asks for min(8192, room). */
  lemma CallsMoveExactly(states: seq<Sys>, steps: seq<Step>, i: nat)
    requires IsRun(states, steps) && i < |steps|
    ensures var s, t := states[i], states[i + 1];
            && s.core.pos <= |s.core.staging| && t.core.pos <= |t.core.staging|
            && (steps[i].CallReturns? && s.consumer.op.ReadInto? ==>
                  Took(s, t, s.consumer.op.len) && t.log == s.log + [ReadRet(Head(s.core.Staged(), s.consumer.op.len))])
            && (steps[i].CallConsume? ==>
                  Took(s, t, steps[i].amt) && t.log == s.log + [ConsumeRet(Head(s.core.Staged(), steps[i].amt))])
            && (steps[i].CallReturns? && s.consumer.op.FillBuf? ==>
                  t.log == s.log + [FillRet(s.core.Staged())] && t.core == s.core && t.delivered == s.delivered)
  {
    InvAlong(states, steps, i);
    InvAlong(states, steps, i + 1);
    if steps[i].CallConsume? {
      TakesAll(states[i], steps[i].amt);
    } else if steps[i].CallReturns? && states[i].consumer.op.ReadInto? {
      TakesAll(states[i], states[i].consumer.op.len);
    }
  }

  /** Between s and t a call took the first min(n, staged) bytes. */
  predicate Took(s: Sys, t: Sys, n: nat)
    requires s.core.pos <= |s.core.staging| && t.core.pos <= |t.core.staging|
  {
    && t.delivered == s.delivered + Head(s.core.Staged(), n)
    && t.core.Staged() == Tail(s.core.Staged(), n) && t.core.buf == s.core.buf
  }

  lemma TakesAll(s: Sys, n: nat)
    requires s.core.pos <= |s.core.staging|
    ensures var (t, data) := Deliver(s, n);
            && data == Head(s.core.Staged(), n) && t.core.pos <= |t.core.staging|
            && t.core.Staged() == Tail(s.core.Staged(), n) && t.core.buf == s.core.buf
            && t.delivered == s.delivered + data && t.log == s.log
  {
    DeliverSplits(s, n);
  }

  /** The locked sections of both threads: how much is moved, and how much the source is asked for. */
  lemma SectionsMoveExactly(states: seq<Sys>, steps: seq<Step>, i: nat)
    requires IsRun(states, steps) && i < |steps|
    ensures var s, t := states[i], states[i + 1];
            && t.core.pos <= |t.core.staging|
            && (steps[i].RefillSection? && s.core.buf != [] ==>
                  t.core.Staged() == Head(s.core.buf, 8192) && t.core.buf == Tail(s.core.buf, 8192)
                  && t.consumer.AtRefillNotify?)
            && (steps[i].RefillSection? && s.core.buf == [] && !s.core.eof ==> t.consumer.ParkedReadable?)
            && (steps[i].FillRoom? && !s.core.shutdown && |s.core.buf| < s.core.capacity ==>
                  t.fill == Reading(Min(8192, s.core.capacity - |s.core.buf|)))
            && (steps[i].FillRoom? && !s.core.shutdown && |s.core.buf| >= s.core.capacity ==> t.fill.ParkedWritable?)
  {
    InvAlong(states, steps, i);
    InvAlong(states, steps, i + 1);
  }

  /** The step at which the source's end, or a fatal error, is committed. */
  predicate Ends(s: Sys, step: Step) {
    step.FillCommit? && s.fill.AtCommit? && (s.fill.result.Eof? || s.fill.result.Fatal?) && !s.core.shutdown
  }

  /** The buffer is at its end exactly when the source returned zero bytes or a fatal error: a transient
      error never ends the stream. */
  lemma EofIff(states: seq<Sys>, steps: seq<Step>, n: nat)
    requires IsRun(states, steps) && n < |states|
    ensures states[n].core.eof <==> exists i :: 0 <= i < n && Ends(states[i], steps[i])
  {
    forall k | 0 <= k < |steps|
      ensures states[k + 1].core.eof <==> states[k].core.eof || Ends(states[k], steps[k])
    {
      EofAlong(states, steps, k);
    }
    EofLatches(states, steps, n);
  }

  lemma {:induction false} EofLatches(states: seq<Sys>, steps: seq<Step>, n: nat)
    requires n < |states| == |steps| + 1 && !states[0].core.eof
    requires forall k :: 0 <= k < |steps| ==>
               (states[k + 1].core.eof <==> states[k].core.eof || Ends(states[k], steps[k]))
    ensures states[n].core.eof <==> exists i :: 0 <= i < n && Ends(states[i], steps[i])
  {
    if n > 0 {
      EofLatches(states, steps, n - 1);
      assert states[n - 1 + 1].core.eof <==> states[n - 1].core.eof || Ends(states[n - 1], steps[n - 1]);
    }
  }

  lemma EofAlong(states: seq<Sys>, steps: seq<Step>, n: nat)
    requires IsRun(states, steps) && n < |steps|
    ensures states[n + 1].core.eof <==> states[n].core.eof || Ends(states[n], steps[n])
  {
    EofStep(states[n], steps[n]);
  }

  lemma EofStep(s: Sys, step: Step)
    requires Enabled(s, step)
    ensures Apply(s, step).core.eof <==> s.core.eof || Ends(s, step)
  {
  }

  lemma SliceIsNext(s: Sys)
    requires Inv(s)
    ensures s.delivered + s.core.Staged() <= s.pulled
    ensures s.consumer.Ready? && s.core.Staged() == [] ==> s.core.eof && s.delivered == s.pulled
  {
    if s.consumer.Ready? && s.core.Staged() == [] {
      assert InFlight(s.fill) == [] && s.discarded == [] && s.core.buf == [];
    }
  }

  lemma ConsumeIsNext(s: Sys, amt: nat)
    requires Inv(s)
    ensures var (t, data) := Deliver(s, amt);
            t.delivered == s.delivered + data && s.delivered + data <= s.pulled && |data| <= amt
  {
    SliceIsNext(s);
    DeliverSplits(s, amt);
    var data := Deliver(s, amt).1;
    assert s.delivered + data <= s.delivered + s.core.Staged();
  }

  /** The shared buffer, together with room promised to an unlocked read, never outgrows its
      capacity, and the source is never offered an empty slice. The reported fullness is the buffer's
      length exactly when something has been committed or the shared status block started at zero. */
  lemma BoundedAndHonest(states: seq<Sys>, steps: seq<Step>, i: nat)
    requires IsRun(states, steps) && i < |states|
    ensures var s := states[i];
            && |s.core.buf| + Reserved(s.fill) <= s.core.capacity
            && |s.core.staging| <= STAGING_SIZE
            && (s.fill.Reading? ==> 1 <= s.fill.want)
            && s.core.pos <= |s.core.staging|
            && s.core.received == (s.received0 + |s.delivered|) % TWO64
            && (s.core.fullness == |s.core.buf| % TWO32 <==> Committed(s) || s.fullness0 == 0)
            && (s.core.capacity < TWO32 ==> |s.core.buf| % TWO32 == |s.core.buf|)
  {
    InvAlong(states, steps, i);
  }

  // ---------------------------------------------------------------------------------------------
  // Wakeups and progress
  // ---------------------------------------------------------------------------------------------

  predicate InCall(s: Sys) {
    !s.consumer.Idle? && !s.consumer.Gone?
  }

  /** Steps that need no luck: not a spurious wakeup, not a new call, not a transient read error. */
  predicate Proper(step: Step) {
    (step.ByFill() || step.ByConsumer()) && step != SourceReturns(Transient)
  }

  lemma NoLostWakeup(states: seq<Sys>, steps: seq<Step>, i: nat)
    requires IsRun(states, steps) && i < |states|
    ensures var s := states[i];
            && (s.fill.ParkedWritable? && (|s.core.buf| < s.core.capacity || s.core.shutdown) ==>
                  s.consumer.AtRefillNotify? || s.consumer.DropSet?)
            && (s.consumer.ParkedReadable? && (s.core.buf != [] || s.core.eof) ==> s.fill.AtNotify?)
            && !(s.fill.ParkedWritable? && s.consumer.ParkedReadable?)
            && !(s.fill.FillDone? && s.consumer.ParkedReadable?)
            && !(s.fill.ParkedWritable? && s.consumer.Joining?)
  {
    InvAlong(states, steps, i);
  }

  /** While a call is under way some thread can move, by a proper step. */
  lemma NoDeadlock(s: Sys)
    requires Inv(s) && InCall(s)
    ensures exists step :: Proper(step) && Enabled(s, step)
  {
    match s.consumer
    case AtRefill(_) => assert Enabled(s, RefillSection) && Proper(RefillSection);
    case AtRefillNotify(_) => assert Enabled(s, RefillNotify) && Proper(RefillNotify);
    case Ready(_) => assert Enabled(s, CallReturns) && Proper(CallReturns);
    case DropSet => assert Enabled(s, DropNotifyWritable) && Proper(DropNotifyWritable);
    case DropHalf => assert Enabled(s, DropNotifyReadable) && Proper(DropNotifyReadable);
    case _ => FillCanMove(s);
  }

  /** Whoever waits for the fill thread waits for a thread that can move, or has finished. */
  lemma FillCanMove(s: Sys)
    requires Inv(s) && (s.consumer.ParkedReadable? || s.consumer.Joining?)
    ensures exists step :: Proper(step) && Enabled(s, step)
  {
    match s.fill
    case AtRoom => assert Enabled(s, FillRoom) && Proper(FillRoom);
    case Reading(_) => assert Enabled(s, SourceReturns(Eof)) && Proper(SourceReturns(Eof));
    case AtCommit(_, _) => assert Enabled(s, FillCommit) && Proper(FillCommit);
    case AtNotify(_, _) => assert Enabled(s, FillNotify) && Proper(FillNotify);
    case AtCallback(_, _) => assert Enabled(s, FillCallback) && Proper(FillCallback);
    case FillDone => assert Enabled(s, Join) && Proper(Join);
    case ParkedWritable => assert false;
  }

  function Phase(c: ConsumerPc): nat {
    match c
    case AtRefill(_) => 3
    case ParkedReadable(_) => 3
    case AtRefillNotify(_) => 2
    case Ready(_) => 1
    case DropSet => 3
    case DropHalf => 2
    case Joining => 1
    case Idle => 0
    case Gone => 0
  }

  /** How far the fill thread can run on its own: every commit of data uses up room. */
  function FillRank(s: Sys): nat
    requires |s.core.buf| <= s.core.capacity
  {
    var room := 10 * (s.core.capacity - |s.core.buf|);
    match s.fill
    case AtNotify(_, finished) => if finished then 3 else room + 9
    case AtCallback(_, finished) => if finished then 2 else room + 8
    case AtCommit(_, r) => if r.Transient? then room + 8 else room + 4
    case AtRoom => room + 7
    case ParkedWritable => room + 6
    case Reading(_) => room + 5
    case FillDone => 0
  }

  /** An upper bound on the proper steps left before the call under way has returned. */
  function CallRank(s: Sys): nat
    requires |s.core.buf| <= s.core.capacity
  {
    2 * (Phase(s.consumer) * (10 * s.core.capacity + 10) + FillRank(s)) + (if s.consumer.AtRefill? then 1 else 0)
  }

  lemma FillStepLowersRank(s: Sys, step: Step)
    requires Inv(s) && Enabled(s, step) && Proper(step) && step.ByFill()
    ensures var t := ApplyFill(s, step);
            && |t.core.buf| <= t.core.capacity == s.core.capacity && FillRank(t) < FillRank(s)
            && Phase(t.consumer) == Phase(s.consumer)
  {
    ShapeKeptByFill(s, step);
  }

  lemma ConsumerStepLowersPhase(s: Sys, step: Step)
    requires Inv(s) && Enabled(s, step) && step.ByConsumer()
    ensures var t := ApplyConsumer(s, step);
            && |t.core.buf| <= t.core.capacity == s.core.capacity
            && (Phase(t.consumer) < Phase(s.consumer)
                || (t == s.(consumer := ParkedReadable(s.consumer.op)) && s.consumer.AtRefill?))
  {
    ShapeKeptByConsumer(s, step);
  }

  lemma FillRankBound(s: Sys)
    requires |s.core.buf| <= s.core.capacity
    ensures FillRank(s) < 10 * s.core.capacity + 10
  {
  }

  /** A lower phase outweighs any rise of the fill rank. */
  lemma {:induction false} PhaseOutweighs(p: nat, q: nat, b: nat, f: nat, g: nat)
    requires p < q && f < b
    ensures p * b + f < q * b + g
    decreases q
  {
    assert q * b == (q - 1) * b + b;
    if p < q - 1 {
      PhaseOutweighs(p, q - 1, b, f, g);
    }
  }

  lemma ProperStepLowersRank(s: Sys, step: Step)
    requires Inv(s) && Enabled(s, step) && Proper(step)
    ensures var t := Apply(s, step);
            |t.core.buf| <= t.core.capacity && CallRank(t) < CallRank(s)
  {
    var t := Apply(s, step);
    if step.ByFill() {
      FillStepLowersRank(s, step);
    } else {
      ConsumerStepLowersPhase(s, step);
      if Phase(t.consumer) < Phase(s.consumer) {
        FillRankBound(t);
        PhaseOutweighs(Phase(t.consumer), Phase(s.consumer), 10 * s.core.capacity + 10, FillRank(t), FillRank(s));
      }
    }
  }

  /** Steps that a call under way may need more than once: wakeups from outside, transient errors. */
  predicate Unlucky(step: Step) {
    step.WriterWakesSpuriously? || step.ReaderWakesSpuriously? || step == SourceReturns(Transient)
  }

  function CountUnlucky(steps: seq<Step>): nat {
    if steps == [] then 0 else CountUnlucky(steps[1..]) + (if Unlucky(steps[0]) then 1 else 0)
  }

  lemma UnluckyStepRaisesLittle(s: Sys, step: Step)
    requires Inv(s) && Enabled(s, step) && Unlucky(step)
    ensures var t := Apply(s, step);
            && t.core == s.core && Phase(t.consumer) == Phase(s.consumer) && FillRank(t) <= FillRank(s) + 3
            && (step.ReaderWakesSpuriously? ==> FillRank(t) == FillRank(s))
            && (!step.ReaderWakesSpuriously? ==> t.consumer == s.consumer)
  {
  }

  /** An unlucky step raises the rank by a bounded amount, a proper one lowers it. */
  lemma StepMovesRank(s: Sys, step: Step)
    requires Inv(s) && Enabled(s, step) && (Proper(step) || Unlucky(step))
    ensures var t := Apply(s, step);
            |t.core.buf| <= t.core.capacity && 1 + CallRank(t) <= CallRank(s) + (if Unlucky(step) then 7 else 0)
  {
    if Proper(step) {
      ProperStepLowersRank(s, step);
    } else {
      UnluckyStepRaisesLittle(s, step);
    }
  }

  /** Every call returns. On any path without new calls the steps are bounded by the rank at the start
      and the number of unlucky steps, each good for at most seven; and when no proper step is left the
      consumer is out of its call. */
  lemma {:induction false} EveryCallReturns(states: seq<Sys>, steps: seq<Step>)
    requires IsPath(states, steps) && Inv(states[0])
    requires forall i :: 0 <= i < |steps| ==> Proper(steps[i]) || Unlucky(steps[i])
    ensures var t := states[|steps|];
            && Inv(t) && |steps| + CallRank(t) <= CallRank(states[0]) + 7 * CountUnlucky(steps)
            && ((forall step :: Proper(step) ==> !Enabled(t, step)) ==> !InCall(t))
    decreases |steps|
  {
    if |steps| == 0 {
      if InCall(states[0]) {
        NoDeadlock(states[0]);
      }
    } else {
      StepMovesRank(states[0], steps[0]);
      InvKept(states[0], steps[0]);
      assert IsPath(states[1..], steps[1..]);
      EveryCallReturns(states[1..], steps[1..]);
    }
  }

  // ---------------------------------------------------------------------------------------------
  // Shutdown
  // ---------------------------------------------------------------------------------------------

  function StepsToStop(f: FillPc): nat {
    match f
    case AtNotify(_, _) => 3
    case AtCallback(_, _) => 2
    case ParkedWritable => 2
    case Reading(_) => 2
    case AtRoom => 1
    case AtCommit(_, _) => 1
    case FillDone => 0
  }

  function CountFill(steps: seq<Step>): nat {
    if steps == [] then 0
    else CountFill(steps[1..]) + (if steps[0].ByFill() || steps[0].WriterWakesSpuriously? then 1 else 0)
  }

  function CountReads(steps: seq<Step>): nat {
    if steps == [] then 0 else CountReads(steps[1..]) + (if steps[0].SourceReturns? then 1 else 0)
  }

  lemma StepAfterShutdown(s: Sys, step: Step)
    requires Inv(s) && s.core.shutdown && Enabled(s, step)
    ensures var t := Apply(s, step);
            && t.core == s.core && t.delivered == s.delivered && t.log == s.log
            && StepsToStop(t.fill) <= StepsToStop(s.fill)
            && (step.ByFill() || step.WriterWakesSpuriously? ==> StepsToStop(t.fill) < StepsToStop(s.fill))
            && (t.fill.Reading? ==> s.fill.Reading? && !step.SourceReturns?)
  {
  }

  /** Once `drop` has set shutdown the fill thread takes at most three more steps, whatever the
      source returns, completes at most the read it was in, and changes no shared data. */
  lemma {:induction false} ShutdownStops(states: seq<Sys>, steps: seq<Step>)
    requires IsPath(states, steps) && Inv(states[0]) && states[0].core.shutdown
    ensures var t := states[|steps|];
            && Inv(t) && t.core == states[0].core && t.delivered == states[0].delivered
            && CountFill(steps) + StepsToStop(t.fill) <= StepsToStop(states[0].fill) <= 3
            && CountReads(steps) + (if t.fill.Reading? then 1 else 0) <= (if states[0].fill.Reading? then 1 else 0)
    decreases |steps|
  {
    if |steps| > 0 {
      StepAfterShutdown(states[0], steps[0]);
      InvKept(states[0], steps[0]);
      assert IsPath(states[1..], steps[1..]);
      ShutdownStops(states[1..], steps[1..]);
    }
  }

  /** `join` waits only for a thread that can move by itself, so with ShutdownStops it completes. */
  lemma JoinCompletes(s: Sys)
    requires Inv(s) && s.consumer.Joining?
    ensures StepsToStop(s.fill) == 0 <==> Enabled(s, Join)
    ensures StepsToStop(s.fill) > 0 ==> exists step: Step :: step.ByFill() && Proper(step) && Enabled(s, step)
  {
    if StepsToStop(s.fill) > 0 {
      FillCanMove(s);
    }
  }

  // ---------------------------------------------------------------------------------------------
  // The end of the stream
  // ---------------------------------------------------------------------------------------------

  /** A caller is told of the end (an empty read or slice, or the error) only when everything pulled
      has been delivered and the source has finished; nothing follows but empty answers. A fatal
      error is what it is told first, with the source's own error, and it is told once. */
  lemma EndAndErrors(states: seq<Sys>, steps: seq<Step>, n: nat)
    requires IsRun(states, steps) && n < |states|
    ensures var s := states[n];
            && (forall i :: 0 <= i < |s.log| && s.log[i].Terminal() ==>
                  s.core.eof && !s.fill.Reading? && !s.fill.AtCommit? && s.delivered == s.pulled)
            && (forall i, j :: 0 <= i < j < |s.log| && s.log[i].Terminal() ==> s.log[j].Quiet())
            && (forall i :: 0 <= i < |s.log| && s.log[i].ErrRet? ==> s.failure == Some(s.log[i].error))
            && (forall i, j :: 0 <= i < j < |s.log| && s.log[i].ErrRet? ==> !s.log[j].ErrRet?)
            && (forall i :: 0 <= i < |s.log| && s.log[i].Terminal() && s.failure.Some? ==>
                  exists j :: 0 <= j <= i && s.log[j].ErrRet?)
  {
    InvAlong(states, steps, n);
    var s := states[n];
    forall i | 0 <= i < |s.log| && s.log[i].Terminal()
      ensures s.core.eof && !s.fill.Reading? && !s.fill.AtCommit? && s.delivered == s.pulled
    {
      assert Finished(s.core);
      assert s.core.Staged() == [] && s.core.buf == [] && InFlight(s.fill) == [] && s.discarded == [];
    }
  }

  // ---------------------------------------------------------------------------------------------
  // The threshold callback
  // ---------------------------------------------------------------------------------------------

  /** The step leading to t commits a read and sees the threshold reached, or the end of the source. */
  predicate Crosses(step: Step, t: Sys) {
    && step.FillCommit? && t.fill.AtNotify?
    && (|t.core.buf| >= t.core.threshold || t.core.eof)
  }

  /** Fired, or about to. */
  predicate Due(s: Sys) {
    s.callbacks == 1 || ((s.fill.AtNotify? || s.fill.AtCallback?) && s.fill.reached)
  }

  lemma DueAfterStep(s: Sys, step: Step)
    requires Inv(s) && Enabled(s, step)
    ensures var t := Apply(s, step); Due(t) <==> Due(s) || Crosses(step, t)
  {
  }

  lemma CallbackFollowsCrossing(states: seq<Sys>, steps: seq<Step>, n: nat)
    requires IsRun(states, steps) && n < |states|
    ensures Due(states[n]) <==> exists i :: 0 <= i < n && Crosses(steps[i], states[i + 1])
  {
    forall k | 0 <= k < |steps|
      ensures Due(states[k + 1]) <==> Due(states[k]) || Crosses(steps[k], states[k + 1])
    {
      DueAlong(states, steps, k);
    }
    DueLatches(states, steps, n);
  }

  lemma {:induction false} DueLatches(states: seq<Sys>, steps: seq<Step>, n: nat)
    requires n < |states| == |steps| + 1 && !Due(states[0])
    requires forall k :: 0 <= k < |steps| ==>
               (Due(states[k + 1]) <==> Due(states[k]) || Crosses(steps[k], states[k + 1]))
    ensures Due(states[n]) <==> exists i :: 0 <= i < n && Crosses(steps[i], states[i + 1])
  {
    if n > 0 {
      DueLatches(states, steps, n - 1);
      assert Due(states[n - 1 + 1]) <==> Due(states[n - 1]) || Crosses(steps[n - 1], states[n - 1 + 1]);
    }
  }

  lemma DueAlong(states: seq<Sys>, steps: seq<Step>, n: nat)
    requires IsRun(states, steps) && n < |steps|
    ensures Due(states[n + 1]) <==> Due(states[n]) || Crosses(steps[n], states[n + 1])
  {
    InvAlong(states, steps, n);
    DueAfterStep(states[n], steps[n]);
  }

  /** The callback fires at most once, never before a crossing, and has fired when the fill thread
      has finished by the end of the source or an error. */
  lemma ThresholdCallback(states: seq<Sys>, steps: seq<Step>, n: nat)
    requires IsRun(states, steps) && n < |states|
    ensures states[n].callbacks <= 1
    ensures states[n].callbacks == 1 ==> exists i :: 0 <= i < n && Crosses(steps[i], states[i + 1])
    ensures states[n].fill.FillDone? && states[n].core.eof ==> states[n].callbacks == 1
  {
    InvAlong(states, steps, n);
    CallbackFollowsCrossing(states, steps, n);
  }
}
