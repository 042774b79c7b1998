/** What every run of the SlimBuffer protocol keeps, whatever the interleaving, the read sizes,
    the spurious wakeups and the source's errors. */
module SlimBufferSafety {
  import opened Bytes
  import opened SlimBufferCore
  import opened SlimBufferSystem

  // ---------------------------------------------------------------------------------------------
  // The invariant
  // ---------------------------------------------------------------------------------------------

  /** Bytes of the shared buffer that the fill thread may still add before it locks again. */
  function Reserved(f: FillPc): nat {
    if f.Reading? || f.AtCommit? then f.want else 0
  }

  predicate Shape(s: Sys) {
    && s.core.Valid()
    && |s.core.buf| + Reserved(s.fill) <= s.core.capacity
    && (s.fill.Reading? || s.fill.AtCommit? ==> 1 <= s.fill.want <= READ_CHUNK)
    && (s.fill.AtCommit? ==> ObeysRead(s.fill.want, s.fill.result))
    && (s.fill.AtRoom? || s.fill.ParkedWritable? || s.fill.Reading? || s.fill.AtCommit? ==> !s.core.eof)
    && (s.fill.AtNotify? || s.fill.AtCallback? ==>
          s.fill.finished == s.core.eof && (s.fill.finished ==> s.fill.reached))
    && (s.fill.FillDone? ==> s.core.eof || s.core.shutdown)
    && (s.core.shutdown <==> s.consumer.DropSet? || s.consumer.DropHalf? || s.consumer.Joining? || s.consumer.Gone?)
    && (s.consumer.Gone? ==> s.fill.FillDone?)
    && (s.consumer.AtRefill? || s.consumer.ParkedReadable? ==> s.core.staging == [] && s.core.pos == 0)
    && (s.consumer.AtRefillNotify? ==> s.core.Staged() != [])
    && (s.consumer.Ready? && s.core.Staged() == [] ==> s.core.eof && s.core.buf == [] && s.core.error == None)
    && (s.consumer.AtRefill? || s.consumer.ParkedReadable? || s.consumer.AtRefillNotify? || s.consumer.Ready? ==>
          s.consumer.op != ReadInto(0))
  }

  /** A sleeping thread that has something to do is about to be woken. */
  predicate Wakeups(s: Sys) {
    && (s.fill.ParkedWritable? && (|s.core.buf| < s.core.capacity || s.core.shutdown) ==>
          s.consumer.AtRefillNotify? || s.consumer.DropSet?)
    && (s.consumer.ParkedReadable? && (s.core.buf != [] || s.core.eof) ==> s.fill.AtNotify?)
  }

  /** Every byte pulled is in exactly one place, and in order. */
  predicate Integrity(s: Sys) {
    && s.core.pos <= |s.core.staging|
    && s.delivered + s.core.Staged() + s.core.buf + InFlight(s.fill) + s.discarded == s.pulled
    && (s.discarded != [] ==> s.core.shutdown && s.fill.FillDone? && !s.core.eof)
    && s.delivered == Delivered(s.log)
  }

  /** The bytes a caller has taken, read off what it saw. */
  function Delivered(log: seq<Event>): seq<Byte> {
    if log == [] then []
    else
      var e := log[|log| - 1];
      if e.ReadRet? || e.ConsumeRet? then Delivered(log[..|log| - 1]) + e.data else Delivered(log[..|log| - 1])
  }

  /** Something has been committed to the shared buffer. */
  predicate Committed(s: Sys)
    requires s.core.pos <= |s.core.staging|
  {
    |s.delivered| + |s.core.Staged()| + |s.core.buf| > 0
  }

  predicate Status(s: Sys) {
    && s.core.pos <= |s.core.staging|
    && s.core.fullness == (if Committed(s) then |s.core.buf| % TWO32 else s.fullness0)
    && s.core.received == (s.received0 + |s.delivered|) % TWO64
  }

  predicate Signals(s: Sys) {
    && s.callbacks == (if s.signalled then 1 else 0)
    && (s.fill.FillDone? && s.core.eof ==> s.signalled)
  }

  /** How a fatal error travels: from the source, to `error`, to the caller, once. */
  predicate Errors(s: Sys) {
    && (s.fill.AtCommit? && s.fill.result.Fatal? ==> s.failure == Some(s.fill.result.error))
    && (s.failure.Some? && !s.core.eof ==>
          s.core.error == None && (s.core.shutdown || (s.fill.AtCommit? && s.fill.result.Fatal?)))
    && (s.failure.Some? && s.fill.Reading? ==> s.core.eof)
    && (s.core.error.Some? ==> s.core.eof && s.core.error == s.failure)
    && (s.core.eof && s.failure.Some? && s.core.error.None? ==>
          exists i :: 0 <= i < |s.log| && s.log[i].ErrRet?)
    && (forall i :: 0 <= i < |s.log| && s.log[i].ErrRet? ==>
          s.failure == Some(s.log[i].error) && s.core.eof && s.core.error.None?)
  }

  predicate Finished(c: Core) {
    c.eof && c.buf == [] && c.pos == |c.staging| && c.error.None?
  }

  /** Once the caller has been told of the end, nothing is left and nothing more comes. */
  predicate Ended(s: Sys) {
    && (forall i :: 0 <= i < |s.log| && s.log[i].Terminal() ==> Finished(s.core))
    && (forall i, j :: 0 <= i < j < |s.log| && s.log[i].Terminal() ==> s.log[j].Quiet())
    && (forall i :: 0 <= i < |s.log| && s.log[i].Terminal() && !s.log[i].ErrRet? && s.failure.Some? ==>
          exists j :: 0 <= j < i && s.log[j].ErrRet?)
  }

  predicate Inv(s: Sys) {
    Shape(s) && Wakeups(s) && Integrity(s) && Status(s) && Signals(s) && Errors(s) && Ended(s)
  }

  // ---------------------------------------------------------------------------------------------
  // Every step keeps it
  // ---------------------------------------------------------------------------------------------

  lemma ShapeKeptByFill(s: Sys, step: Step)
    requires Shape(s) && Enabled(s, step) && (step.ByFill() || step.WriterWakesSpuriously?)
    ensures Shape(ApplyFill(s, step))
  {
  }

  /** The calls that start a refill. */
  lemma ShapeKeptByStart(s: Sys, step: Step)
    requires Shape(s) && Enabled(s, step) && (step.CallRead? || step.CallFillBuf?)
    ensures Shape(ApplyConsumer(s, step))
  {
  }

  /** The steps that hand bytes out. */
  lemma ShapeKeptByDelivery(s: Sys, step: Step)
    requires Shape(s) && Enabled(s, step) && (step.CallConsume? || step.CallReturns?)
    ensures Shape(ApplyConsumer(s, step))
  {
  }

  /** The rest of a refill. */
  lemma ShapeKeptByRefill(s: Sys, step: Step)
    requires Shape(s) && Enabled(s, step)
    requires step.RefillSection? || step.RefillNotify? || step.ReaderWakesSpuriously?
    ensures Shape(ApplyConsumer(s, step))
  {
  }

  /** The steps of `drop`. */
  lemma ShapeKeptByDrop(s: Sys, step: Step)
    requires Shape(s) && Enabled(s, step)
    requires step.CallDrop? || step.DropNotifyWritable? || step.DropNotifyReadable? || step.Join?
    ensures Shape(ApplyConsumer(s, step))
  {
  }

  lemma ShapeKeptByConsumer(s: Sys, step: Step)
    requires Shape(s) && Enabled(s, step) && !step.ByFill() && !step.WriterWakesSpuriously?
    ensures Shape(ApplyConsumer(s, step))
  {
    if step.CallRead? || step.CallFillBuf? {
      ShapeKeptByStart(s, step);
    } else if step.CallConsume? || step.CallReturns? {
      ShapeKeptByDelivery(s, step);
    } else if step.RefillSection? || step.RefillNotify? || step.ReaderWakesSpuriously? {
      ShapeKeptByRefill(s, step);
    } else {
      ShapeKeptByDrop(s, step);
    }
  }

  lemma ShapeKept(s: Sys, step: Step)
    requires Shape(s) && Enabled(s, step)
    ensures Shape(Apply(s, step))
  {
    if step.ByFill() || step.WriterWakesSpuriously? {
      ShapeKeptByFill(s, step);
    } else {
      ShapeKeptByConsumer(s, step);
    }
  }

  lemma WakeupsKept(s: Sys, step: Step)
    requires Shape(s) && Wakeups(s) && Enabled(s, step)
    ensures Wakeups(Apply(s, step))
  {
    ShapeKept(s, step);
  }

  lemma DeliveredSnoc(log: seq<Event>, e: Event)
    ensures Delivered(log + [e]) == (if e.ReadRet? || e.ConsumeRet? then Delivered(log) + e.data else Delivered(log))
  {
    assert (log + [e])[..|log|] == log;
  }

  lemma DeliverSplits(s: Sys, n: nat)
    requires s.core.pos <= |s.core.staging|
    ensures var (t, data) := Deliver(s, n);
            t.core.pos <= |t.core.staging| && data + t.core.Staged() == s.core.Staged()
  {
  }

  lemma PullOne(front: seq<Byte>, buf: seq<Byte>, data: seq<Byte>)
    ensures front + buf + [] + [] + data == front + buf + data + []
  {
  }

  lemma CommitOne(front: seq<Byte>, buf: seq<Byte>, data: seq<Byte>)
    ensures front + buf + data + [] == front + (buf + data) + [] + []
    ensures front + buf + data + [] == front + buf + [] + data
  {
  }

  lemma IntegrityKeptByFill(s: Sys, step: Step)
    requires Shape(s) && Integrity(s) && Enabled(s, step) && (step.ByFill() || step.WriterWakesSpuriously?)
    ensures Integrity(ApplyFill(s, step))
  {
    var t := ApplyFill(s, step);
    var front := s.delivered + s.core.Staged();
    if step.SourceReturns? {
      assert s.discarded == [] && InFlight(s.fill) == [];
      PullOne(front, s.core.buf, InFlight(t.fill));
    } else if step.FillCommit? {
      assert s.discarded == [];
      CommitOne(front, s.core.buf, InFlight(s.fill));
      assert s.core.buf + [] == s.core.buf;
    } else {
      assert t.core == s.core && InFlight(t.fill) == InFlight(s.fill);
    }
  }

  lemma RefillMovesBytes(c: Core)
    requires c.staging == [] && c.pos == 0
    ensures var d := c.Refill().0; d.pos == 0 && d.staging + d.buf == c.buf
  {
  }

  /** Taking the front of the middle part leaves the whole as it was. */
  lemma TakeFront(d: seq<Byte>, data: seq<Byte>, rest: seq<Byte>, buf: seq<Byte>)
    ensures d + data + rest + buf == d + (data + rest) + buf
  {
  }

  /** Refilling an empty middle part from the back leaves the whole as it was. */
  lemma MoveFront(d: seq<Byte>, a: seq<Byte>, b: seq<Byte>)
    ensures d + a + b == d + [] + (a + b)
  {
  }

  /** What the consumer does moves bytes only between its own side and the shared buffer. */
  lemma ConsumerMovesBytes(s: Sys, step: Step)
    requires Shape(s) && Enabled(s, step) && !step.ByFill() && !step.WriterWakesSpuriously?
    ensures var t := ApplyConsumer(s, step);
            && t.core.pos <= |t.core.staging|
            && t.delivered + t.core.Staged() + t.core.buf == s.delivered + s.core.Staged() + s.core.buf
  {
    var t := ApplyConsumer(s, step);
    if step.CallConsume? || (step.CallReturns? && s.consumer.op.ReadInto?) {
      var n := if step.CallConsume? then step.amt else s.consumer.op.len;
      DeliverSplits(s, n);
      TakeFront(s.delivered, Deliver(s, n).1, t.core.Staged(), s.core.buf);
    } else if step.RefillSection? {
      RefillMovesBytes(s.core);
      MoveFront(s.delivered, t.core.staging, t.core.buf);
    } else if step.CallRead? || step.CallFillBuf? {
      assert t.core.Staged() == s.core.Staged();
    } else {
      assert t.core.Staged() == s.core.Staged() && t.core.buf == s.core.buf && t.delivered == s.delivered;
    }
  }

  lemma ConsumerKeepsLog(s: Sys, step: Step)
    requires Enabled(s, step) && !step.ByFill() && !step.WriterWakesSpuriously?
    requires s.delivered == Delivered(s.log)
    ensures var t := ApplyConsumer(s, step); t.delivered == Delivered(t.log)
  {
    var t := ApplyConsumer(s, step);
    if step.CallConsume? {
      DeliveredSnoc(s.log, ConsumeRet(Deliver(s, step.amt).1));
    } else if step.CallReturns? && s.consumer.op.ReadInto? {
      DeliveredSnoc(s.log, ReadRet(Deliver(s, s.consumer.op.len).1));
    } else if step.CallReturns? {
      DeliveredSnoc(s.log, FillRet(s.core.Staged()));
    } else if step.RefillSection? && s.core.Refill().1.Failed? {
      DeliveredSnoc(s.log, ErrRet(s.core.Refill().1.error));
    } else {
      assert t.log == s.log && t.delivered == s.delivered;
    }
  }

  lemma IntegrityKeptByConsumer(s: Sys, step: Step)
    requires Shape(s) && Integrity(s) && Enabled(s, step) && !step.ByFill() && !step.WriterWakesSpuriously?
    ensures Integrity(Apply(s, step))
  {
    var t := ApplyConsumer(s, step);
    ConsumerMovesBytes(s, step);
    ConsumerKeepsLog(s, step);
    assert InFlight(t.fill) == InFlight(s.fill);
  }

  lemma StatusKeptByFill(s: Sys, step: Step)
    requires Shape(s) && Status(s) && Enabled(s, step) && (step.ByFill() || step.WriterWakesSpuriously?)
    ensures Status(ApplyFill(s, step))
  {
  }

  /** Fullness after a consumer step. */
  lemma FullnessKeptByConsumer(s: Sys, step: Step)
    requires Shape(s) && Status(s) && Enabled(s, step) && !step.ByFill() && !step.WriterWakesSpuriously?
    ensures var t := ApplyConsumer(s, step);
            && t.core.pos <= |t.core.staging|
            && t.core.fullness == (if Committed(t) then |t.core.buf| % TWO32 else t.fullness0)
  {
    var t := ApplyConsumer(s, step);
    ConsumerMovesBytes(s, step);
    assert |t.delivered + t.core.Staged() + t.core.buf| == |s.delivered + s.core.Staged() + s.core.buf|;
    assert Committed(t) == Committed(s);
  }

  lemma DeliverCounts(s: Sys, n: nat)
    requires s.core.pos <= |s.core.staging| && s.core.received == (s.received0 + |s.delivered|) % TWO64
    ensures var u := Deliver(s, n).0; u.core.received == (s.received0 + |u.delivered|) % TWO64
  {
    WrapAdds(s.received0 + |s.delivered|, Min(|s.core.staging| - s.core.pos, n));
  }

  lemma ReceivedKeptByConsumer(s: Sys, step: Step)
    requires Shape(s) && Status(s) && Enabled(s, step) && !step.ByFill() && !step.WriterWakesSpuriously?
    ensures var t := ApplyConsumer(s, step); t.core.received == (t.received0 + |t.delivered|) % TWO64
  {
    var t := ApplyConsumer(s, step);
    if step.CallConsume? {
      DeliverCounts(s, step.amt);
    } else if step.CallReturns? && s.consumer.op.ReadInto? {
      DeliverCounts(s, s.consumer.op.len);
    } else {
      assert t.core.received == s.core.received && t.delivered == s.delivered && t.received0 == s.received0;
    }
  }

  lemma StatusKept(s: Sys, step: Step)
    requires Shape(s) && Status(s) && Enabled(s, step)
    ensures Status(Apply(s, step))
  {
    if step.ByFill() || step.WriterWakesSpuriously? {
      StatusKeptByFill(s, step);
    } else {
      FullnessKeptByConsumer(s, step);
      ReceivedKeptByConsumer(s, step);
    }
  }

  lemma SignalsKept(s: Sys, step: Step)
    requires Shape(s) && Signals(s) && Enabled(s, step)
    ensures Signals(Apply(s, step))
  {
  }

  lemma ErrorsKeptByFill(s: Sys, step: Step)
    requires Shape(s) && Errors(s) && Enabled(s, step) && (step.ByFill() || step.WriterWakesSpuriously?)
    ensures Errors(ApplyFill(s, step))
  {
    assert ApplyFill(s, step).log == s.log;
  }

  /** A consumer step that reports no error leaves everything about errors alone. */
  lemma ErrorsKeptByOthers(s: Sys, t: Sys)
    requires Errors(s)
    requires t.failure == s.failure && t.core.eof == s.core.eof && t.core.error == s.core.error
    requires s.core.shutdown ==> t.core.shutdown
    requires t.fill == s.fill || (t.fill.AtRoom? && s.fill.ParkedWritable?)
    requires |s.log| <= |t.log| <= |s.log| + 1 && t.log[..|s.log|] == s.log
    requires |t.log| > |s.log| ==> !t.log[|s.log|].ErrRet?
    ensures Errors(t)
  {
    assert forall i :: 0 <= i < |s.log| ==> t.log[i] == t.log[..|s.log|][i];
  }

  lemma ErrorsKeptByReport(s: Sys, t: Sys)
    requires Errors(s) && s.core.error.Some?
    requires t.failure == s.failure && t.core.eof == s.core.eof && t.core.error.None? && t.fill == s.fill
    requires t.log == s.log + [ErrRet(s.core.error.value)]
    ensures Errors(t)
  {
    assert t.log[|s.log|].ErrRet?;
    assert forall i :: 0 <= i < |s.log| ==> t.log[i] == s.log[i];
  }

  lemma ErrorsKeptByConsumer(s: Sys, step: Step)
    requires Shape(s) && Errors(s) && Enabled(s, step) && !step.ByFill() && !step.WriterWakesSpuriously?
    ensures Errors(ApplyConsumer(s, step))
  {
    var t := ApplyConsumer(s, step);
    if step.RefillSection? && s.core.Refill().1.Failed? {
      ErrorsKeptByReport(s, t);
    } else {
      ErrorsKeptByOthers(s, t);
    }
  }

  lemma EndedKeptByFill(s: Sys, step: Step)
    requires Shape(s) && Ended(s) && Enabled(s, step) && (step.ByFill() || step.WriterWakesSpuriously?)
    ensures Ended(ApplyFill(s, step))
  {
    var t := ApplyFill(s, step);
    assert t.log == s.log;
    assert Finished(s.core) ==> Finished(t.core) && t.failure == s.failure;
  }

  lemma FinishedIsStable(s: Sys, step: Step)
    requires Shape(s) && Enabled(s, step) && !step.ByFill() && !step.WriterWakesSpuriously?
    requires Finished(s.core)
    ensures Finished(ApplyConsumer(s, step).core)
  {
  }

  /** A consumer step records at most one event, and what that event says about the end is true. */
  lemma ConsumerRecords(s: Sys, step: Step)
    requires Shape(s) && Enabled(s, step) && !step.ByFill() && !step.WriterWakesSpuriously?
    ensures var t := ApplyConsumer(s, step);
            && t.failure == s.failure
            && (t.log != s.log ==>
                  && |t.log| == |s.log| + 1 && t.log == s.log + [t.log[|s.log|]]
                  && var e := t.log[|s.log|];
                  && (Finished(s.core) ==> e.Quiet())
                  && (e.Terminal() ==> Finished(t.core))
                  && (e.Terminal() && !e.ErrRet? ==> Finished(s.core)))
  {
    if step.CallReturns? && s.consumer.op.ReadInto? {
      DeliverSplits(s, s.consumer.op.len);
    }
  }

  lemma EndedKeptByConsumer(s: Sys, step: Step)
    requires Shape(s) && Errors(s) && Ended(s) && Enabled(s, step) && !step.ByFill() && !step.WriterWakesSpuriously?
    ensures Ended(ApplyConsumer(s, step))
  {
    var t := ApplyConsumer(s, step);
    ConsumerRecords(s, step);
    if Finished(s.core) {
      FinishedIsStable(s, step);
    }
    if t.log != s.log {
      LogGrows(s, t, t.log[|s.log|]);
    } else {
      assert forall i :: 0 <= i < |s.log| && s.log[i].Terminal() ==> Finished(s.core);
    }
  }

  lemma LogGrows(s: Sys, t: Sys, e: Event)
    requires Errors(s) && Ended(s) && t.log == s.log + [e] && t.failure == s.failure
    requires Finished(s.core) ==> e.Quiet() && Finished(t.core)
    requires e.Terminal() ==> Finished(t.core)
    requires e.Terminal() && !e.ErrRet? ==> Finished(s.core)
    ensures Ended(t)
  {
    assert forall i :: 0 <= i < |s.log| ==> t.log[i] == s.log[i];
    assert t.log[|s.log|] == e;
    if e.Terminal() && !e.ErrRet? && s.failure.Some? {
      var j :| 0 <= j < |s.log| && s.log[j].ErrRet?;
      assert t.log[j].ErrRet?;
    }
    forall i | 0 <= i < |t.log| && t.log[i].Terminal() && !t.log[i].ErrRet? && t.failure.Some?
      ensures exists j :: 0 <= j < i && t.log[j].ErrRet?
    {
      if i < |s.log| {
        var j :| 0 <= j < i && s.log[j].ErrRet?;
        assert t.log[j].ErrRet?;
      }
    }
  }

  lemma InvKept(s: Sys, step: Step)
    requires Inv(s) && Enabled(s, step)
    ensures Inv(Apply(s, step))
  {
    ShapeKept(s, step);
    WakeupsKept(s, step);
    if step.ByFill() || step.WriterWakesSpuriously? {
      IntegrityKeptByFill(s, step);
    } else {
      IntegrityKeptByConsumer(s, step);
    }
    StatusKept(s, step);
    SignalsKept(s, step);
    if step.ByFill() || step.WriterWakesSpuriously? {
      ErrorsKeptByFill(s, step);
      EndedKeptByFill(s, step);
    } else {
      ErrorsKeptByConsumer(s, step);
      EndedKeptByConsumer(s, step);
    }
  }

  lemma InvInit(s: Sys)
    requires Init(s)
    ensures Inv(s)
  {
  }

  lemma {:induction false} InvAlong(states: seq<Sys>, steps: seq<Step>, i: nat)
    requires IsRun(states, steps) && i < |states|
    ensures Inv(states[i])
  {
    if i == 0 {
      InvInit(states[0]);
    } else {
      InvAlong(states, steps, i - 1);
      InvKept(states[i - 1], steps[i - 1]);
    }
  }
}
