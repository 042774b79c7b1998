/** The two-thread protocol of SlimBuffer (lms-proto/src/buffer.rs): a fill thread and a consumer,
    each with a program counter, over the data in SlimBufferCore. A section that holds the state
    lock is one step; waiting on a condition variable, reading the source and each notification
    are steps of their own, so anything may happen between them. */
module SlimBufferSystem {
  import opened Bytes
  import opened SlimBufferCore

  datatype FillPc =
    | AtRoom                                        // about to lock and look for room
    | ParkedWritable                                // waiting on `writable`
    | Reading(want: nat)                            // unlocked, inside source.read
    | AtCommit(want: nat, result: ReadResult)       // read returned, about to lock
    | AtNotify(reached: bool, finished: bool)       // unlocked, about to notify `readable`
    | AtCallback(reached: bool, finished: bool)
    | FillDone

  datatype Op = ReadInto(len: nat) | FillBuf

  datatype ConsumerPc =
    | Idle
    | AtRefill(op: Op)                              // about to lock in refill
    | ParkedReadable(op: Op)                        // waiting on `readable`
    | AtRefillNotify(op: Op)                        // drained and unlocked, about to notify `writable`
    | Ready(op: Op)                                 // refill returned Ok
    | DropSet                                       // shutdown set, `writable` not yet notified
    | DropHalf                                      // `readable` not yet notified
    | Joining
    | Gone

  /** What the caller saw. A read into an empty destination returns at once and is not recorded. */
  datatype Event =
    | ReadRet(data: seq<Byte>)
    | FillRet(data: seq<Byte>)
    | ConsumeRet(data: seq<Byte>)
    | ErrRet(error: Error)
  {
    /** The caller was told that the stream is over. */
    predicate Terminal() {
      ErrRet? || ((ReadRet? || FillRet?) && data == [])
    }

    /** No bytes and no error. */
    predicate Quiet() {
      !ErrRet? && data == []
    }
  }

  /** `pulled`, `delivered`, `discarded`, `failure` and `log` are history: no step looks at them. */
  datatype Sys = Sys(
    core: Core,
    fill: FillPc,
    consumer: ConsumerPc,
    signalled: bool,
    callbacks: nat,
    fullness0: nat,
    received0: nat,
    pulled: seq<Byte>,
    delivered: seq<Byte>,
    discarded: seq<Byte>,
    failure: Option<Error>,
    log: seq<Event>
  )

  datatype Step =
    | FillRoom
    | SourceReturns(result: ReadResult)
    | FillCommit
    | FillNotify
    | FillCallback
    | WriterWakesSpuriously
    | CallRead(len: nat)
    | CallFillBuf
    | CallConsume(amt: nat)
    | CallDrop
    | RefillSection
    | RefillNotify
    | CallReturns
    | ReaderWakesSpuriously
    | DropNotifyWritable
    | DropNotifyReadable
    | Join
  {
    /** A step of the fill thread, not counting a wakeup from outside. */
    predicate ByFill() {
      FillRoom? || SourceReturns? || FillCommit? || FillNotify? || FillCallback?
    }

    /** A step of the consumer inside a call that the caller has already made. */
    predicate ByConsumer() {
      RefillSection? || RefillNotify? || CallReturns? || DropNotifyWritable? || DropNotifyReadable? || Join?
    }
  }

  predicate Init(s: Sys) {
    && 1 <= s.core.capacity && s.core.threshold <= s.core.capacity
    && s.fullness0 < TWO32 && s.received0 < TWO64
    && s.core == Core(s.core.capacity, s.core.threshold, [], false, None, false, [], 0, s.fullness0, s.received0)
    && s.fill == AtRoom && s.consumer == Idle
    && !s.signalled && s.callbacks == 0
    && s.pulled == [] && s.delivered == [] && s.discarded == [] && s.failure == None && s.log == []
  }

  /** The contract of `Read`: no more bytes than the slice holds, and none means the end. */
  predicate ObeysRead(want: nat, r: ReadResult) {
    r.Data? ==> 1 <= |r.bytes| <= want
  }

  predicate Enabled(s: Sys, step: Step) {
    match step
    case FillRoom => s.fill.AtRoom?
    case SourceReturns(r) => s.fill.Reading? && ObeysRead(s.fill.want, r)
    case FillCommit => s.fill.AtCommit?
    case FillNotify => s.fill.AtNotify?
    case FillCallback => s.fill.AtCallback?
    case WriterWakesSpuriously => s.fill.ParkedWritable?
    case CallRead(_) => s.consumer.Idle? && s.core.pos <= |s.core.staging|
    case CallFillBuf => s.consumer.Idle? && s.core.pos <= |s.core.staging|
    case CallConsume(_) => s.consumer.Idle? && s.core.pos <= |s.core.staging|
    case CallDrop => s.consumer.Idle?
    case RefillSection => s.consumer.AtRefill?
    case RefillNotify => s.consumer.AtRefillNotify?
    case CallReturns => s.consumer.Ready? && s.core.pos <= |s.core.staging|
    case ReaderWakesSpuriously => s.consumer.ParkedReadable?
    case DropNotifyWritable => s.consumer.DropSet?
    case DropNotifyReadable => s.consumer.DropHalf?
    case Join => s.consumer.Joining? && s.fill.FillDone?
  }

  function WakeWriter(f: FillPc): FillPc {
    if f.ParkedWritable? then AtRoom else f
  }

  function WakeReader(c: ConsumerPc): ConsumerPc {
    if c.ParkedReadable? then AtRefill(c.op) else c
  }

  /** Bytes read from the source but not yet committed. */
  function InFlight(f: FillPc): seq<Byte> {
    if f.AtCommit? && f.result.Data? then f.result.bytes else []
  }

  function StartRefill(s: Sys, op: Op): Sys {
    if s.core.pos < |s.core.staging| then s.(consumer := Ready(op))
    else s.(core := s.core.(staging := [], pos := 0), consumer := AtRefill(op))
  }

  function Deliver(s: Sys, n: nat): (Sys, seq<Byte>)
    requires s.core.pos <= |s.core.staging|
  {
    var k := Min(|s.core.staging| - s.core.pos, n);
    var data := s.core.staging[s.core.pos..s.core.pos + k];
    (s.(core := s.core.Advance(k), delivered := s.delivered + data), data)
  }

  function Record(s: Sys, e: Event): Sys {
    s.(log := s.log + [e])
  }

  function ApplyFill(s: Sys, step: Step): Sys
    requires Enabled(s, step) && (step.ByFill() || step.WriterWakesSpuriously?)
  {
    match step
    case FillRoom =>
      (match s.core.Room()
       case Park => s.(fill := ParkedWritable)
       case Stop => s.(fill := FillDone)
       case ReadUpTo(want) => s.(fill := Reading(want)))
    case SourceReturns(r) =>
      s.(fill := AtCommit(s.fill.want, r),
         pulled := s.pulled + (if r.Data? then r.bytes else []),
         failure := if r.Fatal? then Some(r.error) else s.failure)
    case FillCommit =>
      var (core, d) := s.core.Commit(s.fill.result);
      (match d
       case Quit => s.(core := core, fill := FillDone, discarded := InFlight(s.fill))
       case Again => s.(core := core, fill := AtRoom)
       case Published(reached, finished) => s.(core := core, fill := AtNotify(reached, finished)))
    case FillNotify =>
      s.(fill := AtCallback(s.fill.reached, s.fill.finished), consumer := WakeReader(s.consumer))
    case FillCallback =>
      var fire := s.fill.reached && !s.signalled;
      s.(signalled := s.signalled || fire,
         callbacks := s.callbacks + (if fire then 1 else 0),
         fill := if s.fill.finished then FillDone else AtRoom)
    case WriterWakesSpuriously => s.(fill := AtRoom)
  }

  function ApplyConsumer(s: Sys, step: Step): Sys
    requires Enabled(s, step) && !step.ByFill() && !step.WriterWakesSpuriously?
  {
    match step
    case CallRead(len) => if len == 0 then s else StartRefill(s, ReadInto(len))
    case CallFillBuf => StartRefill(s, FillBuf)
    case CallConsume(amt) =>
      var (t, data) := Deliver(s, amt);
      Record(t, ConsumeRet(data))
    case CallDrop => s.(core := s.core.(shutdown := true), consumer := DropSet)
    case RefillSection =>
      var op := s.consumer.op;
      var (core, d) := s.core.Refill();
      (match d
       case Wait => s.(core := core, consumer := ParkedReadable(op))
       case Failed(e) => Record(s.(core := core, consumer := Idle), ErrRet(e))
       case Exhausted => s.(core := core, consumer := Ready(op))
       case Drained => s.(core := core, consumer := AtRefillNotify(op)))
    case RefillNotify => s.(fill := WakeWriter(s.fill), consumer := Ready(s.consumer.op))
    case CallReturns =>
      (match s.consumer.op
       case ReadInto(len) =>
         var (t, data) := Deliver(s, len);
         Record(t, ReadRet(data)).(consumer := Idle)
       case FillBuf => Record(s, FillRet(s.core.Staged())).(consumer := Idle))
    case ReaderWakesSpuriously => s.(consumer := AtRefill(s.consumer.op))
    case DropNotifyWritable => s.(fill := WakeWriter(s.fill), consumer := DropHalf)
    case DropNotifyReadable => s.(consumer := Joining)
    case Join => s.(consumer := Gone)
  }

  function Apply(s: Sys, step: Step): Sys
    requires Enabled(s, step)
  {
    if step.ByFill() || step.WriterWakesSpuriously? then ApplyFill(s, step) else ApplyConsumer(s, step)
  }

  /** A run from any state: every step is enabled where it is taken. */
  predicate IsPath(states: seq<Sys>, steps: seq<Step>) {
    && |states| == |steps| + 1
    && forall i :: 0 <= i < |steps| ==> Enabled(states[i], steps[i]) && states[i + 1] == Apply(states[i], steps[i])
  }

  /** A run of the program: a path from an initial state. */
  predicate IsRun(states: seq<Sys>, steps: seq<Step>) {
    IsPath(states, steps) && Init(states[0])
  }
}
