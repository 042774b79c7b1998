/** The data of a SlimBuffer and what each of its lock-holding sections does to it
    (lms-proto/src/buffer.rs). The thread protocol around these sections is in
    SlimBufferSystem. */
module SlimBufferCore {
  import opened Bytes

  const READ_CHUNK := 8 * 1024
  const STAGING_SIZE := 8 * 1024

  type Error = nat

  /** What one `read` of the source returned. Interrupted, WouldBlock and TimedOut are Transient. */
  datatype ReadResult = Data(bytes: seq<Byte>) | Eof | Transient | Fatal(error: Error)

  /** How the fill thread leaves the section that looks for room. */
  datatype RoomDecision = Park | Stop | ReadUpTo(want: nat)

  /** How the fill thread leaves the section that commits a read. */
  datatype CommitDecision = Quit | Again | Published(reached: bool, finished: bool)

  /** How the consumer leaves the locked section of `refill`. */
  datatype RefillDecision = Wait | Failed(error: Error) | Exhausted | Drained

  /** The shared state, the consumer's staging area and the two status fields the buffer maintains. */
  datatype Core = Core(
    capacity: nat,
    threshold: nat,
    buf: seq<Byte>,
    eof: bool,
    error: Option<Error>,
    shutdown: bool,
    staging: seq<Byte>,
    pos: nat,
    fullness: nat,
    received: nat
  ) {
    predicate Valid() {
      && 1 <= capacity && threshold <= capacity
      && |buf| <= capacity
      && pos <= |staging| <= STAGING_SIZE
    }

    /** Bytes moved to the staging area that the caller has not taken yet. */
    function Staged(): seq<Byte>
      requires pos <= |staging|
    {
      staging[pos..]
    }

    function Room(): RoomDecision {
      if shutdown then Stop
      else if |buf| >= capacity then Park
      else ReadUpTo(Min(capacity - |buf|, READ_CHUNK))
    }

    function Commit(r: ReadResult): (Core, CommitDecision) {
      if shutdown then (this, Quit)
      else match r
        case Eof => (this.(eof := true), Published(true, true))
        case Data(bytes) =>
          var b := buf + bytes;
          (this.(buf := b, fullness := |b| % TWO32), Published(|b| >= threshold, eof))
        case Transient => (this, Again)
        case Fatal(e) => (this.(error := Some(e), eof := true), Published(true, true))
    }

    function Refill(): (Core, RefillDecision) {
      if buf == [] then
        if !eof then (this, Wait)
        else if error.Some? then (this.(error := None), Failed(error.value))
        else (this, Exhausted)
      else
        var n := Min(|buf|, STAGING_SIZE);
        (this.(staging := staging + buf[..n], buf := buf[n..], fullness := (|buf| - n) % TWO32), Drained)
    }

    function Advance(n: nat): Core {
      this.(pos := pos + n, received := (received + n) % TWO64)
    }
  }

  /** The buffer object. Each method is the body of one section that runs under the state lock
      (or touches only the consumer's own fields). */
  class SlimBuffer {
    const capacity: nat
    const threshold: nat
    var buf: seq<Byte>
    var eof: bool
    var error: Option<Error>
    var shutdown: bool
    var staging: seq<Byte>
    var pos: nat
    var fullness: nat
    var received: nat
    var bufferSize: nat

    ghost function View(): Core
      reads this
    {
      Core(capacity, threshold, buf, eof, error, shutdown, staging, pos, fullness, received)
    }

    /** The status block is shared, so its fullness and byte count start at whatever they were. */
    constructor WithCapacity(requested: nat, threshold: nat, fullness: nat, received: nat)
      requires threshold < TWO32 && fullness < TWO32 && received < TWO64
      ensures View().Valid()
      ensures View() == Core(capacity, threshold, [], false, None, false, [], 0, fullness, received)
      ensures capacity >= requested && (capacity == requested || capacity == threshold || capacity == 1)
      ensures bufferSize == capacity % TWO32
    {
      var c := Max(Max(requested, threshold), 1);
      this.capacity := c;
      this.threshold := threshold;
      this.bufferSize := c % TWO32;
      this.buf, this.eof, this.error, this.shutdown := [], false, None, false;
      this.staging, this.pos := [], 0;
      this.fullness, this.received := fullness, received;
    }

    /** One pass of the fill thread through its first locked section. */
    method Room() returns (d: RoomDecision)
      requires View().Valid()
      ensures d == View().Room()
      ensures d.ReadUpTo? ==> 1 <= d.want <= READ_CHUNK && |buf| + d.want <= capacity
    {
      if !shutdown && |buf| >= capacity {
        return Park;
      }
      if shutdown {
        return Stop;
      }
      d := ReadUpTo(Min(capacity - |buf|, READ_CHUNK));
    }

    /** The fill thread's second locked section, after the unlocked read. */
    method Commit(r: ReadResult) returns (d: CommitDecision)
      modifies this`buf, this`eof, this`error, this`fullness
      ensures (View(), d) == old(View()).Commit(r)
      ensures buf == old(buf) + (if r.Data? && !shutdown then r.bytes else [])
    {
      if shutdown {
        return Quit;
      }
      var reached;
      match r {
        case Eof =>
          eof := true;
          reached := true;
        case Data(bytes) =>
          buf := buf + bytes;
          fullness := |buf| % TWO32;
          reached := |buf| >= threshold;
        case Transient =>
          return Again;
        case Fatal(e) =>
          error := Some(e);
          eof := true;
          reached := true;
      }
      d := Published(reached, eof);
    }

    /** The consumer's locked section in `refill`, once the staging area has been cleared. */
    method Refill() returns (d: RefillDecision)
      requires pos == |staging| == 0
      modifies this`buf, this`error, this`staging, this`fullness
      ensures (View(), d) == old(View()).Refill()
      ensures staging + buf == old(buf) && |staging| <= STAGING_SIZE
      ensures d.Drained? <==> staging != []
    {
      if buf == [] {
        if !eof {
          return Wait;
        }
        match error {
          case Some(e) =>
            error := None;
            return Failed(e);
          case None =>
            return Exhausted;
        }
      }
      var n := Min(|buf|, STAGING_SIZE);
      staging := staging + buf[..n];
      buf := buf[n..];
      fullness := |buf| % TWO32;
      d := Drained;
    }

    /** Clears a used-up staging area; says whether bytes are still staged. */
    method Stage() returns (ready: bool)
      requires View().Valid()
      modifies this`staging, this`pos
      ensures View().Valid() && View().Staged() == old(View().Staged())
      ensures ready <==> View().Staged() != []
      ensures !ready ==> staging == [] && pos == 0
    {
      if pos < |staging| {
        return true;
      }
      staging, pos := [], 0;
      ready := false;
    }

    /** Hands the caller at most n staged bytes: the tail of `read`, and `consume`. */
    method Take(n: nat) returns (data: seq<Byte>)
      requires View().Valid()
      modifies this`pos, this`received
      ensures View() == old(View()).Advance(|data|) && View().Valid()
      ensures data + View().Staged() == old(View().Staged())
      ensures |data| == Min(n, |old(View()).Staged()|)
    {
      var k := Min(|staging| - pos, n);
      data := staging[pos..pos + k];
      pos := pos + k;
      received := (received + k) % TWO64;
    }

    /** The locked part of `drop`. */
    method Shutdown()
      modifies this`shutdown
      ensures View() == old(View()).(shutdown := true)
    {
      shutdown := true;
    }
  }
}
