/** The play position of the PipeWire output (vibe/src/pipewire_out.rs:252-269, 401-420): the graph
    clock anchored at the first callback after a start or a pause, plus an offset that carries skips
    and the time played before the last pause. All cells are 64-bit. */
module PlayClock {
  import opened Bytes
  import opened Arith

  function Sat(x: nat): nat {
    Min(x, TWO64 - 1)
  }

  /** The graph clock as one callback sees it: `num / denom` seconds per tick. */
  datatype Time = Time(tick: nat, num: nat, denom: nat)

  datatype Clock = Clock(duration: nat, anchor: Option<Time>, offset: nat)

  /** A process callback, with the milliseconds it skipped and the clock if it could be read; a call
      to pause; a call to unpause. */
  datatype Event = Process(skipped: nat, time: Option<Time>) | Pause | Unpause

  const FRESH := Clock(0, None, 0)

  /** Milliseconds from the anchor to a tick, floored, with the code's saturating products. */
  function ElapsedMs(a: Time, tick: nat): nat {
    var ticks := if tick >= a.tick then tick - a.tick else 0;
    Sat(Sat(ticks * 1000) * Max(a.num, 1)) / Max(a.denom, 1)
  }

  predicate Usable(t: Option<Time>) {
    t.Some? && t.value.denom != 0
  }

  function OnProcess(c: Clock, skipped: nat, time: Option<Time>): Clock {
    var moved := c.(offset := (c.offset + skipped) % TWO64);
    if !Usable(time) then moved
    else
      var a := if moved.anchor.None? then time.value else moved.anchor.value;
      moved.(anchor := Some(a), duration := Sat(ElapsedMs(a, time.value.tick) + moved.offset))
  }

  /** A callback moves the offset first and reads the clock afterwards. */
  lemma SkipThenTime(c: Clock, skipped: nat, time: Option<Time>)
    ensures OnProcess(c, skipped, time) == OnProcess(c.(offset := (c.offset + skipped) % TWO64), 0, time)
  {
  }

  function OnPause(c: Clock): Clock {
    Clock(c.duration, None, c.duration)
  }

  function After(c: Clock, e: Event): Clock {
    match e
    case Process(skipped, time) => OnProcess(c, skipped, time)
    case Pause => OnPause(c)
    case Unpause => c
  }

  function Run(events: seq<Event>): Clock
    decreases |events|
  {
    if events == [] then FRESH else After(Run(events[..|events| - 1]), events[|events| - 1])
  }

  // ---------------------------------------------------------------------------------------------
  // What the cells measure: readings between pauses, and skips
  // ---------------------------------------------------------------------------------------------

  /** The clock readings between one pause and the next, as the anchor delimits them: a reading made
      while paused is the first of the next segment. */
  function Segments(events: seq<Event>): (segs: seq<seq<Time>>)
    ensures |segs| >= 1
    decreases |events|
  {
    if events == [] then [[]]
    else
      var segs := Segments(events[..|events| - 1]);
      match events[|events| - 1]
      case Process(_, time) => if Usable(time) then segs[..|segs| - 1] + [segs[|segs| - 1] + [time.value]] else segs
      case Pause => segs + [[]]
      case Unpause => segs
  }

  /** Time from the first reading of a segment to its last. */
  function SegmentMs(seg: seq<Time>): nat {
    if seg == [] then 0 else ElapsedMs(seg[0], seg[|seg| - 1].tick)
  }

  function Sum(segs: seq<seq<Time>>): nat {
    if segs == [] then 0 else Sum(segs[..|segs| - 1]) + SegmentMs(segs[|segs| - 1])
  }

  /** The last call was to pause. */
  predicate PausedAfter(events: seq<Event>)
    decreases |events|
  {
    events != [] &&
    var e := events[|events| - 1];
    e.Pause? || (e.Process? && PausedAfter(events[..|events| - 1]))
  }

  /** The clock readings of each stretch of play: those made while paused belong to none. */
  function Active(events: seq<Event>): (segs: seq<seq<Time>>)
    ensures |segs| >= 1
    decreases |events|
  {
    if events == [] then [[]]
    else
      var before := events[..|events| - 1];
      var segs := Active(before);
      match events[|events| - 1]
      case Process(_, time) =>
        if Usable(time) && !PausedAfter(before) then segs[..|segs| - 1] + [segs[|segs| - 1] + [time.value]] else segs
      case Pause => segs + [[]]
      case Unpause => segs
  }

  /** No callback reads the clock while paused. */
  predicate QuietWhilePaused(events: seq<Event>)
    decreases |events|
  {
    events == [] ||
    var before, e := events[..|events| - 1], events[|events| - 1];
    QuietWhilePaused(before) && !(PausedAfter(before) && e.Process? && Usable(e.time))
  }

  function Skips(events: seq<Event>): nat
    decreases |events|
  {
    if events == [] then 0
    else
      var e := events[|events| - 1];
      Skips(events[..|events| - 1]) + (if e.Process? then e.skipped else 0)
  }

  function Position(events: seq<Event>): nat {
    Sum(Segments(events)) + Skips(events)
  }

  /** Skips by what became of them: seen by a callback that read the clock, waiting for one, or lost
      because a pause came first. */
  datatype Tally = Tally(seen: nat, waiting: nat, lost: nat)

  function Count(events: seq<Event>): (c: Tally)
    ensures c.seen + c.waiting + c.lost == Skips(events)
    decreases |events|
  {
    if events == [] then Tally(0, 0, 0)
    else
      var c := Count(events[..|events| - 1]);
      match events[|events| - 1]
      case Process(k, time) =>
        if Usable(time) then Tally(c.seen + c.waiting + k, 0, c.lost) else c.(waiting := c.waiting + k)
      case Pause => Tally(c.seen, 0, c.lost + c.waiting)
      case Unpause => c
  }

  // ---------------------------------------------------------------------------------------------
  // Runs whose ticks do not go back
  // ---------------------------------------------------------------------------------------------

  /** The last tick read, or 0. */
  function LastTick(events: seq<Event>): nat
    decreases |events|
  {
    if events == [] then 0
    else
      var e := events[|events| - 1];
      if e.Process? && Usable(e.time) then e.time.value.tick else LastTick(events[..|events| - 1])
  }

  /** Each reading is no earlier than the one before it. */
  predicate Forward(events: seq<Event>)
    decreases |events|
  {
    events == [] ||
    var e := events[|events| - 1];
    && Forward(events[..|events| - 1])
    && (e.Process? && Usable(e.time) ==> LastTick(events[..|events| - 1]) <= e.time.value.tick)
  }

  predicate AllUsable(events: seq<Event>) {
    forall i :: 0 <= i < |events| && events[i].Process? ==> Usable(events[i].time)
  }

  lemma ElapsedMono(a: Time, t: nat, u: nat)
    requires t <= u
    ensures ElapsedMs(a, t) <= ElapsedMs(a, u)
  {
    var x := if t >= a.tick then t - a.tick else 0;
    var y := if u >= a.tick then u - a.tick else 0;
    MulMono(Sat(x * 1000), Sat(y * 1000), Max(a.num, 1));
    QuotientMono(Sat(Sat(x * 1000) * Max(a.num, 1)), Sat(Sat(y * 1000) * Max(a.num, 1)), Max(a.denom, 1));
  }

  lemma ElapsedAtAnchor(a: Time)
    ensures ElapsedMs(a, a.tick) == 0
  {
    var d := Max(a.denom, 1);
    assert Sat(Sat(0) * Max(a.num, 1)) == 0;
    assert 0 / d == 0;
  }

  /** When the products do not saturate the elapsed time is the exact floor. */
  lemma ElapsedIsExact(a: Time, tick: nat)
    requires tick >= a.tick && a.num >= 1 && a.denom >= 1 && (tick - a.tick) * 1000 * a.num < TWO64
    ensures ElapsedMs(a, tick) == (tick - a.tick) * 1000 * a.num / a.denom
  {
    var x := (tick - a.tick) * 1000;
    MulMono(1, a.num, x);
    assert x * a.num == a.num * x;
  }

  /** A tick before the anchor counts as none, a numerator or denominator of zero as one, and a product
      that does not fit as the largest number that does. */
  lemma ElapsedAtTheEdges(a: Time, tick: nat)
    ensures tick <= a.tick ==> ElapsedMs(a, tick) == 0
    ensures ElapsedMs(a.(num := 0), tick) == ElapsedMs(a.(num := 1), tick)
    ensures ElapsedMs(a.(denom := 0), tick) == ElapsedMs(a.(denom := 1), tick)
    ensures a.denom <= 1 && a.num >= 1 && tick >= a.tick && (tick - a.tick) * 1000 >= 0xFFFF_FFFF_FFFF_FFFF ==>
              ElapsedMs(a, tick) == 0xFFFF_FFFF_FFFF_FFFF
  {
    if tick <= a.tick {
      ElapsedAtAnchor(a);
    }
    if a.denom <= 1 && a.num >= 1 && tick >= a.tick && (tick - a.tick) * 1000 >= 0xFFFF_FFFF_FFFF_FFFF {
      MulMono(1, a.num, 0xFFFF_FFFF_FFFF_FFFF);
      assert 0xFFFF_FFFF_FFFF_FFFF * a.num == a.num * 0xFFFF_FFFF_FFFF_FFFF;
    }
  }

  /** What a callback does to the cells: the skip goes into the 64-bit offset; a clock that cannot be read,
      or has a zero denominator, changes nothing else; a first reading becomes the anchor. */
  lemma ReadingUpdates(c: Clock, skipped: nat, time: Option<Time>)
    ensures var d := OnProcess(c, skipped, time);
            var offset := (c.offset + skipped) % 0x1_0000_0000_0000_0000;
            && d.offset == offset
            && (time.None? || time.value.denom == 0 ==> d.anchor == c.anchor && d.duration == c.duration)
            && (time.Some? && time.value.denom != 0 && c.anchor.None? ==>
                  d.anchor == time && d.duration == offset)
            && (time.Some? && time.value.denom != 0 && c.anchor.Some? ==>
                  && d.anchor == c.anchor
                  && d.duration == Min(ElapsedMs(c.anchor.value, time.value.tick) + offset, 0xFFFF_FFFF_FFFF_FFFF))
  {
    if time.Some? {
      ElapsedAtAnchor(time.value);
    }
  }

  // ---------------------------------------------------------------------------------------------
  // The reported position is the documented one
  // ---------------------------------------------------------------------------------------------

  function Current(events: seq<Event>): seq<Time> {
    var segs := Segments(events);
    segs[|segs| - 1]
  }

  function ClosedMs(events: seq<Event>): nat {
    var segs := Segments(events);
    Sum(segs[..|segs| - 1])
  }

  /** How one more event changes the segments. */
  lemma SegmentsStep(events: seq<Event>, e: Event)
    ensures var all := events + [e];
            match e
            case Process(_, time) =>
              ClosedMs(all) == ClosedMs(events)
              && Current(all) == (if Usable(time) then Current(events) + [time.value] else Current(events))
            case Pause => ClosedMs(all) == ClosedMs(events) + SegmentMs(Current(events)) && Current(all) == []
            case Unpause => ClosedMs(all) == ClosedMs(events) && Current(all) == Current(events)
  {
    var all := events + [e];
    assert all[..|all| - 1] == events;
    var segs, segs' := Segments(events), Segments(all);
    match e
    case Process(_, time) =>
      if Usable(time) {
        assert segs'[..|segs'| - 1] == segs[..|segs| - 1];
      }
    case Pause =>
      assert segs'[..|segs'| - 1] == segs;
    case Unpause =>
  }

  /** In a forward run the current segment ends at the last tick read. */
  lemma {:induction false} CurrentEndsAtLastTick(events: seq<Event>)
    requires Forward(events)
    ensures var cur := Current(events);
            cur != [] ==> cur[0].tick <= cur[|cur| - 1].tick == LastTick(events)
    decreases |events|
  {
    if events != [] {
      var before, e := events[..|events| - 1], events[|events| - 1];
      assert before + [e] == events;
      CurrentEndsAtLastTick(before);
      SegmentsStep(before, e);
    }
  }

  /** The position never goes back. */
  lemma PositionGrows(events: seq<Event>, e: Event)
    requires Forward(events + [e])
    ensures Position(events) <= Position(events + [e])
  {
    var all := events + [e];
    assert all[..|all| - 1] == events;
    SegmentsStep(events, e);
    CurrentEndsAtLastTick(events);
    var cur := Current(events);
    if e.Process? && Usable(e.time) && cur != [] {
      ElapsedMono(cur[0], cur[|cur| - 1].tick, e.time.value.tick);
    }
  }

  /** What the three cells hold after a run. */
  predicate Exact(events: seq<Event>) {
    var c, cur, tally := Run(events), Current(events), Count(events);
    && c.duration == ClosedMs(events) + SegmentMs(cur) + tally.seen
    && c.offset == ClosedMs(events) + tally.seen + tally.waiting
    && c.anchor == (if cur == [] then None else Some(cur[0]))
  }

  /** A readable callback, with the segment it goes on. */
  lemma ProcessSegment(c: Clock, cur: seq<Time>, skipped: nat, time: Option<Time>)
    requires Usable(time) && c.offset + skipped < TWO64
    requires c.anchor == (if cur == [] then None else Some(cur[0]))
    ensures var d, next := OnProcess(c, skipped, time), cur + [time.value];
            d == Clock(Sat(SegmentMs(next) + c.offset + skipped), Some(next[0]), c.offset + skipped)
  {
    if cur == [] {
      ElapsedAtAnchor(time.value);
    }
  }

  lemma ProcessExact(before: seq<Event>, skipped: nat, time: Option<Time>)
    requires Exact(before) && Position(before + [Process(skipped, time)]) < TWO64
    ensures Exact(before + [Process(skipped, time)])
  {
    var e := Process(skipped, time);
    var events := before + [e];
    assert events[..|events| - 1] == before;
    SegmentsStep(before, e);
    var c := Run(before);
    assert Run(events) == OnProcess(c, skipped, time);
    assert c.offset + skipped < TWO64;
    if Usable(time) {
      ProcessSegment(c, Current(before), skipped, time);
    }
  }

  lemma PauseExact(before: seq<Event>)
    requires Exact(before)
    ensures Exact(before + [Pause]) && Exact(before + [Unpause])
  {
    var a, b := before + [Pause], before + [Unpause];
    assert a[..|a| - 1] == before && b[..|b| - 1] == before;
    SegmentsStep(before, Pause);
    SegmentsStep(before, Unpause);
  }

  lemma {:induction false} CellsExact(events: seq<Event>)
    requires Forward(events) && Position(events) < TWO64
    ensures Exact(events)
    decreases |events|
  {
    if events != [] {
      var before, e := events[..|events| - 1], events[|events| - 1];
      assert before + [e] == events;
      PositionGrows(before, e);
      CellsExact(before);
      match e
      case Process(skipped, time) => ProcessExact(before, skipped, time);
      case Pause => PauseExact(before);
      case Unpause => PauseExact(before);
    }
  }

  lemma {:induction false} QuietIsActive(events: seq<Event>)
    requires QuietWhilePaused(events)
    ensures Active(events) == Segments(events)
    decreases |events|
  {
    if events != [] {
      QuietIsActive(events[..|events| - 1]);
    }
  }

  /** The reported duration is the time of the segments between pauses, each from its first reading to
      its last, plus the skips seen; it is the full position exactly when no skip is waiting or lost.
      When no callback reads the clock while paused, the segments are the stretches of play. */
  lemma PositionReported(events: seq<Event>)
    requires Forward(events) && Position(events) < TWO64
    ensures Run(events).duration == Sum(Segments(events)) + Count(events).seen
    ensures Run(events).duration == Position(events) <==> Count(events).waiting == Count(events).lost == 0
    ensures QuietWhilePaused(events) ==>
              && Run(events).duration == Sum(Active(events)) + Count(events).seen
              && (Run(events).duration == Sum(Active(events)) + Skips(events)
                  <==> Count(events).waiting == Count(events).lost == 0)
  {
    CellsExact(events);
    if QuietWhilePaused(events) {
      QuietIsActive(events);
    }
  }

  /** When every callback can read the clock no skip waits and none is lost. */
  lemma {:induction false} ReadableClockSeesSkips(events: seq<Event>)
    requires AllUsable(events)
    ensures Count(events) == Tally(Skips(events), 0, 0)
    decreases |events|
  {
    if events != [] {
      assert AllUsable(events[..|events| - 1]);
      ReadableClockSeesSkips(events[..|events| - 1]);
      if events[|events| - 1].Process? {
        assert Usable(events[|events| - 1].time);
      }
    }
  }

  // ---------------------------------------------------------------------------------------------
  // Monotonicity, with saturation and unreadable clocks
  // ---------------------------------------------------------------------------------------------

  /** No skip overflows the 64-bit offset cell. */
  predicate OffsetFits(events: seq<Event>)
    decreases |events|
  {
    events == [] ||
    var before, e := events[..|events| - 1], events[|events| - 1];
    OffsetFits(before) && (e.Process? ==> Run(before).offset + e.skipped < TWO64)
  }

  /** The reported duration is covered by what the anchor and the offset would give now. */
  predicate Covered(c: Clock, tick: nat) {
    && c.duration < TWO64 && c.offset < TWO64
    && (c.anchor.None? ==> c.duration <= c.offset)
    && (c.anchor.Some? ==> c.duration <= Sat(ElapsedMs(c.anchor.value, tick) + c.offset))
  }

  lemma StepNeverGoesBack(c: Clock, e: Event, tick: nat)
    requires Covered(c, tick)
    requires e.Process? ==> c.offset + e.skipped < TWO64
    requires e.Process? && Usable(e.time) ==> tick <= e.time.value.tick
    ensures c.duration <= After(c, e).duration
    ensures Covered(After(c, e), if e.Process? && Usable(e.time) then e.time.value.tick else tick)
  {
    if e.Process? && Usable(e.time) && c.anchor.Some? {
      ElapsedMono(c.anchor.value, tick, e.time.value.tick);
    }
  }

  lemma {:induction false} RunCovered(events: seq<Event>)
    requires Forward(events) && OffsetFits(events)
    ensures Covered(Run(events), LastTick(events))
    decreases |events|
  {
    if events != [] {
      var before, e := events[..|events| - 1], events[|events| - 1];
      RunCovered(before);
      StepNeverGoesBack(Run(before), e, LastTick(before));
    }
  }

  /** Across any mix of callbacks, skips, pauses and unpauses the reported duration never decreases,
      saturated or not, whether or not every callback could read the clock. */
  lemma NeverGoesBack(events: seq<Event>, more: seq<Event>)
    requires Forward(events + more) && OffsetFits(events + more)
    ensures Run(events).duration <= Run(events + more).duration
    decreases |more|
  {
    if more == [] {
      assert events + more == events;
    } else {
      var k := |more| - 1;
      var all := events + more;
      assert all[..|all| - 1] == events + more[..k];
      NeverGoesBack(events, more[..k]);
      RunCovered(events + more[..k]);
      StepNeverGoesBack(Run(events + more[..k]), more[k], LastTick(events + more[..k]));
    }
  }

  // ---------------------------------------------------------------------------------------------
  // When paused time is counted
  // ---------------------------------------------------------------------------------------------

  /** The first clock reading among some events. */
  function FirstReading(events: seq<Event>): Option<Time>
    decreases |events|
  {
    if events == [] then None
    else
      var first, e := FirstReading(events[..|events| - 1]), events[|events| - 1];
      if first.None? && e.Process? && Usable(e.time) then e.time else first
  }

  /** The rate of the clock is a fraction of 32-bit numbers. */
  predicate Narrow(events: seq<Event>) {
    forall i :: 0 <= i < |events| && events[i].Process? && events[i].time.Some? ==> events[i].time.value.denom < TWO32
  }

  /** A reading whose tick has not gone back. */
  predicate Later(events: seq<Event>, t: Time) {
    t.denom != 0 && LastTick(events) <= t.tick
  }

  /** What the cells hold some events after a pause. */
  lemma {:induction false} AfterPause(events: seq<Event>, gap: seq<Event>)
    requires Pause !in gap && Run(events).duration + Skips(gap) < TWO64
    ensures var c := Run(events + ([Pause] + gap));
            c.offset == Run(events).duration + Skips(gap) && c.anchor == FirstReading(gap)
    decreases |gap|
  {
    var all := events + ([Pause] + gap);
    if gap == [] {
      assert all[..|all| - 1] == events;
    } else {
      var k := |gap| - 1;
      assert all[..|all| - 1] == events + ([Pause] + gap[..k]);
      AfterPause(events, gap[..k]);
    }
  }

  /** From an anchor with a 32-bit rate some later tick shows time going by. */
  lemma ElapsedShows(a: Time, tick: nat)
    requires 0 < a.denom < TWO32 && tick >= a.tick + a.denom
    ensures ElapsedMs(a, tick) >= 1
  {
    var ticks, num := Sat((tick - a.tick) * 1000), Max(a.num, 1);
    assert ticks >= a.denom;
    MulMono(1, num, ticks);
    assert num * ticks == ticks * num;
    assert Sat(ticks * num) >= a.denom;
    QuotientAtLeast(Sat(ticks * num), a.denom, 1);
  }

  lemma FirstReadingIsNarrow(gap: seq<Event>)
    requires Narrow(gap) && FirstReading(gap).Some?
    ensures 0 < FirstReading(gap).value.denom < TWO32
    decreases |gap|
  {
    if FirstReading(gap[..|gap| - 1]).Some? {
      FirstReadingIsNarrow(gap[..|gap| - 1]);
    }
  }

  /** The first reading after some events since a pause. */
  lemma ReadingAfterPause(events: seq<Event>, gap: seq<Event>, t: Time)
    requires Pause !in gap && Run(events).duration + Skips(gap) < TWO64 && t.denom != 0
    ensures var held := Run(events).duration + Skips(gap);
            Run(events + ([Pause] + gap) + [Process(0, Some(t))]).duration
            == Sat(ElapsedMs(if FirstReading(gap).Some? then FirstReading(gap).value else t, t.tick) + held)
  {
    AfterPause(events, gap);
    var since := events + ([Pause] + gap);
    assert (since + [Process(0, Some(t))])[..|since|] == since;
    FirstReadFrom(Run(since), t);
  }

  lemma FirstReadFrom(c: Clock, t: Time)
    requires c.offset < TWO64 && t.denom != 0
    ensures OnProcess(c, 0, Some(t)).duration
            == Sat(ElapsedMs(if c.anchor.Some? then c.anchor.value else t, t.tick) + c.offset)
  {
  }

  /** A pause, any events up to a call to unpause and any callbacks after it that cannot read the
      clock; then a reading. At every later tick it reports the position at the pause, and the skips
      since, if and only if no callback read the clock before the call to unpause. (A position that has
      reached the last 64-bit value stays there in any case.) */
  lemma PausedTimeIsNotCounted(events: seq<Event>, idle: seq<Event>, wait: seq<Event>)
    requires Pause !in idle + ([Unpause] + wait) && Narrow(idle) && FirstReading(wait) == None
    requires Run(events).duration + Skips(idle + ([Unpause] + wait)) < TWO64
    ensures var gap := idle + ([Unpause] + wait);
            var held := Run(events).duration + Skips(gap);
            (forall t :: Later(events + ([Pause] + gap), t) ==>
               Run(events + ([Pause] + gap) + [Process(0, Some(t))]).duration == held)
            <==> FirstReading(idle) == None || held == TWO64 - 1
  {
    var gap := idle + ([Unpause] + wait);
    FirstReadingOver(idle, wait);
    if FirstReading(idle) == None {
      QuietGap(events, gap);
    } else {
      FirstReadingIsNarrow(idle);
      BusyGap(events, gap);
    }
  }

  /** No reading since the pause: the position is held at every tick. */
  lemma QuietGap(events: seq<Event>, gap: seq<Event>)
    requires Pause !in gap && Run(events).duration + Skips(gap) < TWO64 && FirstReading(gap) == None
    ensures forall t :: Later(events + ([Pause] + gap), t) ==>
              Run(events + ([Pause] + gap) + [Process(0, Some(t))]).duration == Run(events).duration + Skips(gap)
  {
    forall t | Later(events + ([Pause] + gap), t)
      ensures Run(events + ([Pause] + gap) + [Process(0, Some(t))]).duration == Run(events).duration + Skips(gap)
    {
      ReadingAfterPause(events, gap, t);
      ElapsedAtAnchor(t);
    }
  }

  /** A reading since the pause: unless the cell is full, some later tick shows a later position. */
  lemma BusyGap(events: seq<Event>, gap: seq<Event>)
    requires Pause !in gap && Run(events).duration + Skips(gap) < TWO64
    requires FirstReading(gap).Some? && 0 < FirstReading(gap).value.denom < TWO32
    ensures var held := Run(events).duration + Skips(gap);
            (forall t :: Later(events + ([Pause] + gap), t) ==>
               Run(events + ([Pause] + gap) + [Process(0, Some(t))]).duration == held)
            <==> held == TWO64 - 1
  {
    var since, a := events + ([Pause] + gap), FirstReading(gap).value;
    var u := Time(Max(LastTick(since), a.tick + a.denom), 1, 1);
    assert Later(since, u);
    ElapsedShows(a, u.tick);
    forall t | Later(since, t)
      ensures Run(since + [Process(0, Some(t))]).duration
              == Sat(ElapsedMs(a, t.tick) + Run(events).duration + Skips(gap))
    {
      ReadingAfterPause(events, gap, t);
    }
  }

  lemma {:induction false} DurationFits(events: seq<Event>)
    ensures Run(events).duration < TWO64
    decreases |events|
  {
    if events != [] {
      DurationFits(events[..|events| - 1]);
    }
  }

  /** A quiet pause counts no time however long it lasts: after it the first reading, at any tick,
      reports the position at the pause. */
  lemma QuietPauseKeepsPosition(events: seq<Event>, gap: seq<Event>, t: Time)
    requires Pause !in gap && FirstReading(gap) == None && Skips(gap) == 0 && t.denom != 0
    ensures Run(events + ([Pause] + gap) + [Process(0, Some(t))]).duration == Run(events).duration
  {
    DurationFits(events);
    ReadingAfterPause(events, gap, t);
    ElapsedAtAnchor(t);
  }

  lemma {:induction false} FirstReadingOver(idle: seq<Event>, wait: seq<Event>)
    requires FirstReading(wait) == None
    ensures FirstReading(idle + ([Unpause] + wait)) == FirstReading(idle)
    decreases |wait|
  {
    var gap := idle + ([Unpause] + wait);
    if wait == [] {
      assert gap[..|gap| - 1] == idle;
    } else {
      var k := |wait| - 1;
      assert gap[..|gap| - 1] == idle + ([Unpause] + wait[..k]);
      FirstReadingOver(idle, wait[..k]);
    }
  }

  /** Five seconds of pause counted as played: the server runs one more callback after the call to
      pause, which anchors there; the next one comes after the call to unpause. */
  lemma PausedReadingCounts(events: seq<Event>)
    requires events == [Process(0, Some(Time(0, 1, 1000))), Pause]
    ensures Run(events).duration == 0
    ensures Run(events + [Process(0, Some(Time(10, 1, 1000))), Unpause, Process(0, Some(Time(5010, 1, 1000)))]).duration
            == 5000
  {
    var start, idle := [events[0]], [Process(0, Some(Time(10, 1, 1000)))];
    assert events[..1] == start && start[..0] == [];
    assert Run(start) == OnProcess(FRESH, 0, events[0].time);
    var gap := idle + [Unpause];
    assert gap[..1] == idle && idle[..0] == [];
    assert FirstReading(idle) == Some(Time(10, 1, 1000)) && FirstReading(gap) == FirstReading(idle);
    assert Skips(idle) == 0 && Skips(gap) == 0;
    ReadingAfterPause(start, gap, Time(5010, 1, 1000));
    assert start + ([Pause] + gap) + [Process(0, Some(Time(5010, 1, 1000)))]
        == events + [Process(0, Some(Time(10, 1, 1000))), Unpause, Process(0, Some(Time(5010, 1, 1000)))];
  }

  /** The condition on skips is needed: one served by a callback that could not read the clock is
      forgotten when a pause follows before the next reading. */
  lemma UnreadSkipIsForgotten(c: Clock, skipped: nat)
    ensures OnPause(OnProcess(c, skipped, None)) == OnPause(c)
  {
  }
}
