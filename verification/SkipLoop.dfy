/** The fill-and-skip loop shared by the PipeWire callback (vibe/src/pipewire_out.rs:199-230) and the
    rodio iterator (vibe/src/rodio_out.rs:81-114): fill the buffer, drop what a pending skip asks for,
    and go round again while that leaves the buffer empty. */
module SkipLoop {
  import opened Bytes
  import opened Arith
  import opened Decoder

  /** Buffer elements per sample: four bytes in a raw buffer, one in a sample buffer. */
  type Unit = u: nat | u == 1 || u == 4 witness 1

  /** The whole samples in a number of elements, and the elements of a number of samples. */
  function Samples(elements: int, unit: Unit): int {
    if unit == 1 then elements else elements / 4
  }

  function Elements(samples: int, unit: Unit): int {
    if unit == 1 then samples else samples * 4
  }

  /** No part of a sample is left over. */
  predicate WholeSamples(elements: int, unit: Unit) {
    unit == 1 || elements % 4 == 0
  }

  /** A fill limit. With no limit given it is at least 1024; rodio asks for 8192. */
  type Limit = n: nat | n >= 1 witness 1

  /** `skip` and `offset` are milliseconds, `skipped` counts samples, `passes` counts the passes that
      served a skip, `failures` the stream errors met, and `dropped` holds what was thrown away. */
  datatype Pump<T> = Pump(
    buf: seq<T>,
    rest: seq<Outcome<T>>,
    skip: nat,
    offset: nat,
    skipped: nat,
    passes: nat,
    failures: nat,
    dropped: seq<T>
  )

  /** What became of a stretch of the decoded stream: passed on, or skipped. */
  datatype Piece<T> = Passed(data: seq<T>) | Skipped(data: seq<T>)

  /** A whole tape of pieces, laid end to end. */
  function Spool<T>(tape: seq<Piece<T>>): seq<T> {
    if tape == [] then [] else Spool(tape[..|tape| - 1]) + tape[|tape| - 1].data
  }

  lemma SpoolSnoc<T>(tape: seq<Piece<T>>, p: Piece<T>)
    ensures Spool(tape + [p]) == Spool(tape) + p.data
  {
    assert (tape + [p])[..|tape|] == tape;
  }

  /** Hangs: the loop goes round for ever, in the state given. */
  datatype LoopResult<T> = Done(state: Pump<T>, eod: bool) | Hangs(state: Pump<T>)

  function Refilled<T>(p: Pump<T>, limit: Limit): (Pump<T>, FillResult) {
    var f := Fill(p.buf, p.rest, limit);
    (p.(buf := f.buf, rest := f.rest, failures := p.failures + (if f.result.Failed? then 1 else 0)), f.result)
  }

  /** One service of a pending skip. */
  function Drop<T>(p: Pump<T>, sps: nat, unit: Unit): Pump<T>
    requires sps > 0
  {
    var n := Min(Elements(DurToSamples(sps, p.skip), unit), |p.buf|);
    var a := SamplesToDur(sps, Samples(n, unit));
    p.(buf := p.buf[n..],
       dropped := p.dropped + p.buf[..n],
       skipped := p.skipped + Samples(n, unit),
       passes := p.passes + 1,
       offset := p.offset + a,
       skip := if p.skip >= a then p.skip - a else 0)
  }

  /** `lim` gives the fill limit of each pass: it may change as the buffer's capacity grows. */
  function Loop<T>(p: Pump<T>, sps: nat, unit: Unit, lim: nat -> Limit, i: nat): LoopResult<T>
    requires sps > 0
    decreases |p.rest|, |p.buf|
  {
    FillStops(p.buf, p.rest, lim(i));
    var (f, result) := Refilled(p, lim(i));
    if result.RetryNeeded? then Loop(f, sps, unit, lim, i + 1)
    else if p.skip == 0 then Done(f, !result.More?)
    else
      var q := Drop(f, sps, unit);
      if q.buf != [] then Done(q, !result.More?)
      else if q.rest == [] && q.skip > 0 then Hangs(q)
      else Loop(q, sps, unit, lim, i + 1)
  }

  /** One pass: a fill, then a service of the skip unless the fill asked for a retry. */
  function Pass<T>(p: Pump<T>, sps: nat, unit: Unit, limit: Limit): (Pump<T>, FillResult)
    requires sps > 0
  {
    var (f, result) := Refilled(p, limit);
    if result.RetryNeeded? || p.skip == 0 then (f, result) else (Drop(f, sps, unit), result)
  }

  /** The loop goes round again after a retry, or when a skip has emptied the buffer. */
  lemma LoopByPasses<T>(p: Pump<T>, sps: nat, unit: Unit, lim: nat -> Limit, i: nat)
    requires sps > 0
    ensures var (q, result) := Pass(p, sps, unit, lim(i));
            var r := Loop(p, sps, unit, lim, i);
            if result.RetryNeeded? || (p.skip > 0 && q.buf == []) then
              r.Done? ==>
                r == Loop(q, sps, unit, lim, i + 1)
                && (|q.rest| < |p.rest| || (|q.rest| == |p.rest| && |q.buf| < |p.buf|))
            else r == Done(q, !result.More?)
  {
    FillStops(p.buf, p.rest, lim(i));
  }

  /** The loop case by case, and what makes each further pass smaller. */
  lemma LoopUnfolds<T>(p: Pump<T>, sps: nat, unit: Unit, lim: nat -> Limit, i: nat)
    requires sps > 0
    ensures var (f, result) := Refilled(p, lim(i));
            var q := Drop(f, sps, unit);
            var r := Loop(p, sps, unit, lim, i);
            if result.RetryNeeded? then r == Loop(f, sps, unit, lim, i + 1) && |f.rest| < |p.rest|
            else if p.skip == 0 then r == Done(f, !result.More?)
            else if q.buf != [] then r == Done(q, !result.More?)
            else if q.rest == [] && q.skip > 0 then r == Hangs(q)
            else
              && r == Loop(q, sps, unit, lim, i + 1)
              && (|q.rest| < |p.rest| || (|q.rest| == |p.rest| && |q.buf| < |p.buf|))
  {
    FillStops(p.buf, p.rest, lim(i));
  }

  // ---------------------------------------------------------------------------------------------
  // Hangs is right: from such a state every further pass changes nothing the loop looks at
  // ---------------------------------------------------------------------------------------------

  lemma HangIsForever<T>(q: Pump<T>, sps: nat, unit: Unit, limit: Limit)
    requires sps > 0 && q.buf == [] && q.rest == [] && q.skip > 0
    ensures var (f, result) := Refilled(q, limit);
            && result.End? && f == q
            && Drop(q, sps, unit) == q.(passes := q.passes + 1)
  {
    var m := Elements(DurToSamples(sps, q.skip), unit);
    assert Min(m, 0) == 0;
    assert q.dropped + q.buf[..0] == q.dropped;
  }

  // ---------------------------------------------------------------------------------------------
  // Nothing is lost, and the end is reported truthfully
  // ---------------------------------------------------------------------------------------------

  lemma DropConserves<T>(p: Pump<T>, sps: nat, unit: Unit)
    requires sps > 0
    ensures var q := Drop(p, sps, unit); q.dropped + q.buf == p.dropped + p.buf
  {
    var n := Min(Elements(DurToSamples(sps, p.skip), unit), |p.buf|);
    assert p.buf == p.buf[..n] + p.buf[n..];
    Assoc(p.dropped, p.buf[..n], p.buf[n..]);
  }

  /** Dropped, kept and still undecoded elements are the stream, in order. */
  lemma {:induction false} LoopConserves<T>(p: Pump<T>, sps: nat, unit: Unit, lim: nat -> Limit, i: nat)
    requires sps > 0
    ensures var q := Loop(p, sps, unit, lim, i).state;
            q.dropped + q.buf + Packets(q.rest) == p.dropped + p.buf + Packets(p.rest)
    decreases |p.rest|, |p.buf|
  {
    LoopUnfolds(p, sps, unit, lim, i);
    FillConserves(p.buf, p.rest, lim(i));
    var (f, result) := Refilled(p, lim(i));
    Assoc(p.dropped, p.buf, Packets(p.rest));
    Assoc(p.dropped, f.buf, Packets(f.rest));
    if result.RetryNeeded? {
      LoopConserves(f, sps, unit, lim, i + 1);
    } else if p.skip > 0 {
      var q := Drop(f, sps, unit);
      DropConserves(f, sps, unit);
      if q.buf == [] && !(q.rest == [] && q.skip > 0) {
        LoopConserves(q, sps, unit, lim, i + 1);
      }
    }
  }

  /** The loop leaves with an empty buffer only at the end of decoding, and reports the end without
      a stream error only when the whole stream has been decoded. */
  lemma {:induction false} LoopEnds<T>(p: Pump<T>, sps: nat, unit: Unit, lim: nat -> Limit, i: nat)
    requires sps > 0
    ensures var r := Loop(p, sps, unit, lim, i);
            && p.failures <= r.state.failures
            && (r.Done? && !r.eod ==> r.state.buf != [])
            && (r.Done? && r.eod && r.state.failures == p.failures ==> r.state.rest == [])
            && (r.Hangs? ==> p.skip > 0 && r.state.skip > 0 && r.state.buf == [] && r.state.rest == [])
    decreases |p.rest|, |p.buf|
  {
    FillStops(p.buf, p.rest, lim(i));
    LoopUnfolds(p, sps, unit, lim, i);
    var (f, result) := Refilled(p, lim(i));
    if result.RetryNeeded? {
      LoopEnds(f, sps, unit, lim, i + 1);
    } else if p.skip > 0 {
      var q := Drop(f, sps, unit);
      if q.buf == [] && !(q.rest == [] && q.skip > 0) {
        LoopEnds(q, sps, unit, lim, i + 1);
      }
    }
  }

  // ---------------------------------------------------------------------------------------------
  // How much is dropped
  // ---------------------------------------------------------------------------------------------

  /** ms times sps, by repeated addition: a thousand times the samples in ms milliseconds. */
  function Span(ms: int, sps: nat): nat {
    if ms <= 0 then 0 else Span(ms - 1, sps) + sps
  }

  lemma {:induction false} SpanIsProduct(ms: nat, sps: nat)
    ensures Span(ms, sps) == ms * sps
  {
    if ms > 0 {
      SpanIsProduct(ms - 1, sps);
      assert ms * sps == (ms - 1) * sps + sps;
    }
  }

  lemma {:induction false} SpanAdds(a: nat, b: nat, sps: nat)
    ensures Span(a + b, sps) == Span(a, sps) + Span(b, sps)
  {
    if b > 0 {
      SpanAdds(a, b - 1, sps);
    }
  }

  /** m samples, dropped in k passes, last at least a milliseconds and less than a + k. */
  predicate Lasts(m: int, a: int, k: int, sps: nat) {
    a >= 0 && k >= 0 && Span(a, sps) <= m * 1000 && m * 1000 + k <= Span(a + k, sps)
  }

  /** More passes only widen the bound. */
  lemma {:induction false} LastsWidens(m: int, a: int, k: int, k': int, sps: nat)
    requires sps > 0 && Lasts(m, a, k, sps) && k <= k'
    ensures Lasts(m, a, k', sps)
    decreases k'
  {
    if k < k' {
      LastsWidens(m, a, k, k' - 1, sps);
    }
  }

  lemma LastsSum(m: int, a: int, k: int, m': int, a': int, k': int, mm: int, aa: int, kk: int, sps: nat)
    requires sps > 0 && Lasts(m, a, k, sps) && Lasts(m', a', k', sps)
    requires mm == m + m' && aa == a + a' && kk >= k + k'
    ensures Lasts(mm, aa, kk, sps)
  {
    SpanAdds(a, a', sps);
    SpanAdds(a + k, a' + k', sps);
    assert a + k + (a' + k') == aa + (k + k');
    LastsWidens(mm, aa, k + k', kk, sps);
  }

  /** What happens between p and q, then between q and z. */
  lemma LastsAdds<T>(p: Pump<T>, q: Pump<T>, z: Pump<T>, sps: nat)
    requires sps > 0 && Served(p, q, sps) && Served(q, z, sps)
    ensures Served(p, z, sps)
  {
    LastsSum(q.skipped - p.skipped, q.offset - p.offset, q.passes - p.passes,
             z.skipped - q.skipped, z.offset - q.offset, z.passes - q.passes,
             z.skipped - p.skipped, z.offset - p.offset, z.passes - p.passes, sps);
  }

  predicate Served<T>(p: Pump<T>, q: Pump<T>, sps: nat) {
    Lasts(q.skipped - p.skipped, q.offset - p.offset, q.passes - p.passes, sps)
  }

  lemma RefillServesNothing<T>(p: Pump<T>, f: Pump<T>, sps: nat)
    requires f.skipped == p.skipped && f.offset == p.offset && f.passes == p.passes
    ensures Served(p, f, sps)
  {
  }

  /** One pass moves the position by at most what was asked, and by all of it to within a
      millisecond unless it emptied the buffer. */
  lemma DropOffset<T>(p: Pump<T>, sps: nat, unit: Unit)
    requires sps > 0
    ensures var q := Drop(p, sps, unit);
            && q.offset >= p.offset && q.skip + q.offset == p.skip + p.offset
            && (sps >= 1000 && q.buf != [] ==> q.skip <= 1)
  {
    var want := DurToSamples(sps, p.skip);
    var n := Min(Elements(want, unit), |p.buf|);
    assert Samples(n, unit) <= want && (n == Elements(want, unit) ==> Samples(n, unit) == want);
    SamplesToDurMono(sps, Samples(n, unit), want);
    DurationRoundTrip(sps, p.skip);
  }

  lemma DropAmount<T>(p: Pump<T>, sps: nat, unit: Unit)
    requires sps > 0
    ensures Served(p, Drop(p, sps, unit), sps)
  {
    var m := Samples(Min(Elements(DurToSamples(sps, p.skip), unit), |p.buf|), unit);
    var a := SamplesToDur(sps, m);
    QuotientBounds(m * 1000, sps);
    SpanIsProduct(a, sps);
  }

  /** The position never moves by more than was asked; unless the loop hangs, by all of it to within a
      millisecond, when there are at least a thousand samples a second. */
  lemma {:induction false} LoopOffset<T>(p: Pump<T>, sps: nat, unit: Unit, lim: nat -> Limit, i: nat)
    requires sps > 0
    ensures var r := Loop(p, sps, unit, lim, i);
            var q := r.state;
            && q.offset >= p.offset && q.skip + q.offset == p.skip + p.offset
            && (sps >= 1000 && r.Done? && p.skip > 0 ==> q.skip <= 1)
    decreases |p.rest|, |p.buf|
  {
    LoopUnfolds(p, sps, unit, lim, i);
    var (f, result) := Refilled(p, lim(i));
    if result.RetryNeeded? {
      LoopOffset(f, sps, unit, lim, i + 1);
    } else if p.skip > 0 {
      var q := Drop(f, sps, unit);
      DropOffset(f, sps, unit);
      if q.buf == [] && !(q.rest == [] && q.skip > 0) {
        LoopOffset(q, sps, unit, lim, i + 1);
      }
    }
  }

  /** Each pass after the first decodes something new. */
  lemma {:induction false} LoopPasses<T>(p: Pump<T>, sps: nat, unit: Unit, lim: nat -> Limit, i: nat)
    requires sps > 0
    ensures var q := Loop(p, sps, unit, lim, i).state;
            && (if p.skip == 0 then q.passes == p.passes else q.passes > p.passes)
            && q.passes <= p.passes + |p.rest| - |q.rest| + (if p.buf == [] && p.rest != [] then 0 else 1)
    decreases |p.rest|, |p.buf|
  {
    LoopUnfolds(p, sps, unit, lim, i);
    FillStops(p.buf, p.rest, lim(i));
    var (f, result) := Refilled(p, lim(i));
    if result.RetryNeeded? {
      LoopPasses(f, sps, unit, lim, i + 1);
    } else if p.skip > 0 {
      var q := Drop(f, sps, unit);
      if q.buf == [] && !(q.rest == [] && q.skip > 0) {
        LoopPasses(q, sps, unit, lim, i + 1);
      }
    }
  }

  /** A loop that serves no skip drops nothing. */
  lemma {:induction false} LoopDropsOnlyInPasses<T>(p: Pump<T>, sps: nat, unit: Unit, lim: nat -> Limit, i: nat)
    requires sps > 0
    ensures var q := Loop(p, sps, unit, lim, i).state; q.passes == p.passes ==> q.dropped == p.dropped
    decreases |p.rest|
  {
    FillStops(p.buf, p.rest, lim(i));
    var (f, result) := Refilled(p, lim(i));
    LoopPasses(p, sps, unit, lim, i);
    if result.RetryNeeded? {
      LoopDropsOnlyInPasses(f, sps, unit, lim, i + 1);
    }
  }

  /** Over k passes the samples dropped last at least as long as the position moved, and less than
      k milliseconds longer. */
  lemma {:induction false} LoopAmount<T>(p: Pump<T>, sps: nat, unit: Unit, lim: nat -> Limit, i: nat)
    requires sps > 0
    ensures Served(p, Loop(p, sps, unit, lim, i).state, sps)
    decreases |p.rest|, |p.buf|
  {
    LoopUnfolds(p, sps, unit, lim, i);
    var (f, result) := Refilled(p, lim(i));
    RefillServesNothing(p, f, sps);
    if result.RetryNeeded? {
      LoopAmount(f, sps, unit, lim, i + 1);
      LastsAdds(p, f, Loop(f, sps, unit, lim, i + 1).state, sps);
    } else if p.skip > 0 {
      var q := Drop(f, sps, unit);
      DropAmount(f, sps, unit);
      LastsAdds(p, f, q, sps);
      if q.buf == [] && !(q.rest == [] && q.skip > 0) {
        LoopAmount(q, sps, unit, lim, i + 1);
        LastsAdds(p, q, Loop(q, sps, unit, lim, i + 1).state, sps);
      }
    }
  }

  // ---------------------------------------------------------------------------------------------
  // Whole samples
  // ---------------------------------------------------------------------------------------------

  predicate WholePackets<T>(rest: seq<Outcome<T>>, unit: Unit) {
    forall j :: 0 <= j < |rest| && rest[j].Packet? ==> WholeSamples(|rest[j].data|, unit)
  }

  lemma {:induction false} FillWhole<T>(buf: seq<T>, rest: seq<Outcome<T>>, limit: nat, unit: Unit)
    requires WholeSamples(|buf|, unit) && WholePackets(rest, unit)
    ensures var f := Fill(buf, rest, limit); WholeSamples(|f.buf|, unit) && WholePackets(f.rest, unit)
    decreases |rest|
  {
    if |buf| < limit && rest != [] {
      assert WholePackets(rest[1..], unit);
      if rest[0].Packet? {
        FillWhole(buf + rest[0].data, rest[1..], limit, unit);
      }
    }
  }

  /** Between p and q, elements were dropped as whole samples. */
  predicate Whole<T>(p: Pump<T>, q: Pump<T>, unit: Unit) {
    && |q.dropped| - |p.dropped| == Elements(q.skipped - p.skipped, unit)
    && WholeSamples(|q.buf|, unit)
  }

  lemma DropWhole<T>(p: Pump<T>, sps: nat, unit: Unit)
    requires sps > 0 && WholeSamples(|p.buf|, unit)
    ensures Whole(p, Drop(p, sps, unit), unit)
  {
    var n := Min(Elements(DurToSamples(sps, p.skip), unit), |p.buf|);
    assert WholeSamples(n, unit);
  }

  lemma WholeAdds<T>(p: Pump<T>, q: Pump<T>, z: Pump<T>, unit: Unit)
    requires Whole(p, q, unit) && Whole(q, z, unit)
    ensures Whole(p, z, unit)
  {
  }

  /** With whole packets the elements dropped are exactly the samples counted. */
  lemma {:induction false} LoopWhole<T>(p: Pump<T>, sps: nat, unit: Unit, lim: nat -> Limit, i: nat)
    requires sps > 0 && WholeSamples(|p.buf|, unit) && WholePackets(p.rest, unit)
    ensures Whole(p, Loop(p, sps, unit, lim, i).state, unit)
    decreases |p.rest|, |p.buf|
  {
    LoopUnfolds(p, sps, unit, lim, i);
    FillWhole(p.buf, p.rest, lim(i), unit);
    var (f, result) := Refilled(p, lim(i));
    assert Whole(p, f, unit);
    if result.RetryNeeded? {
      LoopWhole(f, sps, unit, lim, i + 1);
      WholeAdds(p, f, Loop(f, sps, unit, lim, i + 1).state, unit);
    } else if p.skip > 0 {
      var q := Drop(f, sps, unit);
      DropWhole(f, sps, unit);
      WholeAdds(p, f, q, unit);
      if q.buf == [] && !(q.rest == [] && q.skip > 0) {
        LoopWhole(q, sps, unit, lim, i + 1);
        WholeAdds(p, q, Loop(q, sps, unit, lim, i + 1).state, unit);
      }
    }
  }

  /** Bounds on a number of dropped elements, from bounds on the milliseconds they stand for. */
  lemma LastsBounds(m: nat, a: nat, k: nat, low: nat, high: nat, sps: nat, unit: Unit)
    requires Lasts(m, a, k, sps) && low <= a && a + k <= high && k >= 1
    ensures low * sps * unit <= unit * m * 1000 < high * sps * unit
  {
    SpanIsProduct(a, sps);
    SpanIsProduct(a + k, sps);
    MulMono(low, a, sps);
    MulMono(a + k, high, sps);
    assert low * sps <= m * 1000 < high * sps;
  }

  /** A request of d milliseconds: unless the loop hangs, the position offset grows by d or d - 1,
      and in k passes it drops at least d - 1 and less than d + k milliseconds of samples. */
  lemma SkipServed<T>(p: Pump<T>, sps: nat, unit: Unit, lim: nat -> Limit)
    requires sps >= 1000 && WholeSamples(|p.buf|, unit) && WholePackets(p.rest, unit)
    requires p.skip > 0 && p.dropped == [] && p.skipped == p.passes == 0
    requires Loop(p, sps, unit, lim, 0).Done?
    ensures var q := Loop(p, sps, unit, lim, 0).state;
            && p.skip - 1 <= q.offset - p.offset <= p.skip
            && (p.skip - 1) * sps * unit <= |q.dropped| * 1000 < (p.skip + q.passes) * sps * unit
  {
    LoopOffset(p, sps, unit, lim, 0);
    LoopAmount(p, sps, unit, lim, 0);
    LoopWhole(p, sps, unit, lim, 0);
    LoopPasses(p, sps, unit, lim, 0);
    var q := Loop(p, sps, unit, lim, 0).state;
    LastsBounds(q.skipped, q.offset - p.offset, q.passes, p.skip - 1, p.skip + q.passes, sps, unit);
  }
}
