/** What a skip does, exactly: when the fill-and-skip loop hangs, when it drops whole frames, and how
    many stream errors it reports. */
module SkipTheorems {
  import opened Bytes
  import opened Arith
  import opened Decoder
  import opened SkipLoop

  // ---------------------------------------------------------------------------------------------
  // When the loop hangs
  // ---------------------------------------------------------------------------------------------

  /** The whole milliseconds of the successive fills of a stream, each into an emptied buffer. */
  function WholeMs<T>(buf: seq<T>, rest: seq<Outcome<T>>, sps: nat, unit: Unit, lim: nat -> Limit, i: nat): nat
    requires sps > 0
    decreases |rest|, |buf|
  {
    FillStops(buf, rest, lim(i));
    var f := Fill(buf, rest, lim(i));
    if f.result.RetryNeeded? then WholeMs(f.buf, f.rest, sps, unit, lim, i + 1)
    else
      SamplesToDur(sps, Samples(|f.buf|, unit))
      + (if f.rest == [] then 0 else WholeMs([], f.rest, sps, unit, lim, i + 1))
  }

  /** A pass that leaves something behind was asked for no more than its buffer; one that empties the
      buffer takes the buffer's whole milliseconds off the skip. */
  lemma DropCases<T>(p: Pump<T>, sps: nat, unit: Unit)
    requires sps > 0 && WholeSamples(|p.buf|, unit)
    ensures var q := Drop(p, sps, unit);
            var whole := SamplesToDur(sps, Samples(|p.buf|, unit));
            && (q.buf == [] <==> Elements(DurToSamples(sps, p.skip), unit) >= |p.buf|)
            && (if q.buf != [] then p.skip <= whole else q.skip == p.skip - whole)
  {
    var want, m := DurToSamples(sps, p.skip), Samples(|p.buf|, unit);
    DropOffset(p, sps, unit);
    if Elements(want, unit) < |p.buf| {
      assert want + 1 <= m;
      QuotientBounds(sps * p.skip, 1000);
      assert sps * p.skip == p.skip * sps;
      QuotientAtLeast(m * 1000, sps, p.skip);
    }
  }

  /** The loop hangs exactly when the skip is longer than the whole milliseconds of the fills. */
  lemma {:induction false} LoopHangsIff<T>(p: Pump<T>, sps: nat, unit: Unit, lim: nat -> Limit, i: nat)
    requires sps > 0 && WholeSamples(|p.buf|, unit) && WholePackets(p.rest, unit)
    ensures Loop(p, sps, unit, lim, i).Hangs? <==> p.skip > WholeMs(p.buf, p.rest, sps, unit, lim, i)
    decreases |p.rest|, |p.buf|
  {
    LoopUnfolds(p, sps, unit, lim, i);
    FillWhole(p.buf, p.rest, lim(i), unit);
    var (f, result) := Refilled(p, lim(i));
    if result.RetryNeeded? {
      LoopHangsIff(f, sps, unit, lim, i + 1);
    } else if p.skip > 0 {
      var q := Drop(f, sps, unit);
      DropCases(f, sps, unit);
      if q.buf == [] && !(q.rest == [] && q.skip > 0) {
        LoopHangsIff(q, sps, unit, lim, i + 1);
      }
    }
  }

  /** At the end of a stream every skip hangs. */
  lemma SkipAtEndHangs<T>(p: Pump<T>, sps: nat, unit: Unit, lim: nat -> Limit, i: nat)
    requires sps > 0 && p.buf == [] && p.rest == [] && p.skip > 0
    ensures Loop(p, sps, unit, lim, i).Hangs?
  {
    LoopHangsIff(p, sps, unit, lim, i);
  }

  /** One buffer of m samples lasts its whole milliseconds and less than one more. */
  lemma LastsOne(m: nat, sps: nat)
    requires sps > 0
    ensures Lasts(m, SamplesToDur(sps, m), 1, sps)
  {
    var a := SamplesToDur(sps, m);
    QuotientBounds(m * 1000, sps);
    SpanIsProduct(a, sps);
  }

  lemma {:induction false} PacketsAreWhole<T>(rest: seq<Outcome<T>>, unit: Unit)
    requires WholePackets(rest, unit)
    ensures WholeSamples(|Packets(rest)|, unit)
  {
    if rest != [] {
      assert WholePackets(rest[1..], unit);
      PacketsAreWhole(rest[1..], unit);
    }
  }

  lemma SamplesAdd(x: nat, y: nat, unit: Unit)
    requires WholeSamples(x, unit)
    ensures Samples(x + y, unit) == Samples(x, unit) + Samples(y, unit)
  {
  }

  /** The samples held in a buffer and in what is to be decoded. */
  function Held<T>(buf: seq<T>, rest: seq<Outcome<T>>, unit: Unit): nat {
    Samples(|buf| + |Packets(rest)|, unit)
  }

  /** A fill keeps them. */
  lemma FillHolds<T>(buf: seq<T>, rest: seq<Outcome<T>>, limit: nat, unit: Unit)
    requires WholeSamples(|buf|, unit) && WholePackets(rest, unit)
    ensures var f := Fill(buf, rest, limit);
            Held(buf, rest, unit) == Held(f.buf, f.rest, unit) == Samples(|f.buf|, unit) + Held([], f.rest, unit)
  {
    FillWhole(buf, rest, limit, unit);
    FillConserves(buf, rest, limit);
    var f := Fill(buf, rest, limit);
    assert |f.buf + Packets(f.rest)| == |buf + Packets(rest)|;
    SamplesAdd(|f.buf|, |Packets(f.rest)|, unit);
  }

  /** At most this many fills: each after the first decodes something new. */
  function Fills<T>(buf: seq<T>, rest: seq<Outcome<T>>): nat {
    |rest| + (if buf == [] && rest != [] then 0 else 1)
  }

  /** The whole milliseconds of the fills are those of the stream, less under one for each fill. */
  lemma {:induction false} WholeMsLasts<T>(
    buf: seq<T>, rest: seq<Outcome<T>>, sps: nat, unit: Unit, lim: nat -> Limit, i: nat)
    requires sps > 0 && WholeSamples(|buf|, unit) && WholePackets(rest, unit)
    ensures Lasts(Held(buf, rest, unit), WholeMs(buf, rest, sps, unit, lim, i), Fills(buf, rest), sps)
    decreases |rest|, |buf|
  {
    FillStops(buf, rest, lim(i));
    FillWhole(buf, rest, lim(i), unit);
    FillHolds(buf, rest, lim(i), unit);
    var f := Fill(buf, rest, lim(i));
    var m, a, k := Held(buf, rest, unit), WholeMs(buf, rest, sps, unit, lim, i), Fills(buf, rest);
    if f.result.RetryNeeded? {
      WholeMsLasts(f.buf, f.rest, sps, unit, lim, i + 1);
      LastsWidens(m, a, Fills(f.buf, f.rest), k, sps);
    } else if f.rest == [] {
      LastsFill(Samples(|f.buf|, unit), 0, 0, 0, m, a, k, sps);
    } else {
      WholeMsLasts([], f.rest, sps, unit, lim, i + 1);
      LastsFill(Samples(|f.buf|, unit), Held([], f.rest, unit), WholeMs([], f.rest, sps, unit, lim, i + 1),
                |f.rest|, m, a, k, sps);
    }
  }

  /** A fill of m samples, and then what lasts a' milliseconds in k' fills. */
  lemma LastsFill(m: nat, m': int, a': int, k': int, mm: int, aa: int, kk: int, sps: nat)
    requires sps > 0 && Lasts(m', a', k', sps)
    requires mm == m + m' && aa == SamplesToDur(sps, m) + a' && kk >= 1 + k'
    ensures Lasts(mm, aa, kk, sps)
  {
    LastsOne(m, sps);
    LastsSum(m, SamplesToDur(sps, m), 1, m', a', k', mm, aa, kk, sps);
  }

  /** However the packets are cut: a skip of d milliseconds with n outcomes to come never hangs when
      the stream still holds d + n milliseconds of samples, and always when it holds less than d. */
  lemma WhenSkipHangs<T>(p: Pump<T>, sps: nat, unit: Unit, lim: nat -> Limit)
    requires sps > 0 && WholeSamples(|p.buf|, unit) && WholePackets(p.rest, unit)
    ensures var left := |p.buf| + |Packets(p.rest)|;
            && (left * 1000 >= (p.skip + |p.rest|) * sps * unit ==> Loop(p, sps, unit, lim, 0).Done?)
            && (left * 1000 < p.skip * sps * unit ==> Loop(p, sps, unit, lim, 0).Hangs?)
  {
    LoopHangsIff(p, sps, unit, lim, 0);
    WholeMsBounds(p.buf, p.rest, p.skip, sps, unit, lim);
  }

  /** The whole milliseconds of the fills against the milliseconds of the stream. */
  lemma WholeMsBounds<T>(
    buf: seq<T>, rest: seq<Outcome<T>>, ms: nat, sps: nat, unit: Unit, lim: nat -> Limit)
    requires sps > 0 && WholeSamples(|buf|, unit) && WholePackets(rest, unit)
    ensures var left, whole := (|buf| + |Packets(rest)|) * 1000, WholeMs(buf, rest, sps, unit, lim, 0);
            && (ms > whole ==> left < (ms + |rest|) * sps * unit)
            && (ms <= whole ==> ms * sps * unit <= left)
  {
    WholeMsLasts(buf, rest, sps, unit, lim, 0);
    HeldIsWhole(buf, rest, unit);
    var m, a := Held(buf, rest, unit), WholeMs(buf, rest, sps, unit, lim, 0);
    LastsWidens(m, a, Fills(buf, rest), |rest| + 1, sps);
    if ms > a {
      LastsBounds(m, a, |rest| + 1, a, ms + |rest|, sps, unit);
    } else {
      LastsBounds(m, a, |rest| + 1, ms, a + |rest| + 1, sps, unit);
    }
  }

  lemma HeldIsWhole<T>(buf: seq<T>, rest: seq<Outcome<T>>, unit: Unit)
    requires WholeSamples(|buf|, unit) && WholePackets(rest, unit)
    ensures |buf| + |Packets(rest)| == unit * Held(buf, rest, unit)
  {
    PacketsAreWhole(rest, unit);
    ElementsAreProduct(|buf| + |Packets(rest)|, unit);
  }

  lemma ElementsAreProduct(n: nat, unit: Unit)
    requires WholeSamples(n, unit)
    ensures n == unit * Samples(n, unit)
  {
    if unit == 4 {
      assert n == 4 * (n / 4);
    }
  }

  // ---------------------------------------------------------------------------------------------
  // When a skip drops whole frames
  // ---------------------------------------------------------------------------------------------

  /** How a skip is served: the samples in the fills it empties, and the milliseconds it still has to
      skip when it comes to a fill that it does not empty; none when it empties them all. */
  datatype Service = Service(emptied: nat, left: nat)

  /** Each fill that is emptied takes its whole milliseconds off the request. */
  function Serve<T>(
    skip: nat, buf: seq<T>, rest: seq<Outcome<T>>, sps: nat, unit: Unit, lim: nat -> Limit, i: nat): Service
    requires sps > 0
    decreases |rest|, |buf|
  {
    FillStops(buf, rest, lim(i));
    var f := Fill(buf, rest, lim(i));
    var n := Samples(|f.buf|, unit);
    if skip == 0 then Service(0, 0)
    else if f.result.RetryNeeded? then Serve(skip, f.buf, f.rest, sps, unit, lim, i + 1)
    else if Elements(DurToSamples(sps, skip), unit) < |f.buf| then Service(0, skip)
    else if f.rest == [] then Service(n, 0)
    else
      var more := Serve(Max(skip - SamplesToDur(sps, n), 0), [], f.rest, sps, unit, lim, i + 1);
      more.(emptied := n + more.emptied)
  }

  /** Whole frames in elements are whole samples, and whole frames in samples. */
  lemma FramesOfElements(x: nat, channels: nat, unit: Unit)
    requires channels > 0 && x % (channels * unit) == 0
    ensures WholeSamples(x, unit) && Samples(x, unit) % channels == 0
  {
    var k := x / (channels * unit);
    assert x == channels * unit * k;
    if unit == 4 {
      assert channels * 4 * k == channels * k * 4;
    }
    RemainderOfShifted(k, 0, channels);
  }

  lemma ElementsOfFrames(m: nat, channels: nat, unit: Unit)
    requires channels > 0
    ensures Elements(m, unit) % (channels * unit) == 0 <==> m % channels == 0
  {
    assert Elements(m, unit) == unit * m;
    if m % channels == 0 {
      var k := m / channels;
      assert m == channels * k;
      assert unit * (channels * k) == channels * unit * k;
      RemainderOfShifted(k, 0, channels * unit);
    }
    if unit * m % (channels * unit) == 0 {
      FramesOfElements(unit * m, channels, unit);
    }
  }

  /** Every packet holds whole frames, of one sample per channel. */
  predicate WholeFramePackets<T>(rest: seq<Outcome<T>>, frame: nat)
    requires frame > 0
  {
    forall j :: 0 <= j < |rest| && rest[j].Packet? ==> |rest[j].data| % frame == 0
  }

  lemma {:induction false} FillFrames<T>(buf: seq<T>, rest: seq<Outcome<T>>, limit: nat, frame: nat)
    requires frame > 0 && |buf| % frame == 0 && WholeFramePackets(rest, frame)
    ensures var f := Fill(buf, rest, limit); |f.buf| % frame == 0 && WholeFramePackets(f.rest, frame)
    decreases |rest|
  {
    if |buf| < limit && rest != [] {
      assert WholeFramePackets(rest[1..], frame);
      if rest[0].Packet? {
        RemainderAfterWhole(|buf|, |rest[0].data|, frame);
        FillFrames(buf + rest[0].data, rest[1..], limit, frame);
      }
    }
  }

  lemma WholeFramesAreSamples<T>(rest: seq<Outcome<T>>, channels: nat, unit: Unit)
    requires channels > 0 && WholeFramePackets(rest, channels * unit)
    ensures WholePackets(rest, unit)
  {
    forall j | 0 <= j < |rest| && rest[j].Packet?
      ensures WholeSamples(|rest[j].data|, unit)
    {
      FramesOfElements(|rest[j].data|, channels, unit);
    }
  }

  predicate WholeFrames(samples: int, channels: nat) {
    samples == 0 || (samples >= channels > 0 && WholeFrames(samples - channels, channels))
  }

  lemma {:induction false} WholeFramesIff(samples: nat, channels: nat)
    requires channels > 0
    ensures WholeFrames(samples, channels) <==> samples % channels == 0
    decreases samples
  {
    if samples >= channels {
      WholeFramesIff(samples - channels, channels);
      RemainderOfShifted(1, 0, channels);
      assert channels * 1 + 0 == channels;
      RemainderAfterWhole(channels, samples - channels, channels);
    } else {
      RemainderOfShifted(0, samples, channels);
    }
  }

  lemma {:induction false} WholeFramesAdd(a: int, b: int, channels: nat)
    requires WholeFrames(a, channels) && WholeFrames(b, channels)
    ensures WholeFrames(a + b, channels)
    decreases a
  {
    if a > 0 {
      WholeFramesAdd(a - channels, b, channels);
    }
  }

  lemma NothingIsWhole(n: nat)
    requires n > 0
    ensures 0 % n == 0
  {
    RemainderOfShifted(0, 0, n);
  }

  /** One pass drops its whole buffer, or the samples of the milliseconds it was asked for. */
  lemma DropSamples<T>(p: Pump<T>, sps: nat, unit: Unit)
    requires sps > 0
    ensures var q := Drop(p, sps, unit);
            q.skipped - p.skipped == if q.buf != [] then DurToSamples(sps, p.skip) else Samples(|p.buf|, unit)
  {
    var want := DurToSamples(sps, p.skip);
    assert Samples(Elements(want, unit), unit) == want;
  }

  lemma {:induction false} NoSkipDropsNothing<T>(p: Pump<T>, sps: nat, unit: Unit, lim: nat -> Limit, i: nat)
    requires sps > 0 && p.skip == 0
    ensures Loop(p, sps, unit, lim, i).state.skipped == p.skipped
    decreases |p.rest|
  {
    FillStops(p.buf, p.rest, lim(i));
    var (f, result) := Refilled(p, lim(i));
    if result.RetryNeeded? {
      NoSkipDropsNothing(f, sps, unit, lim, i + 1);
    }
  }

  lemma BufferIsFrames(x: nat, channels: nat, unit: Unit)
    requires channels > 0 && x % (channels * unit) == 0
    ensures WholeSamples(x, unit) && WholeFrames(Samples(x, unit), channels)
  {
    FramesOfElements(x, channels, unit);
    WholeFramesIff(Samples(x, unit), channels);
  }

  /** The fills that are emptied are whole frames. */
  lemma {:induction false} EmptiedIsFrames<T>(skip: nat, buf: seq<T>, rest: seq<Outcome<T>>, sps: nat,
                                              channels: nat, frame: nat, unit: Unit, lim: nat -> Limit, i: nat)
    requires sps > 0 && channels > 0 && frame == channels * unit
    requires |buf| % frame == 0 && WholeFramePackets(rest, frame)
    ensures WholeFrames(Serve(skip, buf, rest, sps, unit, lim, i).emptied, channels)
    decreases |rest|, |buf|
  {
    FillStops(buf, rest, lim(i));
    FillFrames(buf, rest, lim(i), frame);
    var f := Fill(buf, rest, lim(i));
    if f.result.RetryNeeded? {
      EmptiedIsFrames(skip, f.buf, f.rest, sps, channels, frame, unit, lim, i + 1);
    } else {
      BufferIsFrames(|f.buf|, channels, unit);
      if f.rest != [] {
        NothingIsWhole(frame);
        var left := Max(skip - SamplesToDur(sps, Samples(|f.buf|, unit)), 0);
        EmptiedIsFrames(left, [], f.rest, sps, channels, frame, unit, lim, i + 1);
        WholeFramesAdd(Samples(|f.buf|, unit), Serve(left, [], f.rest, sps, unit, lim, i + 1).emptied, channels);
      }
    }
  }

  /** One pass of the loop, against one fill of the service. */
  lemma PassServes<T>(p: Pump<T>, sps: nat, unit: Unit, lim: nat -> Limit, i: nat)
    requires sps > 0 && WholeSamples(|p.buf|, unit) && WholePackets(p.rest, unit)
    requires p.skip > 0 && !Refilled(p, lim(i)).1.RetryNeeded?
    ensures var f := Refilled(p, lim(i)).0;
            var q, n := Drop(f, sps, unit), Samples(|f.buf|, unit);
            var served := Serve(p.skip, p.buf, p.rest, sps, unit, lim, i);
            if q.buf != [] then served == Service(0, p.skip) && q.skipped == p.skipped + DurToSamples(sps, p.skip)
            else
              && q.skipped == p.skipped + n
              && if q.rest == [] then served == Service(n, 0)
                 else served == Serve(q.skip, [], q.rest, sps, unit, lim, i + 1).(emptied := served.emptied)
                      && served.emptied == n + Serve(q.skip, [], q.rest, sps, unit, lim, i + 1).emptied
  {
    FillWhole(p.buf, p.rest, lim(i), unit);
    DropCases(Refilled(p, lim(i)).0, sps, unit);
    DropSamples(Refilled(p, lim(i)).0, sps, unit);
  }

  /** The loop drops the fills it empties and then the samples of the milliseconds left. */
  lemma {:induction false} LoopServes<T>(p: Pump<T>, sps: nat, unit: Unit, lim: nat -> Limit, i: nat)
    requires sps > 0 && WholeSamples(|p.buf|, unit) && WholePackets(p.rest, unit)
    ensures var served := Serve(p.skip, p.buf, p.rest, sps, unit, lim, i);
            Loop(p, sps, unit, lim, i).state.skipped
            == p.skipped + served.emptied + DurToSamples(sps, served.left)
    decreases |p.rest|, |p.buf|
  {
    LoopUnfolds(p, sps, unit, lim, i);
    FillWhole(p.buf, p.rest, lim(i), unit);
    NothingToDrop(sps);
    var (f, result) := Refilled(p, lim(i));
    if p.skip == 0 {
      NoSkipDropsNothing(p, sps, unit, lim, i);
    } else if result.RetryNeeded? {
      LoopServes(f, sps, unit, lim, i + 1);
    } else {
      var q := Drop(f, sps, unit);
      PassServes(p, sps, unit, lim, i);
      if q.buf == [] && q.rest != [] {
        LoopServes(q, sps, unit, lim, i + 1);
      } else if q.buf == [] && q.skip == 0 {
        NoSkipDropsNothing(q, sps, unit, lim, i + 1);
      }
    }
  }

  lemma NothingToDrop(sps: nat)
    ensures DurToSamples(sps, 0) == 0
  {
  }

  /** Over frames of `channels` samples: what a skip drops is whole frames, so that the channels stay
      in step, if and only if the milliseconds left for the fill it does not empty convert to whole
      frames. When it empties them all nothing is left, and the condition holds. */
  lemma SkipKeepsFramesIff<T>(p: Pump<T>, rate: nat, channels: nat, unit: Unit, lim: nat -> Limit)
    requires rate * channels > 0 && p.dropped == [] && p.skipped == 0
    requires |p.buf| % (channels * unit) == 0 && WholeFramePackets(p.rest, channels * unit)
    ensures var sps := rate * channels;
            var left := Serve(p.skip, p.buf, p.rest, sps, unit, lim, 0).left;
            |Loop(p, sps, unit, lim, 0).state.dropped| % (channels * unit) == 0
            <==> channels * (rate * left % 1000) < 1000
  {
    var sps := rate * channels;
    var served := Serve(p.skip, p.buf, p.rest, sps, unit, lim, 0);
    var q := Loop(p, sps, unit, lim, 0).state;
    FramesOfElements(|p.buf|, channels, unit);
    WholeFramesAreSamples(p.rest, channels, unit);
    LoopServes(p, sps, unit, lim, 0);
    EmptiedIsFrames(p.skip, p.buf, p.rest, sps, channels, channels * unit, unit, lim, 0);
    FramesPlusLast(served.emptied, served.left, rate, channels);
    LoopWhole(p, sps, unit, lim, 0);
    ElementsOfFrames(q.skipped, channels, unit);
  }

  /** Whole frames and one conversion more. */
  lemma FramesPlusLast(frames: nat, ms: nat, rate: nat, channels: nat)
    requires channels > 0 && WholeFrames(frames, channels)
    ensures (frames + DurToSamples(rate * channels, ms)) % channels == 0 <==> channels * (rate * ms % 1000) < 1000
  {
    WholeFramesIff(frames, channels);
    RemainderAfterWhole(frames, DurToSamples(rate * channels, ms), channels);
    DurationIsWholeFramesIff(rate, channels, ms);
  }

  // ---------------------------------------------------------------------------------------------
  // How many stream errors are reported
  // ---------------------------------------------------------------------------------------------

  function StreamErrors<T>(rest: seq<Outcome<T>>): nat {
    if rest == [] then 0 else (if rest[0].StreamError? then 1 else 0) + StreamErrors(rest[1..])
  }

  lemma {:induction false} FillMeetsErrors<T>(buf: seq<T>, rest: seq<Outcome<T>>, limit: nat)
    ensures var f := Fill(buf, rest, limit);
            StreamErrors(rest) == StreamErrors(f.rest) + (if f.result.Failed? then 1 else 0)
    decreases |rest|
  {
    if |buf| < limit && rest != [] && rest[0].Packet? {
      FillMeetsErrors(buf + rest[0].data, rest[1..], limit);
    }
  }

  /** The loop reports every stream error it meets: one at most without a skip, and all that are left
      when it hangs. */
  lemma {:induction false} LoopReportsErrors<T>(p: Pump<T>, sps: nat, unit: Unit, lim: nat -> Limit, i: nat)
    requires sps > 0
    ensures var r := Loop(p, sps, unit, lim, i);
            && r.state.failures - p.failures == StreamErrors(p.rest) - StreamErrors(r.state.rest)
            && (p.skip == 0 ==> r.state.failures <= p.failures + 1)
            && (r.Hangs? ==> r.state.failures - p.failures == StreamErrors(p.rest))
    decreases |p.rest|, |p.buf|
  {
    LoopUnfolds(p, sps, unit, lim, i);
    FillMeetsErrors(p.buf, p.rest, lim(i));
    var (f, result) := Refilled(p, lim(i));
    if result.RetryNeeded? {
      LoopReportsErrors(f, sps, unit, lim, i + 1);
    } else if p.skip > 0 {
      var q := Drop(f, sps, unit);
      if q.buf == [] && !(q.rest == [] && q.skip > 0) {
        LoopReportsErrors(q, sps, unit, lim, i + 1);
      }
    }
  }

  /** The loop's state after k passes that met nothing but a stream error each. */
  function Erred<T>(p: Pump<T>, k: nat): Pump<T>
    requires k <= |p.rest|
  {
    p.(rest := p.rest[k..], failures := p.failures + k, passes := p.passes + k)
  }

  /** With a skip pending and nothing buffered, the loop reports a stream error and goes round. */
  lemma ErrorGoesRound<T>(p: Pump<T>, sps: nat, unit: Unit, lim: nat -> Limit, i: nat)
    requires sps > 0 && p.buf == [] && p.skip > 0 && |p.rest| > 1 && p.rest[0].StreamError?
    ensures Loop(p, sps, unit, lim, i) == Loop(Erred(p, 1), sps, unit, lim, i + 1)
  {
    LoopUnfolds(p, sps, unit, lim, i);
    var f := Refilled(p, lim(i)).0;
    assert Min(Elements(DurToSamples(sps, p.skip), unit), 0) == 0;
    assert f.dropped + f.buf[..0] == f.dropped;
    assert Drop(f, sps, unit) == f.(passes := p.passes + 1);
  }

  /** The last packet serves a skip that asks for less than it holds. */
  lemma PacketServesSkip<T>(p: Pump<T>, data: seq<T>, sps: nat, unit: Unit, lim: nat -> Limit, i: nat)
    requires sps > 0 && p.buf == [] && p.skip > 0 && p.rest == [Packet(data)]
    requires Elements(DurToSamples(sps, p.skip), unit) < |data|
    ensures var r := Loop(p, sps, unit, lim, i);
            && r.Done? && r.state.failures == p.failures && r.state.rest == []
            && |r.state.dropped| == |p.dropped| + Elements(DurToSamples(sps, p.skip), unit)
  {
    LoopUnfolds(p, sps, unit, lim, i);
    assert [] + data == data && p.rest[1..] == [];
    assert Fill(p.buf, p.rest, lim(i)) == Fill(data, [], lim(i));
    assert Refilled(p, lim(i)).0 == p.(buf := data, rest := []);
  }

  /** Two stream errors met by one skip are both reported. */
  lemma TwoErrorsInOneSkip<T>(p: Pump<T>, data: seq<T>, sps: nat, unit: Unit, lim: nat -> Limit, i: nat)
    requires sps > 0 && p.buf == [] && p.skip > 0 && p.rest == [StreamError, StreamError, Packet(data)]
    requires Elements(DurToSamples(sps, p.skip), unit) < |data|
    ensures var r := Loop(p, sps, unit, lim, i);
            r.Done? && r.state.failures == p.failures + 2 && r.state.rest == []
  {
    ErrorGoesRound(p, sps, unit, lim, i);
    assert p.rest[1..] == [StreamError, Packet(data)];
    ErrorThenPacket(Erred(p, 1), data, sps, unit, lim, i + 1);
  }

  lemma ErrorThenPacket<T>(p: Pump<T>, data: seq<T>, sps: nat, unit: Unit, lim: nat -> Limit, i: nat)
    requires sps > 0 && p.buf == [] && p.skip > 0 && p.rest == [StreamError, Packet(data)]
    requires Elements(DurToSamples(sps, p.skip), unit) < |data|
    ensures var r := Loop(p, sps, unit, lim, i);
            r.Done? && r.state.failures == p.failures + 1 && r.state.rest == []
  {
    ErrorGoesRound(p, sps, unit, lim, i);
    PacketServesSkip(Erred(p, 1), data, sps, unit, lim, i + 1);
  }

  function Reported<T>(p: Pump<T>, skip: nat, sps: nat, unit: Unit, lim: nat -> Limit): int
    requires sps > 0
  {
    Loop(p.(skip := skip), sps, unit, lim, 0).state.failures - p.failures
  }

  /** A stream gives at most one report whatever is skipped, hanging or not, if and only if it holds at
      most one error. */
  lemma ReportedOnceIff<T>(p: Pump<T>, sps: nat, unit: Unit, lim: nat -> Limit)
    requires sps > 0 && WholeSamples(|p.buf|, unit) && WholePackets(p.rest, unit)
    ensures (forall skip: nat :: Reported(p, skip, sps, unit, lim) <= 1) <==> StreamErrors(p.rest) <= 1
  {
    forall skip: nat
      ensures Reported(p, skip, sps, unit, lim) <= StreamErrors(p.rest)
    {
      LoopReportsErrors(p.(skip := skip), sps, unit, lim, 0);
    }
    var far := WholeMs(p.buf, p.rest, sps, unit, lim, 0) + 1;
    LoopHangsIff(p.(skip := far), sps, unit, lim, 0);
    LoopReportsErrors(p.(skip := far), sps, unit, lim, 0);
    assert Reported(p, far, sps, unit, lim) == StreamErrors(p.rest);
  }

  /** The error met by a fill, and the retries before it, when no skip is left. */
  function NextErrors<T>(buf: seq<T>, rest: seq<Outcome<T>>, lim: nat -> Limit, i: nat): (n: nat)
    ensures n <= 1
    decreases |rest|
  {
    FillStops(buf, rest, lim(i));
    var f := Fill(buf, rest, lim(i));
    if f.result.RetryNeeded? then NextErrors(f.buf, f.rest, lim, i + 1) else if f.result.Failed? then 1 else 0
  }

  /** The stream errors that a skip which returns can meet: those of every fill up to the last that
      lasts a millisecond, and of the next one when that lasts exactly its whole milliseconds. */
  function ErrorsInReach<T>(buf: seq<T>, rest: seq<Outcome<T>>, sps: nat, unit: Unit, lim: nat -> Limit, i: nat): nat
    requires sps > 0
    decreases |rest|, |buf|
  {
    FillStops(buf, rest, lim(i));
    var f := Fill(buf, rest, lim(i));
    var here, n := if f.result.Failed? then 1 else 0, Samples(|f.buf|, unit);
    if f.result.RetryNeeded? then ErrorsInReach(f.buf, f.rest, sps, unit, lim, i + 1)
    else if f.rest == [] then here
    else if WholeMs([], f.rest, sps, unit, lim, i + 1) > 0 then
      here + ErrorsInReach([], f.rest, sps, unit, lim, i + 1)
    else if n > 0 && SamplesToDur(sps, n) * sps == n * 1000 then here + NextErrors([], f.rest, lim, i + 1)
    else here
  }

  /** Without a skip the loop ends at the next fill, and with the end of decoding after an error. */
  lemma {:induction false} NoSkipReports<T>(p: Pump<T>, sps: nat, unit: Unit, lim: nat -> Limit, i: nat)
    requires sps > 0 && p.skip == 0
    ensures var r := Loop(p, sps, unit, lim, i);
            && r.Done? && r.state.failures == p.failures + NextErrors(p.buf, p.rest, lim, i)
            && (r.state.failures > p.failures ==> r.eod)
    ensures NextErrors(p.buf, p.rest, lim, i) <= ErrorsInReach(p.buf, p.rest, sps, unit, lim, i)
    ensures WholeMs(p.buf, p.rest, sps, unit, lim, i) == 0 ==>
              NextErrors(p.buf, p.rest, lim, i) == ErrorsInReach(p.buf, p.rest, sps, unit, lim, i)
    decreases |p.rest|
  {
    LoopUnfolds(p, sps, unit, lim, i);
    var (f, result) := Refilled(p, lim(i));
    if result.RetryNeeded? {
      NoSkipReports(f, sps, unit, lim, i + 1);
    } else {
      ExactIsPositive(Samples(|f.buf|, unit), sps);
    }
  }

  lemma ExactIsPositive(n: nat, sps: nat)
    requires sps > 0
    ensures n > 0 && SamplesToDur(sps, n) * sps == n * 1000 ==> SamplesToDur(sps, n) > 0
  {
  }

  /** A request for exactly the whole milliseconds of a buffer empties it exactly when the buffer lasts
      no longer. */
  lemma EmptiesIff<T>(p: Pump<T>, sps: nat, unit: Unit)
    requires sps > 0 && WholeSamples(|p.buf|, unit) && p.skip == SamplesToDur(sps, Samples(|p.buf|, unit))
    ensures Drop(p, sps, unit).buf == [] <==> p.skip * sps == Samples(|p.buf|, unit) * 1000
  {
    var n := Samples(|p.buf|, unit);
    DropCases(p, sps, unit);
    QuotientBounds(n * 1000, sps);
    assert sps * p.skip == p.skip * sps;
    assert n <= sps * p.skip / 1000 <==> n * 1000 <= sps * p.skip;
  }

  /** A skip that returns reports no more errors than are in reach, and the longest such skip all of
      them. */
  lemma {:induction false} ReturningReports<T>(p: Pump<T>, sps: nat, unit: Unit, lim: nat -> Limit, i: nat)
    requires sps > 0 && WholeSamples(|p.buf|, unit) && WholePackets(p.rest, unit)
    requires p.skip <= WholeMs(p.buf, p.rest, sps, unit, lim, i)
    ensures var n := Loop(p, sps, unit, lim, i).state.failures - p.failures;
            var reach := ErrorsInReach(p.buf, p.rest, sps, unit, lim, i);
            n <= reach && (p.skip == WholeMs(p.buf, p.rest, sps, unit, lim, i) ==> n == reach)
    decreases |p.rest|, |p.buf|
  {
    LoopUnfolds(p, sps, unit, lim, i);
    FillWhole(p.buf, p.rest, lim(i), unit);
    var (f, result) := Refilled(p, lim(i));
    if p.skip == 0 {
      NoSkipReports(p, sps, unit, lim, i);
    } else if result.RetryNeeded? {
      ReturningReports(f, sps, unit, lim, i + 1);
    } else {
      var q := Drop(f, sps, unit);
      if f.rest == [] || WholeMs([], f.rest, sps, unit, lim, i + 1) == 0 {
        LastFillReports(p, sps, unit, lim, i);
      } else {
        DropCases(f, sps, unit);
        if q.buf == [] {
          ReturningReports(q, sps, unit, lim, i + 1);
        }
      }
    }
  }

  /** The last fill that lasts a millisecond. */
  lemma LastFillReports<T>(p: Pump<T>, sps: nat, unit: Unit, lim: nat -> Limit, i: nat)
    requires sps > 0 && WholeSamples(|p.buf|, unit) && WholePackets(p.rest, unit)
    requires var (f, result) := Refilled(p, lim(i));
             && !result.RetryNeeded? && 0 < p.skip <= SamplesToDur(sps, Samples(|f.buf|, unit))
             && (f.rest == [] || WholeMs([], f.rest, sps, unit, lim, i + 1) == 0)
    ensures var n := Loop(p, sps, unit, lim, i).state.failures - p.failures;
            var reach := ErrorsInReach(p.buf, p.rest, sps, unit, lim, i);
            n <= reach && (p.skip == WholeMs(p.buf, p.rest, sps, unit, lim, i) ==> n == reach)
  {
    var f := Refilled(p, lim(i)).0;
    FillWhole(p.buf, p.rest, lim(i), unit);
    LastFillLoop(p, sps, unit, lim, i);
    LastFillEmptied(f, sps, unit);
  }

  /** What the loop reports from there: one fill more when this one is emptied. */
  lemma LastFillLoop<T>(p: Pump<T>, sps: nat, unit: Unit, lim: nat -> Limit, i: nat)
    requires sps > 0 && WholeSamples(|p.buf|, unit) && WholePackets(p.rest, unit)
    requires var (f, result) := Refilled(p, lim(i));
             !result.RetryNeeded? && 0 < p.skip <= SamplesToDur(sps, Samples(|f.buf|, unit))
    ensures var (f, result) := Refilled(p, lim(i));
            Loop(p, sps, unit, lim, i).state.failures
            == f.failures + (if Drop(f, sps, unit).buf == [] then NextErrors([], f.rest, lim, i + 1) else 0)
  {
    LoopUnfolds(p, sps, unit, lim, i);
    FillWhole(p.buf, p.rest, lim(i), unit);
    var f := Refilled(p, lim(i)).0;
    DropCases(f, sps, unit);
    if Drop(f, sps, unit).buf == [] {
      NoSkipReports(Drop(f, sps, unit), sps, unit, lim, i + 1);
    }
  }

  /** A request of at most the whole milliseconds of a buffer empties it exactly when it asks for them
      all and the buffer lasts no longer. */
  lemma LastFillEmptied<T>(p: Pump<T>, sps: nat, unit: Unit)
    requires sps > 0 && WholeSamples(|p.buf|, unit) && 0 < p.skip <= SamplesToDur(sps, Samples(|p.buf|, unit))
    ensures var n := Samples(|p.buf|, unit);
            && n > 0
            && (Drop(p, sps, unit).buf == []
                <==> p.skip == SamplesToDur(sps, n) && SamplesToDur(sps, n) * sps == n * 1000)
  {
    DropCases(p, sps, unit);
    if p.skip == SamplesToDur(sps, Samples(|p.buf|, unit)) {
      EmptiesIff(p, sps, unit);
    }
  }

  /** Of the skips that return, none reports more than one error if and only if at most one is in
      reach. */
  lemma ReturningReportsOnceIff<T>(p: Pump<T>, sps: nat, unit: Unit, lim: nat -> Limit)
    requires sps > 0 && WholeSamples(|p.buf|, unit) && WholePackets(p.rest, unit)
    ensures (forall skip: nat :: Loop(p.(skip := skip), sps, unit, lim, 0).Done? ==>
               Reported(p, skip, sps, unit, lim) <= 1)
            <==> ErrorsInReach(p.buf, p.rest, sps, unit, lim, 0) <= 1
  {
    var most := WholeMs(p.buf, p.rest, sps, unit, lim, 0);
    forall skip: nat
      ensures Loop(p.(skip := skip), sps, unit, lim, 0).Done? <==> skip <= most
      ensures skip <= most ==> Reported(p, skip, sps, unit, lim) <= ErrorsInReach(p.buf, p.rest, sps, unit, lim, 0)
    {
      LoopHangsIff(p.(skip := skip), sps, unit, lim, 0);
      if skip <= most {
        ReturningReports(p.(skip := skip), sps, unit, lim, 0);
      }
    }
    ReturningReports(p.(skip := most), sps, unit, lim, 0);
    assert Reported(p, most, sps, unit, lim) == ErrorsInReach(p.buf, p.rest, sps, unit, lim, 0);
  }
}
