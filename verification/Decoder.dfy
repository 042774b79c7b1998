/** The decoder as the audio outputs see it (vibe/src/decode.rs): a list of outcomes still to come,
    and the two fill loops over it. The element type is a sample for rodio and a byte for the
    PulseAudio and PipeWire outputs. */
module Decoder {
  import opened Bytes
  import opened Arith

  /** What one call of get_audio_buffer yields. When the list is used up, the end is sticky. */
  datatype Outcome<T> = Packet(data: seq<T>) | Retry | StreamError

  /** Ok(false), Ok(true), Err(Retry) and Err(StreamError) of a fill. */
  datatype FillResult = More | End | RetryNeeded | Failed

  datatype Filled<T> = Filled(buf: seq<T>, rest: seq<Outcome<T>>, result: FillResult)

  /** Everything the remaining outcomes would decode. */
  function Packets<T>(rest: seq<Outcome<T>>): seq<T> {
    if rest == [] then []
    else if rest[0].Packet? then rest[0].data + Packets(rest[1..])
    else Packets(rest[1..])
  }

  /** Decodes until the buffer holds `limit` elements, the stream ends or an error comes up. */
  function Fill<T>(buf: seq<T>, rest: seq<Outcome<T>>, limit: nat): Filled<T>
    decreases |rest|
  {
    if |buf| >= limit then Filled(buf, rest, More)
    else if rest == [] then Filled(buf, rest, End)
    else match rest[0]
      case Packet(d) => Fill(buf + d, rest[1..], limit)
      case Retry => Filled(buf, rest[1..], RetryNeeded)
      case StreamError => Filled(buf, rest[1..], Failed)
  }

  /** Fills, and starts over after each Err(Retry), keeping what was decoded. */
  function FillRetrying<T>(buf: seq<T>, rest: seq<Outcome<T>>, limit: nat): Filled<T>
    decreases |rest|
  {
    FillStops(buf, rest, limit);
    var f := Fill(buf, rest, limit);
    if f.result.RetryNeeded? then FillRetrying(f.buf, f.rest, limit) else f
  }

  /** A fill stops short of the limit exactly when it did not return Ok(false), and returns Ok(true)
      only at the end of the stream. */
  lemma {:induction false} FillStops<T>(buf: seq<T>, rest: seq<Outcome<T>>, limit: nat)
    ensures var f := Fill(buf, rest, limit);
            && (f.result.More? <==> |f.buf| >= limit)
            && (f.result.End? ==> f.rest == [])
            && |f.rest| <= |rest|
            && (|f.rest| == |rest| ==> f.buf == buf && f.rest == rest)
            && (f.result.RetryNeeded? || f.result.Failed? || (|buf| < limit && rest != []) ==> |f.rest| < |rest|)
    decreases |rest|
  {
    if |buf| < limit && rest != [] && rest[0].Packet? {
      FillStops(buf + rest[0].data, rest[1..], limit);
    }
  }

  /** A fill only appends, in stream order. */
  lemma {:induction false} FillConserves<T>(buf: seq<T>, rest: seq<Outcome<T>>, limit: nat)
    ensures var f := Fill(buf, rest, limit);
            buf <= f.buf && f.buf + Packets(f.rest) == buf + Packets(rest)
    decreases |rest|
  {
    if |buf| < limit && rest != [] && rest[0].Packet? {
      var d := rest[0].data;
      FillConserves(buf + d, rest[1..], limit);
      Assoc(buf, d, Packets(rest[1..]));
      assert buf <= buf + d;
    }
  }

  /** A fill exactly: it reads outcomes only while the buffer is short of the limit, takes each packet whole,
      and stops at once on anything else. */
  lemma {:induction false} FillExact<T>(buf: seq<T>, rest: seq<Outcome<T>>, limit: nat)
    ensures var f := Fill(buf, rest, limit);
            var n := |rest| - |f.rest|;
            && 0 <= n && f.rest == rest[n..] && f.buf == buf + Packets(rest[..n])
            && (forall j :: 0 <= j < n ==> |buf + Packets(rest[..j])| < limit)
            && (forall j :: 0 <= j < n - 1 ==> rest[j].Packet?)
            && (f.result.RetryNeeded? <==> n > 0 && rest[n - 1].Retry?)
            && (f.result.Failed? <==> n > 0 && rest[n - 1].StreamError?)
            && (f.result.More? <==> |f.buf| >= limit)
            && (f.result.End? ==> n == |rest|)
    decreases |rest|
  {
    FillStops(buf, rest, limit);
    if |buf| < limit && rest != [] {
      if rest[0].Packet? {
        var d := rest[0].data;
        FillExact(buf + d, rest[1..], limit);
        var f := Fill(buf + d, rest[1..], limit);
        var n := |rest| - |f.rest|;
        forall j | 1 <= j <= n
          ensures buf + Packets(rest[..j]) == buf + d + Packets(rest[1..][..j - 1])
        {
          assert rest[..j][1..] == rest[1..][..j - 1];
          Assoc(buf, d, Packets(rest[1..][..j - 1]));
        }
        assert rest[..0] == [] && buf + [] == buf;
        assert forall j :: 1 <= j < n ==> rest[j] == rest[1..][j - 1];
      } else {
        assert rest[..1][1..] == [] && rest[..0] == [];
        assert buf + [] == buf;
      }
    } else {
      assert rest[..0] == [] && buf + [] == buf;
    }
  }

  lemma {:induction false} FillRetryingFacts<T>(buf: seq<T>, rest: seq<Outcome<T>>, limit: nat)
    ensures var f := FillRetrying(buf, rest, limit);
            && buf <= f.buf
            && f.buf + Packets(f.rest) == buf + Packets(rest)
            && !f.result.RetryNeeded?
            && (f.result.More? <==> |f.buf| >= limit)
            && (f.result.End? ==> f.rest == [])
    decreases |rest|
  {
    FillStops(buf, rest, limit);
    FillConserves(buf, rest, limit);
    var f := Fill(buf, rest, limit);
    if f.result.RetryNeeded? {
      FillRetryingFacts(f.buf, f.rest, limit);
    }
  }

  /** What a fill with its retries has read: n outcomes, of which only the last can be a stream error. */
  predicate ReadExactly<T(==)>(buf: seq<T>, rest: seq<Outcome<T>>, f: Filled<T>) {
    var n := |rest| - |f.rest|;
    && 0 <= n && f.rest == rest[n..] && f.buf == buf + Packets(rest[..n])
    && (forall j :: 0 <= j < n - 1 ==> !rest[j].StreamError?)
    && (f.result.Failed? <==> n > 0 && rest[n - 1].StreamError?)
  }

  /** A fill with its retries exactly: it goes on over retries and stops at once on a stream error. */
  lemma {:induction false} FillRetryingExact<T>(buf: seq<T>, rest: seq<Outcome<T>>, limit: nat)
    ensures var f := FillRetrying(buf, rest, limit);
            ReadExactly(buf, rest, f) && (f.result.End? ==> f.rest == []) && !f.result.RetryNeeded?
    decreases |rest|
  {
    FillStops(buf, rest, limit);
    FillExact(buf, rest, limit);
    FillRetryingFacts(buf, rest, limit);
    var f := Fill(buf, rest, limit);
    if f.result.RetryNeeded? {
      FillRetryingExact(f.buf, f.rest, limit);
      ReadOn(buf, rest, f, FillRetrying(f.buf, f.rest, limit));
    }
  }

  lemma ReadOn<T>(buf: seq<T>, rest: seq<Outcome<T>>, f: Filled<T>, g: Filled<T>)
    requires ReadExactly(buf, rest, f) && ReadExactly(f.buf, f.rest, g)
    requires |f.rest| < |rest| && !f.result.Failed?
    ensures ReadExactly(buf, rest, g)
  {
    var n, m := |rest| - |f.rest|, |f.rest| - |g.rest|;
    assert rest[n..][m..] == rest[n + m..];
    PacketsSplit(rest, n, m);
    Assoc(buf, Packets(rest[..n]), Packets(rest[n..][..m]));
    assert forall j :: n <= j < n + m ==> rest[j] == rest[n..][j - n];
  }

  lemma {:induction false} PacketsSplit<T>(rest: seq<Outcome<T>>, n: nat, m: nat)
    requires n + m <= |rest|
    ensures Packets(rest[..n + m]) == Packets(rest[..n]) + Packets(rest[n..][..m])
    decreases n
  {
    if n == 0 {
      assert rest[0..] == rest && rest[..0] == [];
    } else {
      PacketsSplit(rest[1..], n - 1, m);
      assert rest[..n + m][1..] == rest[1..][..n - 1 + m];
      assert rest[..n][1..] == rest[1..][..n - 1];
      assert rest[1..][n - 1..] == rest[n..];
      if rest[0].Packet? {
        Assoc(rest[0].data, Packets(rest[1..][..n - 1]), Packets(rest[n..][..m]));
      }
    }
  }

  // ---------------------------------------------------------------------------------------------
  // Durations and samples: `samplesPerSecond` is sample rate times channels
  // ---------------------------------------------------------------------------------------------

  function DurToSamples(samplesPerSecond: nat, ms: nat): nat {
    samplesPerSecond * ms / 1000
  }

  function SamplesToDur(samplesPerSecond: nat, samples: nat): nat
    requires samplesPerSecond > 0
  {
    samples * 1000 / samplesPerSecond
  }

  /** Fewer samples last no longer. */
  lemma SamplesToDurMono(sps: nat, a: nat, b: nat)
    requires sps > 0 && a <= b
    ensures SamplesToDur(sps, a) <= SamplesToDur(sps, b)
  {
    QuotientBounds(a * 1000, sps);
    QuotientAtLeast(b * 1000, sps, a * 1000 / sps);
  }

  /** Converting a duration to samples and back never gains, and loses at most one millisecond when
      there are at least a thousand samples a second. */
  lemma DurationRoundTrip(sps: nat, ms: nat)
    requires sps > 0
    ensures SamplesToDur(sps, DurToSamples(sps, ms)) <= ms
    ensures sps >= 1000 ==> ms <= SamplesToDur(sps, DurToSamples(sps, ms)) + 1
  {
    var n := DurToSamples(sps, ms);
    QuotientBounds(sps * ms, 1000);
    assert n * 1000 <= sps * ms < n * 1000 + 1000;
    assert sps * ms == ms * sps;
    assert (ms + 1) * sps == ms * sps + sps;
    QuotientAtMost(n * 1000, sps, ms);
    if sps >= 1000 && ms > 0 {
      assert (ms - 1) * sps == ms * sps - sps;
      QuotientAtLeast(n * 1000, sps, ms - 1);
    }
  }

  /** One conversion: the samples of a duration are whole frames exactly when the duration passes its
      last whole frame by less than one sample. A skip can take several conversions, see
      SkipTheorems.SkipKeepsFramesIff. */
  lemma DurationIsWholeFramesIff(rate: nat, channels: nat, ms: nat)
    requires channels > 0
    ensures DurToSamples(rate * channels, ms) % channels == 0 <==> channels * (rate * ms % 1000) < 1000
  {
    var q, r := rate * ms / 1000, rate * ms % 1000;
    var extra := channels * r / 1000;
    QuotientOfShifted(channels * q, channels * r);
    assert rate * channels * ms == channels * (rate * ms) by { Reorder(rate, channels, ms); }
    assert channels * (rate * ms) == channels * q * 1000 + channels * r by {
      assert rate * ms == q * 1000 + r;
      Distribute(channels, q, r);
    }
    MulMono(r, 999, channels);
    assert extra < channels;
    RemainderOfShifted(q, extra, channels);
  }

  lemma Reorder(a: nat, b: nat, c: nat)
    ensures a * b * c == b * (a * c)
  {
    assert a * b == b * a;
  }

  lemma Distribute(c: nat, q: nat, r: nat)
    ensures c * (q * 1000 + r) == c * q * 1000 + c * r
  {
    assert c * (q * 1000) == c * q * 1000;
  }

  lemma QuotientOfShifted(a: nat, b: nat)
    ensures (a * 1000 + b) / 1000 == a + b / 1000
  {
  }

  // ---------------------------------------------------------------------------------------------
  // The decoder object
  // ---------------------------------------------------------------------------------------------

  class VibeDecoder<T> {
    var rest: seq<Outcome<T>>

    constructor (outcomes: seq<Outcome<T>>)
      ensures rest == outcomes
    {
      rest := outcomes;
    }

    /** None is the end of the stream. */
    method GetAudioBuffer() returns (r: Option<Outcome<T>>)
      modifies this
      ensures if old(rest) == [] then r == None && rest == []
              else r == Some(old(rest)[0]) && rest == old(rest)[1..]
    {
      if rest == [] {
        return None;
      }
      r := Some(rest[0]);
      rest := rest[1..];
    }

    /** fill_raw_buffer and fill_sample_buffer. */
    method FillBuffer(buffer: seq<T>, limit: nat) returns (buf: seq<T>, result: FillResult)
      modifies this
      ensures Filled(buf, rest, result) == Fill(buffer, old(rest), limit)
    {
      buf := buffer;
      var endOfDecode := false;
      while |buf| < limit && !endOfDecode
        invariant Fill(buf, rest, limit) == Fill(buffer, old(rest), limit)
        invariant endOfDecode ==> rest == [] && |buf| < limit
        decreases |rest|, !endOfDecode
      {
        var audio := GetAudioBuffer();
        match audio {
          case None => endOfDecode := true;
          case Some(Packet(d)) => buf := buf + d;
          case Some(Retry) => return buf, RetryNeeded;
          case Some(StreamError) => return buf, Failed;
        }
      }
      result := if endOfDecode then End else More;
    }

    /** The loop that fills a fresh buffer before a stream is opened: it starts over on Err(Retry). */
    method Prefill(limit: nat) returns (buf: seq<T>, failed: bool)
      modifies this
      ensures var f := FillRetrying([], old(rest), limit);
              && buf == f.buf && rest == f.rest && failed == f.result.Failed?
              && buf + Packets(rest) == Packets(old(rest))
    {
      buf := [];
      ghost var start := rest;
      FillRetryingFacts([], start, limit);
      assert [] + Packets(start) == Packets(start);
      while true
        invariant FillRetrying(buf, rest, limit) == FillRetrying([], start, limit)
        decreases |rest|
      {
        FillStops(buf, rest, limit);
        var result;
        buf, result := FillBuffer(buf, limit);
        if !result.RetryNeeded? {
          return buf, result.Failed?;
        }
      }
    }
  }
}
