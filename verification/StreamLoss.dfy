/** When the error chunk is lost, and with it the sign that a stream is truncated. */
module StreamLoss {
  import opened Sequences
  import opened Streams
  import opened StreamChannel

  /** The run has ended, chunks are missing, and no error chunk says so. */
  ghost predicate TruncatedSilently<S, L>(full: seq<Chunk>, trace: seq<State<S, L>>) {
    trace != [] &&
    var s := trace[|trace| - 1];
    s.phase.Closed? && ErrorChunk !in Sent(s) && Sent(s) != full
  }

  /** A stream can be truncated without a sign iff it has more chunks than the buffer holds. */
  lemma SilentTruncationIff<S(!new), L(!new)>(decode: Decoder<S, L>, init: S, lines: seq<L>)
    requires ErrorFree(decode)
    ensures var full := Emissions(decode, init, lines);
      (exists trace :: IsRun(decode, init, lines, trace) && TruncatedSilently(full, trace)) <==> |full| > CAPACITY
  {
    var full := Emissions(decode, init, lines);
    forall trace | IsRun(decode, init, lines, trace) && TruncatedSilently(full, trace) ensures |full| > CAPACITY {
      var sent := Sent(trace[|trace| - 1]);
      DeliveryIsSafe(decode, init, lines, trace, |trace| - 1);
      ProperPrefix(sent, full);
    }
    if |full| > CAPACITY {
      var trace := SilentRun(decode, init, lines);
    }
  }

  lemma ProperPrefix(sent: seq<Chunk>, full: seq<Chunk>)
    requires IsPrefix(sent, full) && sent != full
    ensures |sent| < |full|
  {
  }

  lemma Longer<S, L>(decode: Decoder<S, L>, init: S, lines: seq<L>, trace: seq<State<S, L>>, a: Action, t: State<S, L>)
    returns (longer: seq<State<S, L>>)
    requires IsRun(decode, init, lines, trace) && Step(decode, a, trace[|trace| - 1], t)
    ensures IsRun(decode, init, lines, longer) && longer[|longer| - 1] == t
  {
    longer := trace + [t];
    forall i | 0 < i < |longer| ensures Next(decode, longer[i - 1], longer[i]) {
      if i < |trace| {
        assert longer[i - 1] == trace[i - 1] && longer[i] == trace[i];
      }
    }
  }

  /** Nothing consumed, nothing cancelled; the first `n` chunks are buffered and the next is to be sent. */
  ghost predicate Blocked<S, L>(full: seq<Chunk>, n: nat, s: State<S, L>) {
    n < |full| && s.phase == Sending(full[n]) && s.buffer == full[..n] && s.consumed == [] && !s.cancelled
  }

  /** The goroutine reads on until it has a chunk to send. */
  lemma {:induction false} ReadOn<S, L>(decode: Decoder<S, L>, init: S, lines: seq<L>, trace: seq<State<S, L>>)
    returns (longer: seq<State<S, L>>)
    requires IsRun(decode, init, lines, trace)
    requires var s := trace[|trace| - 1]; s.phase.Reading? && ToSend(decode, s) != []
    ensures IsRun(decode, init, lines, longer)
    ensures var s, t := trace[|trace| - 1], longer[|longer| - 1];
      && t.phase == Sending(ToSend(decode, s)[0])
      && t.buffer == s.buffer && t.consumed == s.consumed && t.cancelled == s.cancelled
    decreases |trace[|trace| - 1].pending|
  {
    var s := trace[|trace| - 1];
    var (next, reaction) := decode(s.decoder, s.pending[0]);
    var t := s.(pending := s.pending[1..], decoder := next,
                phase := match reaction case Skip => Reading case Emit(c) => Sending(c) case Stop => Closing);
    longer := Longer(decode, init, lines, trace, ReadLine, t);
    if reaction.Skip? {
      longer := ReadOn(decode, init, lines, longer);
    }
  }

  lemma {:induction false} FillBuffer<S, L>(decode: Decoder<S, L>, init: S, lines: seq<L>, n: nat) returns (trace: seq<State<S, L>>)
    requires n <= CAPACITY && n < |Emissions(decode, init, lines)|
    ensures IsRun(decode, init, lines, trace) && Blocked(Emissions(decode, init, lines), n, trace[|trace| - 1])
  {
    var full := Emissions(decode, init, lines);
    if n == 0 {
      trace := [Start(init, lines)];
      trace := ReadOn(decode, init, lines, trace);
    } else {
      trace := FillBuffer(decode, init, lines, n - 1);
      var s := trace[|trace| - 1];
      RunKeepsInvariant(decode, init, lines, trace, |trace| - 1);
      var t := s.(buffer := s.buffer + [full[n - 1]], phase := Reading);
      OneMoreBuffered(decode, full, n, s, t);
      trace := Longer(decode, init, lines, trace, Send, t);
      trace := ReadOn(decode, init, lines, trace);
    }
  }

  lemma OneMoreBuffered<S, L>(decode: Decoder<S, L>, full: seq<Chunk>, n: nat, s: State<S, L>, t: State<S, L>)
    requires 0 < n < |full| && n <= CAPACITY && Blocked(full, n - 1, s) && Invariant(decode, full, s)
    requires t == s.(buffer := s.buffer + [full[n - 1]], phase := Reading)
    ensures Step(decode, Send, s, t) && t.buffer == full[..n]
    ensures ToSend(decode, t) != [] && ToSend(decode, t)[0] == full[n]
  {
    assert full[..n] == full[..n - 1] + [full[n - 1]];
    SendKeepsTotal(decode, s, t);
    EmptyLeft(t.buffer);
    assert full == full[..n] + ToSend(decode, t);
  }

  /** The consumer does not read; the buffer fills, the context is cancelled, and the error chunk is dropped. */
  lemma SilentRun<S(!new), L(!new)>(decode: Decoder<S, L>, init: S, lines: seq<L>) returns (trace: seq<State<S, L>>)
    requires ErrorFree(decode) && |Emissions(decode, init, lines)| > CAPACITY
    ensures IsRun(decode, init, lines, trace) && TruncatedSilently(Emissions(decode, init, lines), trace)
  {
    var full := Emissions(decode, init, lines);
    trace := FillBuffer(decode, init, lines, CAPACITY);
    var s := trace[|trace| - 1];
    trace := Longer(decode, init, lines, trace, Cancel, s.(cancelled := true));
    trace := Longer(decode, init, lines, trace, NoticeCancel, s.(cancelled := true, phase := Reporting));
    trace := Longer(decode, init, lines, trace, Report, s.(cancelled := true, phase := Closing));
    trace := Longer(decode, init, lines, trace, Close, s.(cancelled := true, phase := Closed));
    EmptyLeft(s.buffer);
    EmissionsHaveNoErrors(decode, init, lines);
    PrefixHasNoErrors(full[..CAPACITY], full);
  }
}
