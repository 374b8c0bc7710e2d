/** A decoder as a producer on a bounded channel, with a consumer and cancellation: the goroutines
    of ai/providers/streaming.go and ai/providers/anthropic_streaming.go. */
module StreamChannel {
  import opened Sequences
  import opened Streams

  const CAPACITY: nat := 64

  /** Where the producer stands: reading the next line, blocked on sending a chunk, about to try to
      send an error chunk, about to close the channel, or done. */
  datatype Phase = Reading | Sending(chunk: Chunk) | Reporting | Closing | Closed

  /** `failed` records that reading ended in an error, `cancelled` that the context is done. */
  datatype State<!S, !L> = State(
    pending: seq<L>,
    decoder: S,
    phase: Phase,
    buffer: seq<Chunk>,
    consumed: seq<Chunk>,
    cancelled: bool,
    failed: bool)

  function Start<S, L>(init: S, lines: seq<L>): State<S, L> {
    State(lines, init, Reading, [], [], false, false)
  }

  datatype Action = ReadLine | EndOfInput | ReadError | Send | NoticeCancel | Report | Close | Consume | Cancel

  ghost predicate Step<S, L>(decode: Decoder<S, L>, a: Action, s: State<S, L>, t: State<S, L>) {
    match a
    case ReadLine =>
      && s.phase.Reading? && s.pending != []
      && var (next, reaction) := decode(s.decoder, s.pending[0]);
         t == s.(pending := s.pending[1..], decoder := next,
                 phase := match reaction case Skip => Reading case Emit(c) => Sending(c) case Stop => Closing)
    case EndOfInput => s.phase.Reading? && s.pending == [] && t == s.(phase := Closing)
    case ReadError => s.phase.Reading? && t == s.(phase := Reporting, failed := true)
    case Send =>
      s.phase.Sending? && |s.buffer| < CAPACITY && t == s.(buffer := s.buffer + [s.phase.chunk], phase := Reading)
    case NoticeCancel => s.phase.Sending? && s.cancelled && t == s.(phase := Reporting)
    case Report =>
      s.phase.Reporting? &&
      t == s.(buffer := if |s.buffer| < CAPACITY then s.buffer + [ErrorChunk] else s.buffer, phase := Closing)
    case Close => s.phase.Closing? && t == s.(phase := Closed)
    case Consume => s.buffer != [] && t == s.(buffer := s.buffer[1..], consumed := s.consumed + [s.buffer[0]])
    case Cancel => !s.cancelled && t == s.(cancelled := true)
  }

  ghost predicate Next<S, L>(decode: Decoder<S, L>, s: State<S, L>, t: State<S, L>) {
    exists a :: Step(decode, a, s, t)
  }

  /** `trace` is a run from the start, over any interleaving. */
  ghost predicate IsRun<S, L>(decode: Decoder<S, L>, init: S, lines: seq<L>, trace: seq<State<S, L>>) {
    && trace != [] && trace[0] == Start(init, lines)
    && forall i | 0 < i < |trace| :: Next(decode, trace[i - 1], trace[i])
  }

  /** Everything put on the channel so far. */
  function Sent<S, L>(s: State<S, L>): seq<Chunk> { s.consumed + s.buffer }

  /** What the producer has yet to send if nothing goes wrong. */
  function ToSend<S, L>(decode: Decoder<S, L>, s: State<S, L>): seq<Chunk> {
    match s.phase
    case Reading => Emissions(decode, s.decoder, s.pending)
    case Sending(c) => [c] + Emissions(decode, s.decoder, s.pending)
    case _ => []
  }

  /** `sent` is some of `full`, in order from the first. */
  ghost predicate IsPrefix(sent: seq<Chunk>, full: seq<Chunk>) { sent <= full }

  ghost predicate Invariant<S, L>(decode: Decoder<S, L>, full: seq<Chunk>, s: State<S, L>) {
    && |s.buffer| <= CAPACITY
    && match s.phase
       case Reading => Sent(s) + ToSend(decode, s) == full
       case Sending(_) => Sent(s) + ToSend(decode, s) == full
       case Reporting => (s.cancelled || s.failed) && IsPrefix(Sent(s), full)
       case _ => Sent(s) == full || ((s.cancelled || s.failed) && IsTruncated(Sent(s), full))
  }

  /** Some of `full` was sent, and then an error chunk, unless so many were sent that there was no room. */
  ghost predicate IsTruncated(sent: seq<Chunk>, full: seq<Chunk>) {
    if sent != [] && sent[|sent| - 1] == ErrorChunk then IsPrefix(sent[..|sent| - 1], full)
    else |sent| >= CAPACITY && IsPrefix(sent, full)
  }

  lemma StepKeepsInvariant<S, L>(decode: Decoder<S, L>, full: seq<Chunk>, a: Action, s: State<S, L>, t: State<S, L>)
    requires Invariant(decode, full, s) && Step(decode, a, s, t)
    ensures Invariant(decode, full, t)
  {
    match a
    case ReadLine =>
      ReadLineKeepsTotal(decode, s, t);
    case Send =>
      SendKeepsTotal(decode, s, t);
    case Consume =>
      ConsumeKeepsSent(decode, s, t);
    case Report =>
      ReportTruncates(decode, full, s, t);
    case _ =>
  }

  lemma ReportTruncates<S, L>(decode: Decoder<S, L>, full: seq<Chunk>, s: State<S, L>, t: State<S, L>)
    requires Step(decode, Report, s, t) && |s.buffer| <= CAPACITY && IsPrefix(Sent(s), full)
    ensures |t.buffer| <= CAPACITY && IsTruncated(Sent(t), full)
  {
    if |s.buffer| < CAPACITY {
      Associate(s.consumed, s.buffer, [ErrorChunk]);
      SignedTruncation(Sent(s), full);
    } else {
      UnsignedTruncation(Sent(s), full);
    }
  }

  lemma SignedTruncation(sent: seq<Chunk>, full: seq<Chunk>)
    requires IsPrefix(sent, full)
    ensures IsTruncated(sent + [ErrorChunk], full)
  {
    assert (sent + [ErrorChunk])[..|sent|] == sent;
  }

  lemma UnsignedTruncation(sent: seq<Chunk>, full: seq<Chunk>)
    requires IsPrefix(sent, full) && |sent| >= CAPACITY
    ensures IsTruncated(sent, full)
  {
    assert sent[..|sent| - 1] <= sent;
  }

  lemma ConsumeKeepsSent<S, L>(decode: Decoder<S, L>, s: State<S, L>, t: State<S, L>)
    requires Step(decode, Consume, s, t)
    ensures Sent(t) == Sent(s) && ToSend(decode, t) == ToSend(decode, s)
  {
  }

  lemma ReadLineKeepsTotal<S, L>(decode: Decoder<S, L>, s: State<S, L>, t: State<S, L>)
    requires Step(decode, ReadLine, s, t)
    ensures Sent(t) == Sent(s) && ToSend(decode, t) == ToSend(decode, s)
  {
  }

  lemma SendKeepsTotal<S, L>(decode: Decoder<S, L>, s: State<S, L>, t: State<S, L>)
    requires Step(decode, Send, s, t)
    ensures Sent(t) + ToSend(decode, t) == Sent(s) + ToSend(decode, s)
  {
  }

  lemma {:induction false} RunKeepsInvariant<S, L>(decode: Decoder<S, L>, init: S, lines: seq<L>, trace: seq<State<S, L>>, n: nat)
    requires IsRun(decode, init, lines, trace) && n < |trace|
    ensures Invariant(decode, Emissions(decode, init, lines), trace[n])
  {
    var full := Emissions(decode, init, lines);
    if n == 0 {
      assert Sent(trace[0]) + full == full;
    } else {
      RunKeepsInvariant(decode, init, lines, trace, n - 1);
      var a :| Step(decode, a, trace[n - 1], trace[n]);
      StepKeepsInvariant(decode, full, a, trace[n - 1], trace[n]);
    }
  }

  /** What was consumed and what is buffered is the beginning of the decoder's chunks, followed by at most
      one error chunk, and that only after a cancellation or a read error. A channel closed without
      either has carried them all; one closed without an error chunk has carried them all or, after a
      cancellation or a read error, at least as many as the buffer holds. */
  ghost predicate SafelyDelivered<S, L>(full: seq<Chunk>, s: State<S, L>) {
    && |s.buffer| <= CAPACITY
    && (ErrorChunk !in Sent(s) ==> IsPrefix(Sent(s), full))
    && (ErrorChunk in Sent(s) ==>
          && (s.cancelled || s.failed)
          && Sent(s)[|Sent(s)| - 1] == ErrorChunk
          && IsPrefix(Sent(s)[..|Sent(s)| - 1], full)
          && ErrorChunk !in Sent(s)[..|Sent(s)| - 1])
    && (s.phase.Closed? && !s.cancelled && !s.failed ==> Sent(s) == full)
    && (s.phase.Closed? && ErrorChunk !in Sent(s) ==> Sent(s) == full || |Sent(s)| >= CAPACITY)
  }

  /** Delivery is safe at every moment of every run. */
  lemma DeliveryIsSafe<S(!new), L(!new)>(decode: Decoder<S, L>, init: S, lines: seq<L>, trace: seq<State<S, L>>, n: nat)
    requires IsRun(decode, init, lines, trace) && n < |trace| && ErrorFree(decode)
    ensures SafelyDelivered(Emissions(decode, init, lines), trace[n])
  {
    RunKeepsInvariant(decode, init, lines, trace, n);
    EmissionsHaveNoErrors(decode, init, lines);
    var s, full := trace[n], Emissions(decode, init, lines);
    if s.phase.Reading? || s.phase.Sending? {
      assert IsPrefix(Sent(s), full);
    }
    PrefixHasNoErrors(Sent(s), full);
    if Sent(s) != [] {
      PrefixHasNoErrors(Sent(s)[..|Sent(s)| - 1], full);
    }
  }

  lemma PrefixHasNoErrors(sent: seq<Chunk>, full: seq<Chunk>)
    requires ErrorChunk !in full
    ensures IsPrefix(sent, full) ==> ErrorChunk !in sent
  {
    if IsPrefix(sent, full) {
      assert forall i | 0 <= i < |sent| :: sent[i] == full[i];
    }
  }

  /** Once the channel is closed it stays closed and nothing more is sent. */
  lemma NothingAfterClose<S, L>(decode: Decoder<S, L>, s: State<S, L>, t: State<S, L>)
    requires Next(decode, s, t) && s.phase.Closed?
    ensures t.phase.Closed? && Sent(t) == Sent(s)
  {
  }

  /** Bounds the number of steps that can still be taken. */
  function Remaining<S, L>(s: State<S, L>): nat {
    |s.buffer|
    + (if s.cancelled then 0 else 1)
    + match s.phase
      case Reading => 4 * |s.pending| + 4
      case Sending(_) => 4 * |s.pending| + 6
      case Reporting => 3
      case Closing => 1
      case Closed => 0
  }

  lemma EveryStepCounts<S, L>(decode: Decoder<S, L>, s: State<S, L>, t: State<S, L>)
    requires Next(decode, s, t)
    ensures Remaining(t) < Remaining(s)
  {
  }

  /** While the channel is open, or still holds a chunk, the producer or the consumer can step. */
  lemma NeverStuck<S, L>(decode: Decoder<S, L>, s: State<S, L>)
    requires !s.phase.Closed? || s.buffer != []
    ensures exists a: Action, t :: !a.Cancel? && !a.ReadError? && Step(decode, a, s, t)
  {
    if s.buffer != [] {
      assert Step(decode, Consume, s, s.(buffer := s.buffer[1..], consumed := s.consumed + [s.buffer[0]]));
    } else {
      match s.phase
      case Reading =>
        if s.pending == [] {
          assert Step(decode, EndOfInput, s, s.(phase := Closing));
        } else {
          var (next, reaction) := decode(s.decoder, s.pending[0]);
          assert Step(decode, ReadLine, s,
                      s.(pending := s.pending[1..], decoder := next,
                         phase := match reaction case Skip => Reading case Emit(c) => Sending(c) case Stop => Closing));
        }
      case Sending(c) =>
        assert Step(decode, Send, s, s.(buffer := s.buffer + [c], phase := Reading));
      case Reporting =>
        assert Step(decode, Report, s, s.(buffer := s.buffer + [ErrorChunk], phase := Closing));
      case Closing =>
        assert Step(decode, Close, s, s.(phase := Closed));
    }
  }

  /** After a cancellation the goroutine can always step on its own, until the channel is closed; as every
      step counts, it does not outlive the cancellation. */
  lemma CancelledProducerCanStep<S, L>(decode: Decoder<S, L>, s: State<S, L>)
    requires s.cancelled && !s.phase.Closed?
    ensures exists a: Action, t :: !a.Consume? && !a.Cancel? && !a.ReadError? && Step(decode, a, s, t)
  {
    match s.phase
    case Reading =>
      if s.pending == [] {
        assert Step(decode, EndOfInput, s, s.(phase := Closing));
      } else {
        var (next, reaction) := decode(s.decoder, s.pending[0]);
        assert Step(decode, ReadLine, s,
                    s.(pending := s.pending[1..], decoder := next,
                       phase := match reaction case Skip => Reading case Emit(c) => Sending(c) case Stop => Closing));
      }
    case Sending(_) =>
      assert Step(decode, NoticeCancel, s, s.(phase := Reporting));
    case Reporting =>
      assert Step(decode, Report, s,
                  s.(buffer := if |s.buffer| < CAPACITY then s.buffer + [ErrorChunk] else s.buffer, phase := Closing));
    case Closing =>
      assert Step(decode, Close, s, s.(phase := Closed));
  }

  /** A run is no longer than its first state allows. */
  lemma {:induction false} RunsAreBounded<S, L>(decode: Decoder<S, L>, init: S, lines: seq<L>, trace: seq<State<S, L>>)
    requires IsRun(decode, init, lines, trace)
    ensures |trace| + Remaining(trace[|trace| - 1]) <= 4 * |lines| + 6
    decreases |trace|
  {
    if |trace| > 1 {
      var n := |trace| - 1;
      RunsAreBounded(decode, init, lines, trace[..n]);
      EveryStepCounts(decode, trace[n - 1], trace[n]);
    }
  }

  /** A run that can go no further, free of cancellation and read errors, has delivered every chunk. */
  lemma CompleteRunDeliversAll<S(!new), L(!new)>(decode: Decoder<S, L>, init: S, lines: seq<L>, trace: seq<State<S, L>>)
    requires IsRun(decode, init, lines, trace)
    requires var last := trace[|trace| - 1];
      !last.cancelled && !last.failed && forall a: Action, t :: Step(decode, a, last, t) ==> a.Cancel? || a.ReadError?
    ensures trace[|trace| - 1].consumed == Emissions(decode, init, lines)
  {
    var last := trace[|trace| - 1];
    if !last.phase.Closed? || last.buffer != [] {
      NeverStuck(decode, last);
    }
    RunKeepsInvariant(decode, init, lines, trace, |trace| - 1);
    assert Sent(last) == last.consumed;
  }
}
