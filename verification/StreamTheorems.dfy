/** The two decoders agree with each other, and deliver through the channel. */
module StreamTheorems {
  import opened Streams
  import opened StreamEvents
  import opened OpenAITheorems
  import opened AnthropicTheorems
  import StreamChannel
  import StreamLoss
  import OpenAI
  import Anthropic

  /** The two decoders deliver the same calls and the same text for the same events. */
  lemma DecodersAgree(lines: seq<OpenAI.Line>, packets: seq<seq<Event>>, lines': seq<Anthropic.Line>, labels: seq<int>,
                      calls: seq<ToolCall>, text: string)
    requires Carries(DataLines(lines), packets) && Said("", {}, lines') == Joined(packets)
    requires Transmits(Joined(packets), labels, calls, text)
    requires Increasing(labels) && (forall k | 0 <= k < |labels| :: labels[k] >= 0)
    ensures OpenAIDelivers(lines, Emissions(OpenAI.Decode, OpenAI.EMPTY, lines), calls, text)
    ensures AnthropicDelivers(lines', Emissions(Anthropic.Decode, Anthropic.EMPTY, lines'), calls, text)
  {
    OpenAIInvertsFragmentation(lines, packets, labels, calls, text);
    AnthropicInvertsFragmentation(lines', labels, calls, text);
  }

  // ---------------------------------------------------------------------------------------
  // End to end
  // ---------------------------------------------------------------------------------------

  /** The run is over and nothing went wrong. */
  ghost predicate Completed<S(!new), L(!new)>(decode: Decoder<S, L>, trace: seq<StreamChannel.State<S, L>>)
    requires trace != []
  {
    var last := trace[|trace| - 1];
    && !last.cancelled && !last.failed
    && forall a: StreamChannel.Action, t :: StreamChannel.Step(decode, a, last, t) ==> a.Cancel? || a.ReadError?
  }

  /** At every moment of every run of either decoder, whatever the lines and the interleaving, delivery is
      safe. */
  lemma OpenAIDeliveryIsSafe(lines: seq<OpenAI.Line>, trace: seq<StreamChannel.State<OpenAI.Accumulator, OpenAI.Line>>, n: nat)
    requires StreamChannel.IsRun(OpenAI.Decode, OpenAI.EMPTY, lines, trace) && n < |trace|
    ensures StreamChannel.SafelyDelivered(Emissions(OpenAI.Decode, OpenAI.EMPTY, lines), trace[n])
  {
    OpenAI.DecodeIsErrorFree();
    StreamChannel.DeliveryIsSafe(OpenAI.Decode, OpenAI.EMPTY, lines, trace, n);
  }

  lemma AnthropicDeliveryIsSafe(lines: seq<Anthropic.Line>,
                                trace: seq<StreamChannel.State<Anthropic.Accumulator, Anthropic.Line>>, n: nat)
    requires StreamChannel.IsRun(Anthropic.Decode, Anthropic.EMPTY, lines, trace) && n < |trace|
    ensures StreamChannel.SafelyDelivered(Emissions(Anthropic.Decode, Anthropic.EMPTY, lines), trace[n])
  {
    Anthropic.DecodeIsErrorFree();
    StreamChannel.DeliveryIsSafe(Anthropic.Decode, Anthropic.EMPTY, lines, trace, n);
  }

  /** A stream of data lines can be truncated without a sign iff there are more of them than the buffer
      holds. */
  lemma OpenAITruncationIff(lines: seq<OpenAI.Line>)
    ensures (exists trace :: && StreamChannel.IsRun(OpenAI.Decode, OpenAI.EMPTY, lines, trace)
                             && StreamLoss.TruncatedSilently(Emissions(OpenAI.Decode, OpenAI.EMPTY, lines), trace))
       <==> |DataLines(lines)| > 64
  {
    OpenAI.DecodeIsErrorFree();
    EachDataLineIsAnswered(OpenAI.EMPTY, lines);
    StreamLoss.SilentTruncationIff(OpenAI.Decode, OpenAI.EMPTY, lines);
  }

  /** Over any interleaving of reader, channel and consumer, a consumer of either provider's stream is
      left with exactly the calls and the text that were sent. */
  lemma OpenAIConsumerGetsCalls(lines: seq<OpenAI.Line>, labels: seq<int>, calls: seq<ToolCall>,
                                trace: seq<StreamChannel.State<OpenAI.Accumulator, OpenAI.Line>>)
    requires Announces(AllDeltas(DataLines(lines)), labels, calls)
    requires StreamChannel.IsRun(OpenAI.Decode, OpenAI.EMPTY, lines, trace) && Completed(OpenAI.Decode, trace)
    ensures OpenAIDelivers(lines, trace[|trace| - 1].consumed, calls, AllText(DataLines(lines)))
  {
    StreamChannel.CompleteRunDeliversAll(OpenAI.Decode, OpenAI.EMPTY, lines, trace);
    OpenAIGathersCalls(lines, labels, calls);
  }

  lemma AnthropicConsumerGetsCalls(lines: seq<Anthropic.Line>, labels: seq<int>, calls: seq<ToolCall>, text: string,
                                   trace: seq<StreamChannel.State<Anthropic.Accumulator, Anthropic.Line>>)
    requires Transmits(Said("", {}, lines), labels, calls, text)
    requires StreamChannel.IsRun(Anthropic.Decode, Anthropic.EMPTY, lines, trace) && Completed(Anthropic.Decode, trace)
    ensures AnthropicDelivers(lines, trace[|trace| - 1].consumed, calls, text)
  {
    StreamChannel.CompleteRunDeliversAll(Anthropic.Decode, Anthropic.EMPTY, lines, trace);
    AnthropicInvertsFragmentation(lines, labels, calls, text);
  }
}
