/** What a streaming decoder delivers, and the shape the two decoders share. */
module Streams {
  import opened Sequences

  datatype ToolCall = ToolCall(id: string, name: string, arguments: string)

  datatype Usage = Usage(prompt: int, completion: int, total: int)

  const NO_USAGE := Usage(0, 0, 0)

  /** A chunk on the channel; an error chunk carries nothing else. */
  datatype Chunk =
    | Chunk(content: string, toolCalls: seq<ToolCall>, finishReason: string, usage: Usage)
    | ErrorChunk
  {
    function Content(): string { if Chunk? then content else "" }
  }

  /** What a decoder makes of one line. */
  datatype Reaction = Skip | Emit(chunk: Chunk) | Stop

  /** How a decoder steps from state to state. */
  type Decoder<!S, !L> = (S, L) -> (S, Reaction)

  /** The chunks a decoder emits for `lines`, up to the line that stops it. */
  function Emissions<S, L>(decode: Decoder<S, L>, st: S, lines: seq<L>): seq<Chunk> {
    if lines == [] then []
    else
      var (next, reaction) := decode(st, lines[0]);
      match reaction
      case Skip => Emissions(decode, next, lines[1..])
      case Emit(c) => [c] + Emissions(decode, next, lines[1..])
      case Stop => []
  }

  /** Only decoders that leave errors to the reader of the lines are of interest. */
  ghost predicate ErrorFree<S(!new), L(!new)>(decode: Decoder<S, L>) {
    forall st, line :: decode(st, line).1 != Emit(ErrorChunk)
  }

  lemma {:induction false} EmissionsHaveNoErrors<S(!new), L(!new)>(decode: Decoder<S, L>, st: S, lines: seq<L>)
    requires ErrorFree(decode)
    ensures ErrorChunk !in Emissions(decode, st, lines)
    decreases |lines|
  {
    if lines != [] {
      var (next, reaction) := decode(st, lines[0]);
      if !reaction.Stop? {
        EmissionsHaveNoErrors(decode, next, lines[1..]);
      }
    }
  }

  function ConcatContent(chunks: seq<Chunk>): string {
    if chunks == [] then ""
    else ConcatContent(chunks[..|chunks| - 1]) + chunks[|chunks| - 1].Content()
  }

  lemma {:induction false} ConcatContentConcat(a: seq<Chunk>, b: seq<Chunk>)
    ensures ConcatContent(a + b) == ConcatContent(a) + ConcatContent(b)
    decreases |b|
  {
    if b == [] {
      assert a + b == a;
      EmptyRight(ConcatContent(a));
    } else {
      var init, last := b[..|b| - 1], b[|b| - 1];
      ConcatContentConcat(a, init);
      assert (a + b)[..|a + b| - 1] == a + init;
      Associate(ConcatContent(a), ConcatContent(init), last.Content());
    }
  }

  lemma ContentOfOne(c: Chunk)
    requires c.Chunk?
    ensures ConcatContent([c]) == c.content
  {
    assert [c][..0] == [];
    EmptyLeft(c.content);
  }
}
