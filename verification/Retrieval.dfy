/** Indexing, keyword retrieval and context assembly: ai/retrieval/pipeline.go. */
module Retrieval {
  import opened Values
  import Chunking
  import Decimals
  import opened Utf8
  import opened Sequences

  datatype Document = Document(id: string, content: string, metadata: map<string, string>)

  datatype Chunk = Chunk(id: string, documentId: string, content: string, metadata: map<string, string>, score: real)

  datatype RetrievalError = NoContext | NoDocumentId | NoContent | NoQuery | BadTopK | Cancelled

  // ---------------------------------------------------------------------------------------
  // Chunks of a document
  // ---------------------------------------------------------------------------------------

  function ChunkId(docId: string, i: nat): string { docId + "-chunk-" + Decimals.Print(i) }

  function ChunksOf(doc: Document): seq<Chunk> {
    var sentences := Chunking.Sentences(doc.content);
    seq(|sentences|, i requires 0 <= i < |sentences| => Chunk(ChunkId(doc.id, i), doc.id, sentences[i], doc.metadata, 0.0))
  }

  method SplitIntoChunks(doc: Document) returns (chunks: seq<Chunk>)
    ensures chunks == ChunksOf(doc)
    ensures var sentences := Chunking.Sentences(doc.content);
      && |chunks| == |sentences|
      && forall i | 0 <= i < |sentences| ::
           chunks[i] == Chunk(doc.id + "-chunk-" + Decimals.Print(i), doc.id, sentences[i], doc.metadata, 0.0)
  {
    var sentences := Chunking.SplitSentences(doc.content);
    chunks := [];
    for i := 0 to |sentences|
      invariant chunks == ChunksOf(doc)[..i]
    {
      chunks := chunks + [Chunk(ChunkId(doc.id, i), doc.id, sentences[i], doc.metadata, 0.0)];
    }
  }

  lemma SuffixDiffers(a: string, x: string, y: string)
    requires x != y
    ensures a + x != a + y
  {
    assert x == (a + x)[|a|..] && y == (a + y)[|a|..];
  }

  /** The chunks of one document have distinct identifiers. */
  lemma ChunkIdsAreDistinct(docId: string, i: nat, j: nat)
    requires i != j
    ensures ChunkId(docId, i) != ChunkId(docId, j)
  {
    var x, y := Decimals.Print(i), Decimals.Print(j);
    Decimals.PrintsDiffer(i, j);
    SuffixDiffers(docId + "-chunk-", x, y);
  }

  // ---------------------------------------------------------------------------------------
  // Scores
  // ---------------------------------------------------------------------------------------

  type Tokenizer = string -> set<string>

  /** The share of the query's tokens that occur in the chunk. */
  function OverlapScore(query: set<string>, chunk: set<string>): real {
    if query == {} then 0.0 else |query * chunk| as real / |query| as real
  }

  method CountOverlap(query: set<string>, chunk: set<string>) returns (score: real)
    ensures score == OverlapScore(query, chunk)
  {
    if |query| == 0 {
      return 0.0;
    }
    var overlap := 0;
    var todo := query;
    ghost var common: set<string> := {};
    while todo != {}
      invariant todo <= query && overlap == |common|
      invariant forall q :: q in common <==> q in query && q !in todo && q in chunk
    {
      var q :| q in todo;
      todo := todo - {q};
      if q in chunk {
        overlap := overlap + 1;
        common := common + {q};
      }
    }
    assert common == query * chunk;
    score := overlap as real / |query| as real;
  }

  /** A score lies between 0 and 1, and is 1 iff the chunk has every token of the query. */
  lemma ScoreIsAShare(query: set<string>, chunk: set<string>)
    requires query != {}
    ensures 0.0 <= OverlapScore(query, chunk) <= 1.0
    ensures OverlapScore(query, chunk) == 1.0 <==> query <= chunk
  {
    var common := query * chunk;
    assert query == common + (query - chunk);
    assert |query| == |common| + |query - chunk|;
    var x, y := |common| as real, |query| as real;
    assert 0.0 <= x <= y && y > 0.0;
    ShareBounds(x, y);
  }

  lemma ShareBounds(x: real, y: real)
    requires 0.0 <= x <= y && y > 0.0
    ensures 0.0 <= x / y <= 1.0 && (x / y == 1.0 <==> x == y)
  {
  }

  /** A score times the number of query tokens is the number of them that the chunk has; so the more it
      has, the higher it scores. */
  lemma ScoreCountsTokens(query: set<string>, a: set<string>, b: set<string>)
    ensures query == {} ==> OverlapScore(query, a) == 0.0
    ensures query != {} ==> OverlapScore(query, a) * |query| as real == |query * a| as real
    ensures OverlapScore(query, a) < OverlapScore(query, b) <==> |query * a| < |query * b|
  {
    if query == {} {
      assert query * a == {} && query * b == {};
    } else {
      ShareIsMonotone(|query * a| as real, |query * b| as real, |query| as real);
    }
  }

  lemma ShareIsMonotone(x: real, x': real, y: real)
    requires y > 0.0
    ensures x / y * y == x && (x / y < x' / y <==> x < x')
  {
    var q, q' := x / y, x' / y;
    assert q * y == x && q' * y == x';
    assert (q' - q) * y == x' - x;
  }

  function Score(query: set<string>, tokenize: Tokenizer, c: Chunk): Chunk {
    c.(score := OverlapScore(query, tokenize(c.content)))
  }

  function ScoreAll(query: set<string>, tokenize: Tokenizer, cs: seq<Chunk>): seq<Chunk> {
    seq(|cs|, i requires 0 <= i < |cs| => Score(query, tokenize, cs[i]))
  }

  /** The chunks of the documents in the order given. */
  function Gather(index: map<string, seq<Chunk>>, order: seq<string>): seq<Chunk> {
    if order == [] then []
    else
      var last := order[|order| - 1];
      Gather(index, order[..|order| - 1]) + if last in index then index[last] else []
  }

  lemma GatherOneMore(index: map<string, seq<Chunk>>, order: seq<string>, id: string)
    requires id in index && id !in order && Distinct(order)
    ensures Gather(index, order + [id]) == Gather(index, order) + index[id] && Distinct(order + [id])
  {
    assert (order + [id])[..|order|] == order;
  }

  /** A chunk is gathered iff it is a chunk of one of the documents. */
  lemma {:induction false} GatheredIff(index: map<string, seq<Chunk>>, order: seq<string>, c: Chunk)
    ensures c in Gather(index, order) <==> exists id | id in order :: id in index && c in index[id]
  {
    if order != [] {
      var init, last := order[..|order| - 1], order[|order| - 1];
      GatheredIff(index, init, c);
      assert forall id :: id in order <==> id in init || id == last;
    }
  }

  ghost predicate Descending(cs: seq<Chunk>) {
    forall i, j | 0 <= i < j < |cs| :: cs[i].score >= cs[j].score
  }

  /** sort.Slice by descending score; ties in any order. */
  method SortByScore(cs: seq<Chunk>) returns (sorted: seq<Chunk>)
    ensures multiset(sorted) == multiset(cs) && |sorted| == |cs| && Descending(sorted)
  {
    sorted := [];
    var rest := cs;
    while rest != []
      invariant multiset(sorted) + multiset(rest) == multiset(cs) && |sorted| + |rest| == |cs|
      invariant Descending(sorted)
      invariant forall i, c | 0 <= i < |sorted| && c in rest :: sorted[i].score >= c.score
      decreases |rest|
    {
      var k := IndexOfBest(rest);
      Removed(rest, k);
      sorted := sorted + [rest[k]];
      rest := rest[..k] + rest[k + 1..];
    }
  }

  lemma Removed(cs: seq<Chunk>, k: nat)
    requires k < |cs|
    ensures var others := cs[..k] + cs[k + 1..];
      && multiset(cs) == multiset(others) + multiset{cs[k]}
      && forall j | 0 <= j < |others| :: others[j] in cs
  {
    assert cs == cs[..k] + [cs[k]] + cs[k + 1..];
  }

  /** `result` are the `topK` best of `cs`, or all if there are fewer, best first, and `rest` the others. */
  ghost predicate AreBest(result: seq<Chunk>, rest: seq<Chunk>, topK: int, cs: seq<Chunk>) {
    && multiset(result + rest) == multiset(cs) && Descending(result + rest)
    && |result| == if topK <= |cs| then topK else |cs|
  }

  /** `c` is a chunk of the index, its score the share of the query's tokens that its content has. */
  ghost predicate IsScored(index: map<string, seq<Chunk>>, query: set<string>, tokenize: Tokenizer, c: Chunk) {
    exists id, b: Chunk | id in index && b in index[id] :: c == b.(score := OverlapScore(query, tokenize(b.content)))
  }

  /** What is retrieved and what is left are exactly the chunks of the index, each with its score; there are
      `topK` of the former, or all; they come best first, and nothing left scores higher than any of them. */
  lemma RetrievedAreBest(index: map<string, seq<Chunk>>, order: seq<string>, query: set<string>, tokenize: Tokenizer,
                         topK: int, result: seq<Chunk>, rest: seq<Chunk>)
    requires VisitOrder(index, order) && topK > 0
    requires AreBest(result, rest, topK, ScoreAll(query, tokenize, Gather(index, order)))
    ensures forall c :: c in result || c in rest <==> IsScored(index, query, tokenize, c)
    ensures |result| == topK || (|result| < topK && rest == [])
    ensures forall i, j | 0 <= i < j < |result| :: result[j].score <= result[i].score
    ensures forall c, d | c in result && d in rest :: d.score <= c.score
  {
    var scored := ScoreAll(query, tokenize, Gather(index, order));
    forall c ensures c in result || c in rest <==> c in scored {
      SameMembers(result + rest, scored, c);
      assert c in result + rest <==> c in result || c in rest;
    }
    forall c ensures c in scored <==> IsScored(index, query, tokenize, c) {
      ScoredIff(index, order, query, tokenize, c);
    }
    SameLength(result + rest, scored);
    BestComeFirst(result, rest);
  }

  lemma SameMembers(a: seq<Chunk>, b: seq<Chunk>, c: Chunk)
    requires multiset(a) == multiset(b)
    ensures c in a <==> c in b
  {
    assert c in a <==> c in multiset(a);
    assert c in b <==> c in multiset(b);
  }

  lemma SameLength(a: seq<Chunk>, b: seq<Chunk>)
    requires multiset(a) == multiset(b)
    ensures |a| == |b|
  {
    assert |multiset(a)| == |a| && |multiset(b)| == |b|;
  }

  lemma BestComeFirst(result: seq<Chunk>, rest: seq<Chunk>)
    requires Descending(result + rest)
    ensures forall i, j | 0 <= i < j < |result| :: result[j].score <= result[i].score
    ensures forall c, d | c in result && d in rest :: d.score <= c.score
  {
    var all := result + rest;
    forall i, j | 0 <= i < j < |result| ensures result[j].score <= result[i].score {
      assert all[i] == result[i] && all[j] == result[j];
    }
    forall c, d | c in result && d in rest ensures d.score <= c.score {
      var i :| 0 <= i < |result| && result[i] == c;
      var j :| 0 <= j < |rest| && rest[j] == d;
      assert all[i] == c && all[|result| + j] == d;
    }
  }

  lemma ScoredIff(index: map<string, seq<Chunk>>, order: seq<string>, query: set<string>, tokenize: Tokenizer, c: Chunk)
    requires VisitOrder(index, order)
    ensures c in ScoreAll(query, tokenize, Gather(index, order)) <==> IsScored(index, query, tokenize, c)
  {
    var all := Gather(index, order);
    assert forall id :: id in SeqToSet(order) <==> id in order;
    if c in ScoreAll(query, tokenize, all) {
      var i :| 0 <= i < |all| && ScoreAll(query, tokenize, all)[i] == c;
      GatheredIff(index, order, all[i]);
      assert all[i] in all;
    }
    if IsScored(index, query, tokenize, c) {
      var id, b: Chunk :| id in index && b in index[id] && c == b.(score := OverlapScore(query, tokenize(b.content)));
      GatheredIff(index, order, b);
      var i :| 0 <= i < |all| && all[i] == b;
      assert ScoreAll(query, tokenize, all)[i] == c;
    }
  }

  method TakeBest(cs: seq<Chunk>, topK: int) returns (result: seq<Chunk>, ghost rest: seq<Chunk>)
    requires topK > 0
    ensures AreBest(result, rest, topK, cs)
  {
    var sorted := SortByScore(cs);
    var k := if topK > |sorted| then |sorted| else topK;
    result := sorted[..k];
    rest := sorted[k..];
    assert result + rest == sorted;
  }

  method IndexOfBest(cs: seq<Chunk>) returns (k: nat)
    requires cs != []
    ensures k < |cs| && forall c | c in cs :: c.score <= cs[k].score
  {
    k := 0;
    for i := 0 to |cs|
      invariant k < |cs| && forall j | 0 <= j < i :: cs[j].score <= cs[k].score
    {
      if cs[i].score > cs[k].score {
        k := i;
      }
    }
  }

  // ---------------------------------------------------------------------------------------
  // AssembleContext
  // ---------------------------------------------------------------------------------------

  /** Two line feeds, three dashes and two line feeds. */
  const SEPARATOR: Bytes := [10, 10, 45, 45, 45, 10, 10]

  function Join(parts: seq<Bytes>): Bytes {
    if parts == [] then []
    else if |parts| == 1 then parts[0]
    else Join(parts[..|parts| - 1]) + SEPARATOR + parts[|parts| - 1]
  }

  /** Joining one part is the part, and lists are joined with the separator between them. */
  lemma JoinSeparates(a: seq<Bytes>, b: seq<Bytes>)
    ensures |a| == 1 ==> Join(a) == a[0]
    ensures a != [] && b != [] ==> Join(a + b) == Join(a) + Encode("\n\n---\n\n") + Join(b)
  {
    SeparatorIsEncoded();
    JoinConcat(a, b);
  }

  lemma {:induction false} JoinConcat(a: seq<Bytes>, b: seq<Bytes>)
    ensures a != [] && b != [] ==> Join(a + b) == Join(a) + SEPARATOR + Join(b)
    decreases |b|
  {
    if a != [] && |b| == 1 {
      assert (a + b)[..|a + b| - 1] == a;
    } else if a != [] && b != [] {
      JoinConcat(a, b[..|b| - 1]);
      JoinLast(a, b);
    }
  }

  lemma JoinLast(a: seq<Bytes>, b: seq<Bytes>)
    requires a != [] && |b| > 1
    ensures Join(a + b) == Join(a + b[..|b| - 1]) + SEPARATOR + b[|b| - 1]
    ensures Join(a) + SEPARATOR + Join(b) == Join(a) + SEPARATOR + Join(b[..|b| - 1]) + SEPARATOR + b[|b| - 1]
  {
    assert (a + b)[..|a + b| - 1] == a + b[..|b| - 1];
    Associate(Join(a) + SEPARATOR, Join(b[..|b| - 1]), SEPARATOR);
    Associate(Join(a) + SEPARATOR, Join(b[..|b| - 1]) + SEPARATOR, b[|b| - 1]);
  }

  lemma SeparatorIsEncoded()
    ensures SEPARATOR == Encode("\n\n---\n\n")
  {
    var s := "\n\n---\n\n";
    EncodeAscii(s, 7);
    assert s[..7] == s;
  }

  lemma {:induction false} EncodeAscii(s: string, n: nat)
    requires n <= |s| && forall i | 0 <= i < n :: s[i] as int < 0x80
    ensures Encode(s[..n]) == seq(n, i requires 0 <= i < n => s[i] as int as Byte)
  {
    if n > 0 {
      EncodeAscii(s, n - 1);
      assert s[..n][..n - 1] == s[..n - 1];
    }
  }

  function TotalLength(parts: seq<Bytes>): nat {
    if parts == [] then 0 else TotalLength(parts[..|parts| - 1]) + |parts[|parts| - 1]|
  }

  /** `parts` are all of `contents`, or the first `n` and as much of the next as fills `maxLength`; an
      empty remainder adds no part. */
  ghost predicate FillsBudget(contents: seq<Bytes>, maxLength: int, parts: seq<Bytes>, n: nat) {
    && n <= |contents|
    && (maxLength > 0 ==> TotalLength(contents[..n]) <= maxLength)
    && if n == |contents| then parts == contents
       else
         && maxLength > 0 && TotalLength(contents[..n]) + |contents[n]| > maxLength
         && var remaining := maxLength - TotalLength(contents[..n]);
            parts == contents[..n] + if remaining > 0 then [contents[n][..remaining]] else []
  }

  method AssembleContext(chunks: seq<Chunk>, maxLength: int) returns (context: Bytes)
    ensures exists parts, n: nat :: FillsBudget(Contents(chunks), maxLength, parts, n) && context == Join(parts)
  {
    ghost var contents := Contents(chunks);
    if |chunks| == 0 {
      assert FillsBudget(contents, maxLength, [], 0);
      return [];
    }
    var pieces: seq<Bytes>, totalLen := [], 0;
    for i := 0 to |chunks|
      invariant pieces == contents[..i] && totalLen == TotalLength(contents[..i])
      invariant maxLength > 0 ==> totalLen <= maxLength
    {
      var c := Encode(chunks[i].content);
      assert contents[i] == c;
      if maxLength > 0 && totalLen + |c| > maxLength {
        var remaining := maxLength - totalLen;
        if remaining > 0 {
          pieces := pieces + [c[..remaining]];
        }
        assert FillsBudget(contents, maxLength, pieces, i);
        context := JoinParts(pieces);
        return;
      }
      assert contents[..i + 1][..i] == contents[..i];
      pieces := pieces + [c];
      totalLen := totalLen + |c|;
    }
    assert contents[..|chunks|] == contents;
    assert FillsBudget(contents, maxLength, pieces, |chunks|);
    context := JoinParts(pieces);
  }

  function Contents(chunks: seq<Chunk>): seq<Bytes> {
    seq(|chunks|, i requires 0 <= i < |chunks| => Encode(chunks[i].content))
  }

  /** strings.Join. */
  method JoinParts(parts: seq<Bytes>) returns (s: Bytes)
    ensures s == Join(parts)
  {
    s := [];
    for i := 0 to |parts|
      invariant s == Join(parts[..i])
    {
      assert parts[..i + 1][..i] == parts[..i];
      s := if i == 0 then parts[0] else s + SEPARATOR + parts[i];
    }
    assert parts[..|parts|] == parts;
  }

  /** With a budget, the context uses every chunk whole, within the budget, or exactly the budget. */
  lemma BudgetIsMet(contents: seq<Bytes>, maxLength: int, parts: seq<Bytes>, n: nat)
    requires FillsBudget(contents, maxLength, parts, n) && maxLength > 0
    ensures if n == |contents| then parts == contents && TotalLength(parts) <= maxLength else TotalLength(parts) == maxLength
  {
    if n == |contents| {
      assert contents[..n] == contents;
    } else {
      var remaining := maxLength - TotalLength(contents[..n]);
      if remaining > 0 {
        var last := contents[n][..remaining];
        assert (contents[..n] + [last])[..n] == contents[..n];
      } else {
        assert contents[..n] + [] == contents[..n];
      }
    }
  }

  function Concat(parts: seq<Bytes>): Bytes {
    if parts == [] then [] else Concat(parts[..|parts| - 1]) + parts[|parts| - 1]
  }

  lemma {:induction false} ConcatLength(parts: seq<Bytes>)
    ensures |Concat(parts)| == TotalLength(parts)
  {
    if parts != [] {
      ConcatLength(parts[..|parts| - 1]);
    }
  }

  lemma {:induction false} ConcatPrefix(contents: seq<Bytes>, n: nat, k: nat)
    requires n < |contents| && k <= |contents[n]|
    ensures Concat(contents[..n]) + contents[n][..k] <= Concat(contents)
    decreases |contents|
  {
    var m := |contents| - 1;
    if n < m {
      ConcatPrefix(contents[..m], n, k);
      assert contents[..m][..n] == contents[..n];
    }
  }

  /** Apart from the separators, a context is the first bytes of all contents: as many as the budget
      allows, or all; and the chunk boundaries among them are kept. */
  lemma ContextIsAPrefix(contents: seq<Bytes>, maxLength: int, parts: seq<Bytes>, n: nat)
    requires FillsBudget(contents, maxLength, parts, n)
    ensures Concat(parts) <= Concat(contents)
    ensures |Concat(parts)| == if 0 < maxLength < |Concat(contents)| then maxLength else |Concat(contents)|
    ensures |parts| <= |contents| && forall i | 0 <= i < |parts| - 1 :: parts[i] == contents[i]
  {
    ConcatLength(parts);
    ConcatLength(contents);
    if n < |contents| {
      var remaining := maxLength - TotalLength(contents[..n]);
      BudgetIsMet(contents, maxLength, parts, n);
      CutNotBefore(contents, n, |contents|);
      assert contents[..|contents|] == contents;
      ConcatPrefix(contents, n, remaining);
      PartsWithCut(contents[..n], contents[n][..remaining]);
    } else if maxLength > 0 {
      assert contents[..n] == contents;
    }
  }

  lemma PartsWithCut(whole: seq<Bytes>, cut: Bytes)
    ensures Concat(whole + [cut]) == Concat(whole) + cut
    ensures cut == [] ==> Concat(whole + []) == Concat(whole) + cut
  {
    assert (whole + [cut])[..|whole|] == whole;
    assert whole + [] == whole;
  }

  /** The separators between `count` parts. */
  function SeparatorLength(count: nat): (length: nat)
    ensures length > 0 <==> count > 1
    ensures length == |SEPARATOR| * if count > 1 then count - 1 else 0
  {
    if count <= 1 then 0 else 7 * (count - 1)
  }

  lemma {:induction false} JoinedLength(parts: seq<Bytes>)
    ensures |Join(parts)| == TotalLength(parts) + SeparatorLength(|parts|)
  {
    if |parts| > 1 {
      JoinedLength(parts[..|parts| - 1]);
    } else if |parts| == 1 {
      assert parts[..|parts| - 1] == [];
    }
  }

  /** The separators come on top of the budget, so the context stays within it iff there is at most one
      chunk, or the first one fills the budget, or all chunks fit with the separators between them. */
  ghost predicate FitsWithSeparators(contents: seq<Bytes>, maxLength: int) {
    || |contents| <= 1
    || |contents[0]| > maxLength
    || (|contents[0]| == maxLength && contents[1] != [])
    || TotalLength(contents) + SeparatorLength(|contents|) <= maxLength
  }

  lemma ContextFitsIff(contents: seq<Bytes>, maxLength: int, parts: seq<Bytes>, n: nat)
    requires FillsBudget(contents, maxLength, parts, n) && maxLength > 0
    ensures |Join(parts)| <= maxLength <==> FitsWithSeparators(contents, maxLength)
  {
    BudgetIsMet(contents, maxLength, parts, n);
    JoinedLength(parts);
    TotalOfFirst(contents);
    if n == |contents| {
      assert contents[..n] == contents;
    } else {
      FewPartsIff(contents, maxLength, parts, n);
      CutNotBefore(contents, n, |contents|);
      assert contents[..|contents|] == contents;
    }
  }

  /** A cut leaves at most one part iff the first chunk fills the budget. */
  lemma FewPartsIff(contents: seq<Bytes>, maxLength: int, parts: seq<Bytes>, n: nat)
    requires FillsBudget(contents, maxLength, parts, n) && maxLength > 0 && n < |contents|
    ensures |parts| <= 1 <==>
      |contents[0]| > maxLength || |contents| == 1 || (|contents[0]| == maxLength && contents[1] != [])
  {
    TotalOfFirst(contents);
    if n == 0 {
      assert contents[..0] == [];
    } else {
      CutNotBefore(contents, 0, n);
      if n > 1 { CutNotBefore(contents, 1, n); }
    }
  }

  lemma TotalOfFirst(contents: seq<Bytes>)
    ensures TotalLength(contents[..0]) == 0
    ensures |contents| > 0 ==> TotalLength(contents[..1]) == |contents[0]| && TotalLength(contents) >= |contents[0]|
    ensures |contents| > 1 ==> TotalLength(contents) >= |contents[0]| + |contents[1]|
  {
    if |contents| > 0 {
      assert contents[..1][..0] == [] && contents[..|contents|] == contents;
      CutNotBefore(contents, 0, |contents|);
      if |contents| > 1 { CutNotBefore(contents, 1, |contents|); }
    }
  }

  /** A context that is too long: two bytes of content and seven of separator, for a budget of two. */
  lemma SeparatorsExceedBudget(a: Byte, b: Byte, c: Byte)
    ensures var contents := [[a], [b, c]];
      FillsBudget(contents, 2, [[a], [b]], 1) && |Join([[a], [b]])| == 9
  {
    var contents: seq<Bytes> := [[a], [b, c]];
    assert contents[..1] == [[a]] && [[a]][..0] == [];
    assert TotalLength([[a]]) == 1;
    assert [b, c][..1] == [b];
    JoinedLength([[a], [b]]);
    assert [[a], [b]][..1] == [[a]];
  }

  /** Where the cut falls is determined by the lengths. */
  lemma CutIsUnique(contents: seq<Bytes>, maxLength: int, p1: seq<Bytes>, n1: nat, p2: seq<Bytes>, n2: nat)
    requires FillsBudget(contents, maxLength, p1, n1) && FillsBudget(contents, maxLength, p2, n2)
    ensures n1 == n2 && p1 == p2
  {
    if n1 < n2 {
      CutNotBefore(contents, n1, n2);
    } else if n2 < n1 {
      CutNotBefore(contents, n2, n1);
    }
  }

  lemma {:induction false} CutNotBefore(contents: seq<Bytes>, i: nat, j: nat)
    requires i < j <= |contents|
    ensures TotalLength(contents[..i]) + |contents[i]| <= TotalLength(contents[..j])
    decreases j
  {
    assert contents[..j][..j - 1] == contents[..j - 1];
    if i < j - 1 {
      CutNotBefore(contents, i, j - 1);
    }
  }

  // ---------------------------------------------------------------------------------------
  // The pipeline
  // ---------------------------------------------------------------------------------------

  class Pipeline {
    var docs: map<string, Document>
    var chunks: map<string, seq<Chunk>>

    /** The index holds the chunks of exactly the documents. */
    ghost predicate Valid() reads this {
      docs.Keys == chunks.Keys && forall id | id in docs :: docs[id].id == id && chunks[id] == ChunksOf(docs[id])
    }

    constructor ()
      ensures Valid() && docs == map[]
    {
      docs, chunks := map[], map[];
    }

    /** Adds a document, replacing the one with the same identifier. */
    method Index(hasContext: bool, doc: Document) returns (err: Option<RetrievalError>)
      requires Valid()
      modifies this
      ensures Valid()
      ensures err == if !hasContext then Some(NoContext) else if doc.id == "" then Some(NoDocumentId)
                     else if doc.content == "" then Some(NoContent) else None
      ensures docs == if err.None? then old(docs)[doc.id := doc] else old(docs)
    {
      if !hasContext {
        return Some(NoContext);
      }
      if doc.id == "" {
        return Some(NoDocumentId);
      }
      if doc.content == "" {
        return Some(NoContent);
      }
      var split := SplitIntoChunks(doc);
      docs := docs[doc.id := doc];
      chunks := chunks[doc.id := split];
      err := None;
    }

    /** `cancelled(i)` tells whether the context is done when the i-th document is visited. On success
        the result is the best of the scored chunks, best first: none of the `rest` scores higher than
        any of it, and together they are all the chunks of the index. */
    method Retrieve(hasContext: bool, cancelled: nat -> bool, tokenize: Tokenizer, query: string, topK: int)
      returns (result: seq<Chunk>, err: Option<RetrievalError>, ghost rest: seq<Chunk>, ghost order: seq<string>)
      requires Valid()
      ensures !hasContext ==> err == Some(NoContext)
      ensures hasContext && query == "" ==> err == Some(NoQuery)
      ensures hasContext && query != "" && topK <= 0 ==> err == Some(BadTopK)
      ensures hasContext && query != "" && topK > 0 ==>
        err == if exists i | 0 <= i < |chunks| :: cancelled(i) then Some(Cancelled) else None
      ensures err.None? ==>
        && VisitOrder(chunks, order)
        && AreBest(result, rest, topK, ScoreAll(tokenize(query), tokenize, Gather(chunks, order)))
    {
      result, rest, order := [], [], [];
      if !hasContext {
        err := Some(NoContext);
        return;
      }
      if query == "" {
        err := Some(NoQuery);
        return;
      }
      if topK <= 0 {
        err := Some(BadTopK);
        return;
      }
      var allChunks, done;
      allChunks, done, order := CollectChunks(cancelled);
      if done {
        err := Some(Cancelled);
        return;
      }
      var queryTokens := tokenize(query);
      var scored := ScoreChunks(queryTokens, tokenize, allChunks);
      result, rest := TakeBest(scored, topK);
      err := None;
    }

    /** Ranges over the index, unless the context is done. */
    method CollectChunks(cancelled: nat -> bool) returns (all: seq<Chunk>, done: bool, ghost order: seq<string>)
      ensures done <==> exists i | 0 <= i < |chunks| :: cancelled(i)
      ensures !done ==> VisitOrder(chunks, order) && all == Gather(chunks, order)
    {
      all, order := [], [];
      var visited := 0;
      var todo := chunks.Keys;
      while todo != {}
        invariant todo <= chunks.Keys && visited + |todo| == |chunks|
        invariant Distinct(order) && forall k :: k in order <==> k in chunks && k !in todo
        invariant all == Gather(chunks, order)
        invariant forall i | 0 <= i < visited :: !cancelled(i)
      {
        if cancelled(visited) {
          return all, true, order;
        }
        var id :| id in todo;
        todo := todo - {id};
        GatherOneMore(chunks, order, id);
        all := all + chunks[id];
        order := order + [id];
        visited := visited + 1;
      }
      done := false;
    }
  }

  method ScoreChunks(query: set<string>, tokenize: Tokenizer, cs: seq<Chunk>) returns (scored: seq<Chunk>)
    ensures scored == ScoreAll(query, tokenize, cs)
  {
    scored := cs;
    for i := 0 to |cs|
      invariant |scored| == |cs| && scored[i..] == cs[i..]
      invariant forall j | 0 <= j < i :: scored[j] == Score(query, tokenize, cs[j])
    {
      assert scored[i] == scored[i..][0] == cs[i];
      var s := CountOverlap(query, tokenize(scored[i].content));
      scored := scored[i := scored[i].(score := s)];
    }
  }
}
