/** Splitting a document into sentences: ai/retrieval/pipeline.go. Here a string is a sequence of
    Unicode code points. */
module Chunking {
  import opened Sequences

  /** The code points that unicode.IsSpace accepts. */
  predicate IsSpace(c: char) {
    var n := c as int;
    || 9 <= n <= 13 || n == 32 || n == 0x85 || n == 0xA0 || n == 0x1680 || 0x2000 <= n <= 0x200A
    || 0x2028 <= n <= 0x2029 || n == 0x202F || n == 0x205F || n == 0x3000
  }

  predicate IsMark(c: char) { c == '.' || c == '!' || c == '?' }

  /** `s[i..j]` is all space. */
  ghost predicate SpaceIn(s: string, i: int, j: int) {
    0 <= i <= j <= |s| && forall k | i <= k < j :: IsSpace(s[k])
  }

  // ---------------------------------------------------------------------------------------
  // The library functions
  // ---------------------------------------------------------------------------------------

  /** The first position at or after `i`, and before `end`, that is not a space. */
  function SkipSpace(s: string, i: nat, end: nat): (j: nat)
    requires i <= end <= |s|
    ensures i <= j <= end && SpaceIn(s, i, j) && (j < end ==> !IsSpace(s[j]))
    decreases end - i
  {
    if i < end && IsSpace(s[i]) then SkipSpace(s, i + 1, end) else i
  }

  /** The end of `s[i..end]` without trailing spaces. */
  function DropSpace(s: string, i: nat, end: nat): (j: nat)
    requires i <= end <= |s|
    ensures i <= j <= end && SpaceIn(s, j, end) && (i < j ==> !IsSpace(s[j - 1]))
    decreases end
  {
    if i < end && IsSpace(s[end - 1]) then DropSpace(s, i, end - 1) else end
  }

  function TrimSpace(s: string): string {
    var i := SkipSpace(s, 0, |s|);
    s[i..DropSpace(s, i, |s|)]
  }

  /** strings.ReplaceAll of `mark` and a space by `mark` and a newline. */
  function ReplaceAll(s: string, mark: char): (r: string)
    ensures |r| == |s|
  {
    if |s| < 2 then s
    else if s[0] == mark && s[1] == ' ' then [mark, '\n'] + ReplaceAll(s[2..], mark)
    else [s[0]] + ReplaceAll(s[1..], mark)
  }

  lemma {:induction false} ReplaceAllAt(s: string, mark: char, i: nat)
    requires i < |s| && mark != ' '
    ensures ReplaceAll(s, mark)[i] == if s[i] == ' ' && i > 0 && s[i - 1] == mark then '\n' else s[i]
  {
    if |s| >= 2 {
      if s[0] == mark && s[1] == ' ' {
        if i >= 2 { ReplaceAllAt(s[2..], mark, i - 2); }
      } else if i >= 1 {
        ReplaceAllAt(s[1..], mark, i - 1);
      }
    }
  }

  function BreakMarks(s: string): (r: string)
    ensures |r| == |s|
  {
    ReplaceAll(ReplaceAll(ReplaceAll(s, '.'), '!'), '?')
  }

  /** Exactly the single spaces that follow a sentence mark become newlines. */
  lemma BreakMarksAt(s: string, i: nat)
    requires i < |s|
    ensures BreakMarks(s)[i] == if s[i] == ' ' && i > 0 && IsMark(s[i - 1]) then '\n' else s[i]
  {
    var a := ReplaceAll(s, '.');
    var b := ReplaceAll(a, '!');
    ReplaceAllAt(s, '.', i);
    ReplaceAllAt(a, '!', i);
    ReplaceAllAt(b, '?', i);
    if i > 0 {
      ReplaceAllAt(s, '.', i - 1);
      ReplaceAllAt(a, '!', i - 1);
    }
  }

  /** The end of the line that starts at `i`. */
  function LineEnd(s: string, i: nat): (e: nat)
    requires i <= |s|
    ensures i <= e <= |s| && (forall k | i <= k < e :: s[k] != '\n') && (e < |s| ==> s[e] == '\n')
    decreases |s| - i
  {
    if i < |s| && s[i] != '\n' then LineEnd(s, i + 1) else i
  }

  datatype Span = Span(start: nat, end: nat)

  ghost predicate Within(s: string, spans: seq<Span>) {
    forall k | 0 <= k < |spans| :: spans[k].start <= spans[k].end <= |s|
  }

  function Text(s: string, sp: Span): string { if sp.start <= sp.end <= |s| then s[sp.start..sp.end] else "" }

  function Texts(s: string, spans: seq<Span>): seq<string> {
    if spans == [] then [] else [Text(s, spans[0])] + Texts(s, spans[1..])
  }

  /** The lines of `s` from position `i`, as spans. */
  function LinesFrom(s: string, i: nat): seq<Span>
    requires i <= |s|
    decreases |s| - i
  {
    var e := LineEnd(s, i);
    [Span(i, e)] + if e < |s| then LinesFrom(s, e + 1) else []
  }

  /** strings.Split(s, "\n"). */
  function Lines(s: string): seq<string> { Texts(s, LinesFrom(s, 0)) }

  /** `lines` are the stretches of `s` between its newlines, from position `i` on. */
  ghost predicate AreLines(s: string, i: nat, lines: seq<Span>)
    decreases lines
  {
    && lines != [] && lines[0].start == i && i <= lines[0].end <= |s|
    && (forall k | i <= k < lines[0].end :: s[k] != '\n')
    && if |lines| == 1 then lines[0].end == |s|
       else lines[0].end < |s| && s[lines[0].end] == '\n' && AreLines(s, lines[0].end + 1, lines[1..])
  }

  lemma {:induction false} LinesFromAreLines(s: string, i: nat)
    requires i <= |s|
    ensures AreLines(s, i, LinesFrom(s, i))
    decreases |s| - i
  {
    var e := LineEnd(s, i);
    if e < |s| {
      LinesFromAreLines(s, e + 1);
      TailOfCons(Span(i, e), LinesFrom(s, e + 1));
    } else {
      EmptyRight([Span(i, e)]);
    }
  }

  // ---------------------------------------------------------------------------------------
  // splitSentences
  // ---------------------------------------------------------------------------------------

  function KeptLine(line: string): seq<string> {
    if TrimSpace(line) != "" then [TrimSpace(line)] else []
  }

  /** The trimmed lines that are not empty. */
  function Kept(lines: seq<string>): seq<string> {
    if lines == [] then [] else KeptLine(lines[0]) + Kept(lines[1..])
  }

  /** What splitSentences returns. */
  function Sentences(input: string): seq<string> {
    if TrimSpace(input) == "" then [] else Kept(Lines(BreakMarks(TrimSpace(input))))
  }

  lemma KeptStep(lines: seq<string>, i: nat, result: seq<string>)
    requires i < |lines|
    ensures result + Kept(lines[i..]) == result + KeptLine(lines[i]) + Kept(lines[i + 1..])
    ensures result + [] == result
  {
    assert lines[i..][0] == lines[i] && lines[i..][1..] == lines[i + 1..];
    Associate(result, KeptLine(lines[i]), Kept(lines[i + 1..]));
    EmptyRight(result);
  }

  lemma NothingKept(result: seq<string>)
    ensures result + Kept([]) == result
  {
  }

  method SplitSentences(input: string) returns (result: seq<string>)
    ensures result == Sentences(input)
  {
    var text := TrimSpace(input);
    if text == "" {
      return [];
    }
    TrimmedIsKept(input);
    text := ReplaceAll(text, '.');
    text := ReplaceAll(text, '!');
    text := ReplaceAll(text, '?');
    result := KeepLines(Lines(text));
    if |result| == 0 {
      result := result + [text];
    }
  }

  /** The loop of splitSentences. */
  method KeepLines(lines: seq<string>) returns (result: seq<string>)
    ensures result == Kept(lines)
  {
    result := [];
    for i := 0 to |lines|
      invariant Kept(lines) == result + Kept(lines[i..])
    {
      KeptStep(lines, i, result);
      var line := TrimSpace(lines[i]);
      if line != "" {
        result := result + [line];
      }
    }
    assert lines[|lines|..] == [];
    NothingKept(result);
  }

  // ---------------------------------------------------------------------------------------
  // Where the sentences lie in the text
  // ---------------------------------------------------------------------------------------

  function TrimmedLine(s: string, line: Span): seq<Span>
    requires line.start <= line.end <= |s|
  {
    var a := SkipSpace(s, line.start, line.end);
    var b := DropSpace(s, a, line.end);
    if a < b then [Span(a, b)] else []
  }

  /** The trimmed, non-empty ones of `lines`. */
  function Trimmed(s: string, lines: seq<Span>): seq<Span>
    requires Within(s, lines)
  {
    if lines == [] then [] else TrimmedLine(s, lines[0]) + Trimmed(s, lines[1..])
  }

  /** `sp` is a non-empty stretch of one line, without space at its ends. */
  ghost predicate IsTrimmed(s: string, sp: Span) {
    && sp.start < sp.end <= |s| && !IsSpace(s[sp.start]) && !IsSpace(s[sp.end - 1])
    && forall k | sp.start <= k < sp.end :: s[k] != '\n'
  }

  ghost predicate NewlineIn(s: string, i: int, j: int) {
    exists k | 0 <= i <= k < j <= |s| :: s[k] == '\n'
  }

  /** The spans from position `i` on are trimmed and in order; only space, with a newline in it,
      separates neighbours, and only space surrounds them. */
  ghost predicate Covers(s: string, i: nat, spans: seq<Span>)
    decreases spans
  {
    if spans == [] then SpaceIn(s, i, |s|)
    else
      && SpaceIn(s, i, spans[0].start) && IsTrimmed(s, spans[0])
      && (|spans| > 1 ==> NewlineIn(s, spans[0].end, spans[1].start))
      && Covers(s, spans[0].end, spans[1..])
  }

  lemma CoversStart(s: string, i: nat, spans: seq<Span>)
    requires Covers(s, i, spans)
    ensures SpaceIn(s, i, if spans == [] then |s| else spans[0].start)
  {
  }

  /** Spans that cover from `j` on also cover from `i` on, if only space lies between. */
  lemma CoverMore(s: string, i: nat, j: nat, spans: seq<Span>)
    requires SpaceIn(s, i, j) && Covers(s, j, spans)
    ensures Covers(s, i, spans)
  {
  }

  lemma {:induction false} LinesAreWithin(s: string, i: nat, lines: seq<Span>)
    requires AreLines(s, i, lines)
    ensures Within(s, lines)
    decreases |lines|
  {
    if |lines| > 1 {
      LinesAreWithin(s, lines[0].end + 1, lines[1..]);
      assert forall k | 0 < k < |lines| :: lines[k] == lines[1..][k - 1];
    }
  }

  lemma {:induction false} TrimmedLinesCover(s: string, i: nat, lines: seq<Span>)
    requires AreLines(s, i, lines) && Within(s, lines)
    ensures Covers(s, i, Trimmed(s, lines))
    decreases |lines|
  {
    var e := lines[0].end;
    var a := SkipSpace(s, i, e);
    var b := DropSpace(s, a, e);
    if |lines| > 1 {
      LinesAreWithin(s, e + 1, lines[1..]);
      TrimmedLinesCover(s, e + 1, lines[1..]);
      LineCovers(s, i, a, b, e, Trimmed(s, lines[1..]));
    } else {
      LastLineCovers(s, i, a, b);
      assert lines[1..] == [];
      EmptyRight(TrimmedLine(s, lines[0]));
    }
  }

  lemma LineCovers(s: string, i: nat, a: nat, b: nat, e: nat, rest: seq<Span>)
    requires SpaceIn(s, i, a) && a <= b && SpaceIn(s, b, e) && e < |s| && s[e] == '\n'
    requires (forall k | i <= k < e :: s[k] != '\n') && (a < b ==> !IsSpace(s[a]) && !IsSpace(s[b - 1]))
    requires Covers(s, e + 1, rest)
    ensures Covers(s, i, (if a < b then [Span(a, b)] else []) + rest)
  {
    CoversStart(s, e + 1, rest);
    CoverMore(s, b, e + 1, rest);
    if a < b {
      assert rest != [] ==> NewlineIn(s, b, rest[0].start);
      CoverCons(s, i, Span(a, b), rest);
    } else {
      CoverMore(s, i, b, rest);
      EmptyLeft(rest);
    }
  }

  lemma LastLineCovers(s: string, i: nat, a: nat, b: nat)
    requires SpaceIn(s, i, a) && a <= b && SpaceIn(s, b, |s|)
    requires (forall k | i <= k < |s| :: s[k] != '\n') && (a < b ==> !IsSpace(s[a]) && !IsSpace(s[b - 1]))
    ensures Covers(s, i, if a < b then [Span(a, b)] else [])
  {
    if a < b {
      CoverCons(s, i, Span(a, b), []);
      EmptyRight([Span(a, b)]);
    }
  }

  lemma CoverCons(s: string, i: nat, sp: Span, rest: seq<Span>)
    requires SpaceIn(s, i, sp.start) && IsTrimmed(s, sp) && Covers(s, sp.end, rest)
    requires rest != [] ==> NewlineIn(s, sp.end, rest[0].start)
    ensures Covers(s, i, [sp] + rest)
  {
    assert ([sp] + rest)[1..] == rest;
  }

  // ---------------------------------------------------------------------------------------
  // The sentences are the stretches those spans mark
  // ---------------------------------------------------------------------------------------

  lemma {:induction false} CoveringIsWithin(s: string, i: nat, spans: seq<Span>)
    requires Covers(s, i, spans)
    ensures Within(s, spans)
    decreases |spans|
  {
    if spans != [] {
      CoveringIsWithin(s, spans[0].end, spans[1..]);
      assert forall k | 0 < k < |spans| :: spans[k] == spans[1..][k - 1];
    }
  }

  lemma {:induction false} SkipShift(s: string, r: string, i: nat, j: nat, end: nat)
    requires i <= j <= end <= |s| && r == s[i..end]
    ensures SkipSpace(r, j - i, end - i) == SkipSpace(s, j, end) - i
    decreases end - j
  {
    if j < end {
      assert r[j - i] == s[j];
      if IsSpace(s[j]) {
        SkipShift(s, r, i, j + 1, end);
      }
    }
  }

  lemma {:induction false} DropShift(s: string, r: string, i: nat, end: nat, a: nat, e: nat)
    requires i <= a <= e <= end <= |s| && r == s[i..end]
    ensures DropSpace(r, a - i, e - i) == DropSpace(s, a, e) - i
    decreases e
  {
    if a < e {
      assert r[e - 1 - i] == s[e - 1];
      if IsSpace(s[e - 1]) {
        DropShift(s, r, i, end, a, e - 1);
      }
    }
  }

  lemma TrimmedSlice(s: string, r: string, i: nat, e: nat, a: nat, b: nat)
    requires i <= e <= |s| && r == s[i..e] && a == SkipSpace(s, i, e) && b == DropSpace(s, a, e)
    ensures i <= a <= b <= e && TrimSpace(r) == r[a - i..b - i]
  {
    SkipShift(s, r, i, i, e);
    DropShift(s, r, i, e, a, e);
    TrimIs(r, a - i, b - i);
  }

  lemma TrimOfSlice(s: string, i: nat, e: nat, a: nat, b: nat)
    requires i <= e <= |s| && a == SkipSpace(s, i, e) && b == DropSpace(s, a, e)
    ensures TrimSpace(s[i..e]) == s[a..b]
  {
    TrimmedSlice(s, s[i..e], i, e, a, b);
    SliceOfSlice(s, i, e, a - i, b - i);
  }

  lemma TrimIs(r: string, x: nat, y: nat)
    requires x == SkipSpace(r, 0, |r|) && y == DropSpace(r, x, |r|)
    ensures TrimSpace(r) == r[x..y]
  {
  }

  lemma KeptLineIsSpan(s: string, line: Span)
    requires line.start <= line.end <= |s|
    ensures Within(s, TrimmedLine(s, line)) && KeptLine(Text(s, line)) == Texts(s, TrimmedLine(s, line))
  {
    var a := SkipSpace(s, line.start, line.end);
    var b := DropSpace(s, a, line.end);
    TrimOfSlice(s, line.start, line.end, a, b);
    OneText(s, Span(a, b));
  }

  lemma OneText(s: string, sp: Span)
    ensures Texts(s, [sp]) == [Text(s, sp)]
  {
    assert [sp][1..] == [];
  }

  lemma {:induction false} TextsConcat(s: string, a: seq<Span>, b: seq<Span>)
    ensures Texts(s, a + b) == Texts(s, a) + Texts(s, b)
  {
    if a == [] {
      EmptyLeft(b);
      EmptyLeft(Texts(s, b));
    } else {
      TextsConcat(s, a[1..], b);
      assert (a + b)[1..] == a[1..] + b;
    }
  }

  /** Keeping the trimmed lines is keeping the trimmed spans. */
  lemma {:induction false} KeptAreTrimmed(s: string, lines: seq<Span>)
    requires Within(s, lines)
    ensures Kept(Texts(s, lines)) == Texts(s, Trimmed(s, lines))
  {
    if lines != [] {
      KeptLineIsSpan(s, lines[0]);
      KeptAreTrimmed(s, lines[1..]);
      TextsConcat(s, TrimmedLine(s, lines[0]), Trimmed(s, lines[1..]));
      assert Texts(s, lines)[1..] == Texts(s, lines[1..]);
    }
  }

  /** The sentences of a text are stretches of it that cover it. */
  lemma SentencesCover(input: string) returns (spans: seq<Span>)
    requires TrimSpace(input) != ""
    ensures var r := BreakMarks(TrimSpace(input));
      Covers(r, 0, spans) && Sentences(input) == Texts(r, spans)
  {
    var r := BreakMarks(TrimSpace(input));
    var lines := LinesFrom(r, 0);
    LinesFromAreLines(r, 0);
    LinesAreWithin(r, 0, lines);
    TrimmedLinesCover(r, 0, lines);
    KeptAreTrimmed(r, lines);
    spans := Trimmed(r, lines);
  }

  lemma TrimmedEnds(s: string)
    requires TrimSpace(s) != ""
    ensures var t := TrimSpace(s); !IsSpace(t[0]) && !IsSpace(t[|t| - 1])
  {
  }

  /** A text that is not blank has a sentence, so the fallback of splitSentences is never taken. */
  lemma TrimmedIsKept(input: string)
    requires TrimSpace(input) != ""
    ensures Sentences(input) != []
  {
    var text := TrimSpace(input);
    var r := BreakMarks(text);
    TrimmedEnds(input);
    BreakMarksAt(text, 0);
    var spans := SentencesCover(input);
  }

  /** The 25 white-space characters. */
  const SPACES: set<int> :=
    {0x9, 0xA, 0xB, 0xC, 0xD, 0x20, 0x85, 0xA0, 0x1680, 0x2000, 0x2001, 0x2002, 0x2003, 0x2004, 0x2005, 0x2006, 0x2007,
     0x2008, 0x2009, 0x200A, 0x2028, 0x2029, 0x202F, 0x205F, 0x3000}

  /** A text has no sentence iff it is all white space. */
  lemma NoSentenceIffBlank(input: string)
    ensures Sentences(input) == [] <==> forall c | c in input :: c as int in SPACES
  {
    forall c: char ensures IsSpace(c) <==> c as int in SPACES {
    }
    var i := SkipSpace(input, 0, |input|);
    if TrimSpace(input) != "" {
      TrimmedIsKept(input);
      TrimmedEnds(input);
      assert i < |input| && input[i] in input;
    } else {
      assert DropSpace(input, i, |input|) == i;
      assert forall k | 0 <= k < |input| :: IsSpace(input[k]);
    }
  }

  // ---------------------------------------------------------------------------------------
  // Conservation
  // ---------------------------------------------------------------------------------------

  function NonSpaceChar(c: char): string { if IsSpace(c) then "" else [c] }

  /** The characters of `s` that are not space, in order. */
  function NonSpace(s: string): string {
    if s == "" then "" else NonSpace(s[..|s| - 1]) + NonSpaceChar(s[|s| - 1])
  }

  function AllNonSpace(ss: seq<string>): string {
    if ss == [] then "" else NonSpace(ss[0]) + AllNonSpace(ss[1..])
  }

  lemma {:induction false} NonSpaceConcat(a: string, b: string)
    ensures NonSpace(a + b) == NonSpace(a) + NonSpace(b)
    decreases |b|
  {
    if b == "" {
      EmptyRight(a);
      EmptyRight(NonSpace(a));
    } else {
      var init, last := b[..|b| - 1], b[|b| - 1];
      NonSpaceConcat(a, init);
      assert (a + b)[..|a + b| - 1] == a + init;
      Associate(NonSpace(a), NonSpace(init), NonSpaceChar(last));
    }
  }

  lemma NonSpaceSplit(s: string, i: nat, j: nat, k: nat)
    requires i <= j <= k <= |s|
    ensures NonSpace(s[i..k]) == NonSpace(s[i..j]) + NonSpace(s[j..k])
  {
    assert s[i..k] == s[i..j] + s[j..k];
    NonSpaceConcat(s[i..j], s[j..k]);
  }

  lemma {:induction false} AllSpace(s: string)
    requires forall k | 0 <= k < |s| :: IsSpace(s[k])
    ensures NonSpace(s) == ""
  {
    if s != "" { AllSpace(s[..|s| - 1]); }
  }

  lemma NoNonSpace(s: string, i: nat, j: nat)
    requires SpaceIn(s, i, j)
    ensures NonSpace(s[i..j]) == ""
  {
    AllSpace(s[i..j]);
  }

  /** Spans that cover a text carry all of its non-space characters. */
  lemma {:induction false} CoverConserves(s: string, i: nat, spans: seq<Span>)
    requires Covers(s, i, spans)
    ensures i <= |s| && AllNonSpace(Texts(s, spans)) == NonSpace(s[i..|s|])
    decreases |spans|
  {
    if spans == [] {
      NoNonSpace(s, i, |s|);
    } else {
      var a, b := spans[0].start, spans[0].end;
      CoverConserves(s, b, spans[1..]);
      NoNonSpace(s, i, a);
      NonSpaceSplit(s, i, a, |s|);
      NonSpaceSplit(s, a, b, |s|);
      TailOfCons(s[a..b], Texts(s, spans[1..]));
      EmptyLeft(NonSpace(s[a..|s|]));
    }
  }

  lemma CoverOfAllConserves(s: string, spans: seq<Span>)
    requires Covers(s, 0, spans)
    ensures AllNonSpace(Texts(s, spans)) == NonSpace(s)
  {
    CoverConserves(s, 0, spans);
    assert s[0..|s|] == s;
  }

  lemma TrimConserves(s: string)
    ensures NonSpace(TrimSpace(s)) == NonSpace(s)
  {
    var i := SkipSpace(s, 0, |s|);
    var j := DropSpace(s, i, |s|);
    assert s[0..|s|] == s;
    NoNonSpace(s, 0, i);
    NoNonSpace(s, j, |s|);
    NonSpaceSplit(s, 0, i, |s|);
    NonSpaceSplit(s, i, j, |s|);
    EmptyLeft(NonSpace(s[i..|s|]));
    EmptyRight(NonSpace(s[i..j]));
  }

  lemma {:induction false} SameNonSpace(s: string, r: string)
    requires |r| == |s| && forall k | 0 <= k < |s| :: NonSpaceChar(r[k]) == NonSpaceChar(s[k])
    ensures NonSpace(r) == NonSpace(s)
  {
    if s != "" { SameNonSpace(s[..|s| - 1], r[..|r| - 1]); }
  }

  lemma BreakMarksConserve(text: string)
    ensures NonSpace(BreakMarks(text)) == NonSpace(text)
  {
    var r := BreakMarks(text);
    forall k | 0 <= k < |text| ensures NonSpaceChar(r[k]) == NonSpaceChar(text[k]) {
      BreakMarksAt(text, k);
    }
    SameNonSpace(text, r);
  }

  /** Splitting loses, adds and reorders no character that is not space. */
  lemma SplittingConserves(input: string)
    ensures AllNonSpace(Sentences(input)) == NonSpace(input)
  {
    TrimConserves(input);
    var text := TrimSpace(input);
    if text != "" {
      var r := BreakMarks(text);
      BreakMarksConserve(text);
      var spans := SentencesCover(input);
      CoverOfAllConserves(r, spans);
    }
  }

  // ---------------------------------------------------------------------------------------
  // Sentences end exactly at breaks
  // ---------------------------------------------------------------------------------------

  /** At position `k` the text breaks: a newline, or the space that follows a sentence mark. */
  predicate BreaksAt(text: string, k: nat)
    requires k < |text|
  {
    text[k] == '\n' || (text[k] == ' ' && k > 0 && IsMark(text[k - 1]))
  }

  /** A stretch without space at its ends and with no break inside. */
  ghost predicate IsSentence(text: string, sp: Span) {
    && sp.start < sp.end <= |text| && !IsSpace(text[sp.start]) && !IsSpace(text[sp.end - 1])
    && forall k | sp.start <= k < sp.end :: !BreaksAt(text, k)
  }

  /** All space, and a break among it. */
  ghost predicate IsGap(text: string, i: nat, j: nat) {
    SpaceIn(text, i, j) && exists k: nat | i <= k < j :: BreaksAt(text, k)
  }

  /** From position `i` on, `spans` are sentences; gaps and nothing else separate them, and only space
      surrounds them. */
  ghost predicate Partitions(text: string, i: nat, spans: seq<Span>)
    decreases spans
  {
    if spans == [] then SpaceIn(text, i, |text|)
    else
      && SpaceIn(text, i, spans[0].start) && IsSentence(text, spans[0])
      && (|spans| > 1 ==> IsGap(text, spans[0].end, spans[1].start))
      && Partitions(text, spans[0].end, spans[1..])
  }

  /** `r` differs from `text` in that its breaks, and they alone, are newlines. */
  ghost predicate Breaks(text: string, r: string) {
    && |r| == |text|
    && (forall k | 0 <= k < |text| :: r[k] == '\n' <==> BreaksAt(text, k))
    && (forall k | 0 <= k < |text| :: r[k] != '\n' ==> r[k] == text[k])
    && (forall k | 0 <= k < |text| :: IsSpace(r[k]) <==> IsSpace(text[k]))
  }

  lemma BreakMarksBreaks(text: string)
    ensures Breaks(text, BreakMarks(text))
  {
    var r := BreakMarks(text);
    forall k | 0 <= k < |text|
      ensures (r[k] == '\n' <==> BreaksAt(text, k)) && (r[k] != '\n' ==> r[k] == text[k]) && (IsSpace(r[k]) <==> IsSpace(text[k]))
    {
      BreakMarksAt(text, k);
    }
  }

  lemma {:induction false} CoverPartitions(text: string, r: string, i: nat, spans: seq<Span>)
    requires Breaks(text, r) && Covers(r, i, spans)
    ensures Within(text, spans) && Partitions(text, i, spans) && Texts(text, spans) == Texts(r, spans)
    decreases |spans|
  {
    CoveringIsWithin(r, i, spans);
    if spans != [] {
      CoverPartitions(text, r, spans[0].end, spans[1..]);
      SameText(text, r, spans[0]);
      if |spans| > 1 {
        GapAfter(text, r, spans[0].end, spans[1].start, spans[1..]);
      }
    }
  }

  lemma SameText(text: string, r: string, sp: Span)
    requires Breaks(text, r) && sp.start <= sp.end <= |r| && forall k | sp.start <= k < sp.end :: r[k] != '\n'
    ensures Text(r, sp) == Text(text, sp)
  {
  }

  lemma GapAfter(text: string, r: string, i: nat, j: nat, rest: seq<Span>)
    requires Breaks(text, r) && rest != [] && rest[0].start == j
    requires Covers(r, i, rest) && NewlineIn(r, i, j)
    ensures IsGap(text, i, j)
  {
    var k :| i <= k < j <= |r| && r[k] == '\n';
    assert BreaksAt(text, k);
  }

  /** The sentences are the stretches of the trimmed text between its breaks. */
  lemma SentencesPartitionText(input: string) returns (spans: seq<Span>)
    requires TrimSpace(input) != ""
    ensures var text := TrimSpace(input);
      && spans != [] && Partitions(text, 0, spans)
      && Within(text, spans) && Sentences(input) == Texts(text, spans)
  {
    var text := TrimSpace(input);
    var r := BreakMarks(text);
    TrimmedIsKept(input);
    spans := SentencesCover(input);
    BreakMarksBreaks(text);
    CoverPartitions(text, r, 0, spans);
  }

  /** Only one list of spans partitions a text. */
  lemma {:induction false} PartitionIsUnique(text: string, i: nat, a: seq<Span>, b: seq<Span>)
    requires Partitions(text, i, a) && Partitions(text, i, b)
    ensures a == b
    decreases |a|
  {
    if a != [] && b != [] {
      FirstSpanEnds(text, i, a, b);
      FirstSpanEnds(text, i, b, a);
      PartitionIsUnique(text, a[0].end, a[1..], b[1..]);
      SameHeadAndTail(a, b);
    }
  }

  /** A span of a partition ends no later than that of another. */
  lemma FirstSpanEnds(text: string, i: nat, a: seq<Span>, b: seq<Span>)
    requires Partitions(text, i, a) && Partitions(text, i, b) && a != [] && b != []
    ensures a[0].start == b[0].start && a[0].end >= b[0].end
  {
    if |a| == 1 {
      assert SpaceIn(text, a[0].end, |text|) by { assert Partitions(text, a[0].end, a[1..]); }
    } else {
      var k: nat :| a[0].end <= k < a[1].start && BreaksAt(text, k);
      assert Partitions(text, a[0].end, a[1..]);
    }
  }
}
