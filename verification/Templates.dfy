/** Template resolution: execution/template/engine.go. */
module Templates {
  import opened Values

  // ---------------------------------------------------------------------------------------
  // Finding {{...}}
  // ---------------------------------------------------------------------------------------

  predicate IsWordChar(c: char) {
    'a' <= c <= 'z' || 'A' <= c <= 'Z' || '0' <= c <= '9' || c == '_'
  }

  predicate IsNameChar(c: char) { IsWordChar(c) || c == '.' || c == '-' }

  /** What the pattern accepts between the braces. */
  predicate IsName(name: string) {
    name != "" && IsWordChar(name[0]) && forall i | 0 <= i < |name| :: IsNameChar(name[i])
  }

  datatype Match = Match(start: nat, end: nat)

  /** The pattern matches `s` exactly on `[m.start, m.end)`. */
  predicate Occurs(s: string, m: Match) {
    && m.start + 5 <= m.end <= |s|
    && s[m.start] == s[m.start + 1] == '{'
    && s[m.end - 2] == s[m.end - 1] == '}'
    && IsName(s[m.start + 2..m.end - 2])
  }

  function Content(s: string, m: Match): string requires Occurs(s, m) { s[m.start + 2..m.end - 2] }

  /** Distinct occurrences never overlap. */
  lemma OccurrencesAreDisjoint(s: string, m: Match, n: Match)
    requires Occurs(s, m) && Occurs(s, n) && m != n
    ensures m.end <= n.start || n.end <= m.start
  {
    if m.start <= n.start < m.end {
      OccurrenceBlocks(s, m, n);
    } else if n.start < m.start < n.end {
      OccurrenceBlocks(s, n, m);
    }
  }

  lemma OccurrenceBlocks(s: string, m: Match, n: Match)
    requires Occurs(s, m) && Occurs(s, n)
    ensures n.start == m.start ==> n.end == m.end
    ensures !(m.start < n.start < m.end)
  {
    ContentChars(s, m);
    ContentChars(s, n);
  }

  lemma ContentChars(s: string, m: Match)
    requires Occurs(s, m)
    ensures IsWordChar(s[m.start + 2])
    ensures forall k | m.start + 2 <= k < m.end - 2 :: IsNameChar(s[k])
  {
    var c := Content(s, m);
    assert c[0] == s[m.start + 2];
    forall k | m.start + 2 <= k < m.end - 2 ensures IsNameChar(s[k]) {
      assert c[k - m.start - 2] == s[k];
    }
  }

  /** The end of the run of name characters that starts at `i`. */
  function RunEnd(s: string, i: nat): (e: nat)
    requires i <= |s|
    ensures i <= e <= |s|
    ensures forall k | i <= k < e :: IsNameChar(s[k])
    ensures e < |s| ==> !IsNameChar(s[e])
    decreases |s| - i
  {
    if i < |s| && IsNameChar(s[i]) then RunEnd(s, i + 1) else i
  }

  /** The match of the pattern at position `i`, if any. */
  function MatchAt(s: string, i: nat): Option<Match>
    requires i <= |s|
  {
    if i + 2 < |s| && s[i] == s[i + 1] == '{' && IsWordChar(s[i + 2]) then
      var e := RunEnd(s, i + 2);
      if e + 2 <= |s| && s[e] == s[e + 1] == '}' then Some(Match(i, e + 2)) else None
    else None
  }

  lemma MatchAtIsOccurrence(s: string, i: nat, m: Match)
    requires i <= |s|
    ensures MatchAt(s, i) == Some(m) <==> Occurs(s, m) && m.start == i
  {
    if Occurs(s, m) && m.start == i {
      ContentChars(s, m);
    }
    if MatchAt(s, i) == Some(m) {
      var c := s[m.start + 2..m.end - 2];
      assert c[0] == s[i + 2];
    }
  }

  /** `ms` are occurrences in `s`, in order, from position `from` on. */
  ghost predicate InOrder(s: string, from: nat, ms: seq<Match>) {
    && (forall i | 0 <= i < |ms| :: Occurs(s, ms[i]) && from <= ms[i].start)
    && (forall i, j | 0 <= i < j < |ms| :: ms[i].end <= ms[j].start)
  }

  /** `templateRe.FindAll`: the leftmost match, then on from its end. */
  function Scan(s: string, i: nat): (ms: seq<Match>)
    requires i <= |s|
    ensures InOrder(s, i, ms)
    decreases |s| - i
  {
    match MatchAt(s, i)
    case Some(m) => MatchAtIsOccurrence(s, i, m); [m] + Scan(s, m.end)
    case None => if i < |s| then Scan(s, i + 1) else []
  }

  /** The leftmost scan misses no occurrence. */
  lemma {:induction false} ScanFindsAll(s: string, i: nat, m: Match)
    requires i <= |s| && i <= m.start
    ensures m in Scan(s, i) <==> Occurs(s, m)
    decreases |s| - i
  {
    match MatchAt(s, i)
    case Some(first) =>
      MatchAtIsOccurrence(s, i, first);
      if Occurs(s, m) && m != first {
        OccurrencesAreDisjoint(s, m, first);
      }
      if first.end <= m.start {
        ScanFindsAll(s, first.end, m);
      }
    case None =>
      MatchAtIsOccurrence(s, i, m);
      if i < m.start && i < |s| {
        ScanFindsAll(s, i + 1, m);
      }
  }

  // ---------------------------------------------------------------------------------------
  // Which step a name refers to
  // ---------------------------------------------------------------------------------------

  datatype Reference = Reference(step: string, field: string)

  /** The longest key that ends before a dot at a position below `n`. */
  function SplitBelow(content: string, keys: set<string>, n: nat): Reference
    requires n <= |content|
  {
    if n == 0 then Reference(content, "")
    else if content[n - 1] == '.' && content[..n - 1] in keys then Reference(content[..n - 1], content[n..])
    else SplitBelow(content, keys, n - 1)
  }

  function Split(content: string, keys: set<string>): Reference {
    if content in keys then Reference(content, "") else SplitBelow(content, keys, |content|)
  }

  /** `content[..n]` is the whole content or ends before a dot. */
  predicate Boundary(content: string, n: nat) {
    n == |content| || (n < |content| && content[n] == '.')
  }

  /** `Split` takes the longest prefix, cut at a dot, that is a key, and the whole content when
      there is none; step and field make up the content; a well-formed name yields a step. */
  lemma SplitIsLongestKey(content: string, keys: set<string>)
    ensures var Reference(step, field) := Split(content, keys);
      && (content == step + "." + field || (content == step && field == ""))
      && Boundary(content, |step|)
      && (step in keys <==> exists n: nat | n <= |content| :: Boundary(content, n) && content[..n] in keys)
      && (forall n: nat | n <= |content| && Boundary(content, n) && content[..n] in keys :: n <= |step|)
      && (step !in keys ==> step == content)
      && (IsName(content) ==> step != "")
  {
    if content in keys {
      assert content[..|content|] == content;
    } else {
      SplitBelowIsLongest(content, keys, |content|);
      assert content[..|content|] == content;
    }
  }

  lemma {:induction false} SplitBelowIsLongest(content: string, keys: set<string>, n: nat)
    requires n <= |content| && content !in keys
    ensures var Reference(step, field) := SplitBelow(content, keys, n);
      || (&& step in keys && |step| < n && content[|step|] == '.' && step == content[..|step|]
          && content == step + "." + field
          && forall k | |step| < k < n && content[k] == '.' :: content[..k] !in keys)
      || (&& step == content && field == ""
          && forall k | 0 <= k < n && content[k] == '.' :: content[..k] !in keys)
  {
    if n != 0 && !(content[n - 1] == '.' && content[..n - 1] in keys) {
      SplitBelowIsLongest(content, keys, n - 1);
    }
  }

  /** The index of the last dot of `s`, or -1. */
  function LastDot(s: string): (d: int)
    ensures -1 <= d < |s|
    ensures d >= 0 ==> s[d] == '.'
    ensures forall k | d < k < |s| :: s[k] != '.'
  {
    if s == "" then -1 else if s[|s| - 1] == '.' then |s| - 1 else LastDot(s[..|s| - 1])
  }

  lemma {:induction false} SplitSkips(content: string, keys: set<string>, low: nat, high: nat)
    requires low <= high <= |content|
    requires forall k | low <= k < high :: content[k] != '.'
    ensures SplitBelow(content, keys, high) == SplitBelow(content, keys, low)
  {
    if low < high {
      SplitSkips(content, keys, low, high - 1);
    }
  }

  method ResolveTemplateContent(content: string, results: map<string, Value>) returns (stepName: string, field: string)
    ensures Reference(stepName, field) == Split(content, results.Keys)
  {
    if content in results {
      return content, "";
    }
    var lastDot := LastDot(content);
    SplitSkips(content, results.Keys, lastDot + 1, |content|);
    if lastDot < 0 {
      return content, "";
    }
    var candidate := content[..lastDot];
    var candidateField := content[lastDot + 1..];
    if candidate in results {
      return candidate, candidateField;
    }
    while true
      invariant |candidate| < |content| && candidate == content[..|candidate|] && content[|candidate|] == '.'
      invariant candidateField == content[|candidate| + 1..]
      invariant Split(content, results.Keys) == SplitBelow(content, results.Keys, |candidate|)
      decreases |candidate|
    {
      var dot := LastDot(candidate);
      SplitSkips(content, results.Keys, dot + 1, |candidate|);
      if dot < 0 {
        break;
      }
      JoinAtDot(content, dot, |candidate|);
      candidateField := candidate[dot + 1..] + "." + candidateField;
      candidate := candidate[..dot];
      if candidate in results {
        return candidate, candidateField;
      }
    }
    return content, "";
  }

  lemma JoinAtDot(content: string, dot: nat, n: nat)
    requires dot < n < |content| && content[n] == '.'
    ensures content[..n][dot + 1..] + "." + content[n + 1..] == content[dot + 1..]
    ensures content[..n][..dot] == content[..dot]
  {
  }
}
