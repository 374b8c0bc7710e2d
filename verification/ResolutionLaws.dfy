/** Template resolution, characterised by its own inputs and outputs: execution/template/engine.go. */
module ResolutionLaws {
  import opened Sequences
  import opened Values
  import opened Templates
  import opened Resolution
  import opened ResolutionTheorems

  // ---------------------------------------------------------------------------------------
  // What a template is
  // ---------------------------------------------------------------------------------------

  lemma BracedOccurs(name: string)
    ensures var s := Braced(name);
      |s| == |name| + 4 && s[2..|s| - 2] == name && (Occurs(s, Match(0, |s|)) <==> IsName(name))
  {
  }

  /** Double braces around a text are a template iff the text is letters, digits, underscores, dots and
      hyphens, the first of them neither dot nor hyphen. */
  lemma TemplateIff(name: string)
    ensures var s := "{{" + name + "}}";
      Occurs(s, Match(0, |s|)) <==>
        && name != "" && name[0] != '.' && name[0] != '-'
        && forall c | c in name ::
             'a' <= c <= 'z' || 'A' <= c <= 'Z' || '0' <= c <= '9' || c == '_' || c == '.' || c == '-'
  {
    BracedOccurs(name);
    assert forall i | 0 <= i < |name| :: name[i] in name;
  }

  // ---------------------------------------------------------------------------------------
  // What stands for a reference
  // ---------------------------------------------------------------------------------------

  /** A string stands for itself, any other value for what formats it; an error is that of the reference. */
  lemma ReplacementIsText(content: string, results: map<string, Value>, format: Format)
    ensures match Denoted(content, results)
            case Ok(v) => Resolved(content, results, format) == Ok(if v.Str? then v.s else format(v))
            case Err(e) => Resolved(content, results, format) == Err(e)
  {
  }

  /** The whole string is one template: its outcome is the text, an unknown step, or a field that is not there. */
  lemma WholeTemplateOutcome(name: string, results: map<string, Value>, format: Format)
    requires IsName(name) && results != map[]
    ensures Resolve("{{" + name + "}}", results, format) ==
      match Denoted(name, results)
      case Ok(v) => Success(if v.Str? then v else Str(format(v)))
      case Err(StepNotFound(step)) => UnknownStep(step, results.Keys)
      case Err(e) => BadField(e)
  {
    BracedOccurs(name);
    WholeTemplateIsScanned(Braced(name));
    ReplacementIsText(name, results, format);
  }

  lemma NoResultsNoChange(s: string, format: Format)
    ensures Resolve(s, map[], format) == Success(Str(s))
  {
  }

  lemma NoTemplateNoChange(s: string, results: map<string, Value>, format: Format)
    requires HoldsNoTemplate(s)
    ensures Resolve(s, results, format) == Success(Str(s))
  {
    MatchOccurs(s);
  }

  lemma MatchOccurs(s: string)
    ensures Scan(s, 0) != [] ==> Occurs(s, Scan(s, 0)[0])
  {
  }

  // ---------------------------------------------------------------------------------------
  // The field a reference names
  // ---------------------------------------------------------------------------------------

  /** The walk stops at `i`, at a value that is no map, or a map without the next segment. */
  ghost predicate StopsAt(v: Value, field: string, path: seq<string>, i: nat, e: RefError)
    requires i < |path|
  {
    var reached := Walk(v, path[..i]);
    reached.Some? &&
    if reached.value.Dict? then
      path[i] !in reached.value.fields && e == FieldNotFound(path[i], reached.value.fields.Keys)
    else e == NotIndexable(field, path[..i], reached.value)
  }

  /** An error tells how far the path can be walked, and what it meets there. */
  lemma FieldErrorIsWhereWalkStops(v: Value, field: string) returns (i: nat)
    ensures Field(v, field).Err? ==> i < |Segments(field)| && StopsAt(v, field, Segments(field), i, Field(v, field).error)
  {
    i := StopOfWalk(v, v, field, Segments(field), 0);
  }

  lemma {:induction false} StopOfWalk(root: Value, v: Value, field: string, path: seq<string>, n: nat) returns (i: nat)
    requires n <= |path| && Walk(root, path[..n]) == Some(v)
    ensures FieldFrom(v, field, path, n).Err? ==>
      i < |path| && StopsAt(root, field, path, i, FieldFrom(v, field, path, n).error)
    decreases |path| - n
  {
    i := n;
    if n < |path| && v.Dict? && path[n] in v.fields {
      assert path[..n + 1] == path[..n] + [path[n]];
      WalkConcat(root, path[..n], [path[n]]);
      assert [path[n]][1..] == [];
      i := StopOfWalk(root, v.fields[path[n]], field, path, n + 1);
    }
  }

  /** A text without dots is one segment, and a dot separates segments. */
  lemma SegmentsAreBetweenDots(a: string, b: string)
    ensures '.' !in a ==> Segments(a) == [a]
    ensures Segments(a + "." + b) == Segments(a) + Segments(b)
  {
    SegmentsConcat(a, b);
    if LastDot(a) >= 0 {
      assert a[LastDot(a)] in a;
    }
  }

  // ---------------------------------------------------------------------------------------
  // A template in its surroundings
  // ---------------------------------------------------------------------------------------

  function Shifted(ms: seq<Match>, offset: nat): (r: seq<Match>)
    ensures |r| == |ms|
  {
    seq(|ms|, i requires 0 <= i < |ms| => Match(offset + ms[i].start, offset + ms[i].end))
  }

  /** What occurs within a stretch of `s` occurs in `s` there. */
  lemma OccursWithin(s: string, from: nat, to: nat, m: Match)
    requires from <= m.start && m.end <= to <= |s| && m.start <= m.end
    ensures Occurs(s, m) <==> Occurs(s[from..to], Match(m.start - from, m.end - from))
  {
    var t := s[from..to];
    if m.start + 5 <= m.end {
      SliceOfSlice(s, from, to, m.start - from + 2, m.end - from - 2);
      assert forall k | 0 <= k < to - from :: t[k] == s[from + k];
    }
  }

  /** The matches of a scan are told by the occurrences. */
  lemma {:induction false} ScanIsUnique(xs: seq<Match>, ys: seq<Match>, s: string)
    requires InOrder(s, 0, xs) && InOrder(s, 0, ys) && forall m :: m in xs <==> m in ys
    ensures xs == ys
    decreases |xs|
  {
    SameMembersEmpty(xs, ys);
    if xs != [] {
      FirstStartsFirst(xs, ys[0], s);
      FirstStartsFirst(ys, xs[0], s);
      RestHasOthers(xs, s);
      RestHasOthers(ys, s);
      ScanIsUnique(xs[1..], ys[1..], s);
      SameHeadAndTail(xs, ys);
    }
  }

  lemma FirstStartsFirst(xs: seq<Match>, m: Match, s: string)
    requires InOrder(s, 0, xs) && m in xs
    ensures m == xs[0] || xs[0].end <= m.start
    ensures Occurs(s, m) && m.start < m.end && Occurs(s, xs[0])
  {
    var i :| 0 <= i < |xs| && xs[i] == m;
  }

  lemma RestHasOthers(xs: seq<Match>, s: string)
    requires InOrder(s, 0, xs) && xs != []
    ensures InOrder(s, 0, xs[1..]) && forall m :: m in xs[1..] <==> m in xs && m != xs[0]
  {
    forall m | m in xs[1..] ensures m != xs[0] {
      var i :| 0 <= i < |xs[1..]| && xs[1..][i] == m;
      assert xs[0].end <= xs[i + 1].start && Occurs(s, xs[i + 1]);
    }
    assert xs == [xs[0]] + xs[1..];
  }

  /** `s` is `a`, a template and `b`. */
  ghost predicate Around(s: string, a: string, name: string, b: string) {
    IsName(name) && s == a + Braced(name) + b
  }

  /** The parts of `s`. */
  lemma AroundParts(s: string, a: string, name: string, b: string)
    requires Around(s, a, name, b)
    ensures var k, e := |a|, |a| + |name| + 4;
      && |s| == e + |b| && s[0..k] == a && s[k..e] == Braced(name) && s[e..|s|] == b
      && Occurs(s, Match(k, e)) && s[k + 2..e - 2] == name
  {
    var k, e := |a|, |a| + |name| + 4;
    var c := Braced(name);
    assert s[k..e] == c;
    BracedOccurs(name);
    OccursWithin(s, k, e, Match(k, e));
    SliceOfSlice(s, k, e, 2, |c| - 2);
  }

  /** Matches before, one on `[k, e)`, and matches after. */
  function MatchesAround(before: seq<Match>, k: nat, e: nat, after: seq<Match>): seq<Match> {
    before + [Match(k, e)] + Shifted(after, e)
  }

  lemma MatchesAroundAre(before: seq<Match>, k: nat, e: nat, after: seq<Match>, m: Match)
    ensures m in MatchesAround(before, k, e, after) <==>
      m in before || m == Match(k, e) || (e <= m.start && e <= m.end && Match(m.start - e, m.end - e) in after)
  {
    ShiftedHas(after, e, m);
  }

  lemma ShiftedHas(ms: seq<Match>, offset: nat, m: Match)
    ensures m in Shifted(ms, offset) <==>
      offset <= m.start && offset <= m.end && Match(m.start - offset, m.end - offset) in ms
  {
    if m in Shifted(ms, offset) {
      var i :| 0 <= i < |ms| && Shifted(ms, offset)[i] == m;
      assert ms[i] == Match(m.start - offset, m.end - offset);
    }
    if offset <= m.start && offset <= m.end && Match(m.start - offset, m.end - offset) in ms {
      var i :| 0 <= i < |ms| && ms[i] == Match(m.start - offset, m.end - offset);
      assert Shifted(ms, offset)[i] == m;
    }
  }

  /** What occurs in `s` is the template, or occurs before it or after it. */
  lemma OccursAround(s: string, a: string, name: string, b: string, before: seq<Match>, after: seq<Match>, m: Match)
    requires Around(s, a, name, b)
    requires forall n :: n in before <==> Occurs(a, n)
    requires forall n :: n in after <==> Occurs(b, n)
    ensures m in MatchesAround(before, |a|, |a| + |name| + 4, after) <==> Occurs(s, m)
  {
    var k, e := |a|, |a| + |name| + 4;
    AroundParts(s, a, name, b);
    MatchesAroundAre(before, k, e, after, m);
    OccursOnOneSide(s, k, e, m);
  }

  lemma OccursOnOneSide(s: string, k: nat, e: nat, m: Match)
    requires k <= e <= |s| && Occurs(s, Match(k, e))
    ensures Occurs(s, m) <==>
      || m == Match(k, e)
      || Occurs(s[0..k], m)
      || (e <= m.start <= m.end && Occurs(s[e..|s|], Match(m.start - e, m.end - e)))
    ensures !Occurs(s[0..k], Match(k, e))
  {
    if m.start <= m.end <= k {
      OccursWithin(s, 0, k, m);
    } else if e <= m.start <= m.end <= |s| {
      OccursWithin(s, e, |s|, m);
    } else if Occurs(s, m) && m != Match(k, e) {
      OccurrencesAreDisjoint(s, m, Match(k, e));
    }
  }

  lemma MatchesAroundInOrder(s: string, a: string, name: string, b: string, before: seq<Match>, after: seq<Match>)
    requires Around(s, a, name, b)
    requires InOrder(a, 0, before) && forall n :: n in before <==> Occurs(a, n)
    requires InOrder(b, 0, after) && forall n :: n in after <==> Occurs(b, n)
    ensures InOrder(s, 0, MatchesAround(before, |a|, |a| + |name| + 4, after))
  {
    var k, e := |a|, |a| + |name| + 4;
    var all := MatchesAround(before, k, e, after);
    forall i | 0 <= i < |all| ensures Occurs(s, all[i]) {
      OccursAround(s, a, name, b, before, after, all[i]);
    }
    OrderOfParts(before, Match(k, e), Shifted(after, e));
  }

  lemma OrderOfParts(before: seq<Match>, m: Match, after: seq<Match>)
    requires forall i, j | 0 <= i < j < |before| :: before[i].end <= before[j].start
    requires forall i, j | 0 <= i < j < |after| :: after[i].end <= after[j].start
    requires m.start <= m.end
    requires forall i | 0 <= i < |before| :: before[i].end <= m.start
    requires forall i | 0 <= i < |after| :: m.end <= after[i].start
    ensures var all := before + [m] + after; forall i, j | 0 <= i < j < |all| :: all[i].end <= all[j].start
  {
  }

  lemma ScanAround(s: string, a: string, name: string, b: string)
    requires Around(s, a, name, b)
    ensures Scan(s, 0) == MatchesAround(Scan(a, 0), |a|, |a| + |name| + 4, Scan(b, 0))
  {
    var all := MatchesAround(Scan(a, 0), |a|, |a| + |name| + 4, Scan(b, 0));
    ScanHasAll(s);
    ScanHasAll(a);
    ScanHasAll(b);
    MatchesAroundInOrder(s, a, name, b, Scan(a, 0), Scan(b, 0));
    forall m ensures m in Scan(s, 0) <==> m in all {
      OccursAround(s, a, name, b, Scan(a, 0), Scan(b, 0), m);
    }
    ScanIsUnique(Scan(s, 0), all, s);
  }

  lemma ScanHasAll(s: string)
    ensures forall m :: m in Scan(s, 0) <==> Occurs(s, m)
  {
    forall m ensures m in Scan(s, 0) <==> Occurs(s, m) {
      ScanFindsAll(s, 0, m);
    }
  }

  /** `p` is what the `j`-th match cuts from `s`: the text since the match before, and the content. */
  ghost predicate IsPiece(s: string, ms: seq<Match>, j: nat, p: Piece)
    requires j < |ms|
  {
    && Resume(ms, j) <= ms[j].start && ms[j].start + 4 <= ms[j].end <= |s|
    && p.before == s[Resume(ms, j)..ms[j].start] && p.content == s[ms[j].start + 2..ms[j].end - 2]
  }

  /** `ps` are the pieces that the matches cut from `s`. */
  ghost predicate ArePieces(s: string, ms: seq<Match>, ps: seq<Piece>) {
    |ps| == |ms| && forall j | 0 <= j < |ms| :: IsPiece(s, ms, j, ps[j])
  }

  lemma PiecesAre(s: string, ms: seq<Match>, ps: seq<Piece>)
    requires InOrder(s, 0, ms)
    ensures ArePieces(s, ms, ps) <==> ps == Pieces(s, ms)
  {
    forall j: nat | j < |ms| ensures IsPiece(s, ms, j, Pieces(s, ms)[j]) {
      PieceIs(s, ms, j);
    }
    if ArePieces(s, ms, ps) {
      assert forall j: nat | j < |ms| :: IsPiece(s, ms, j, ps[j]);
    }
  }

  lemma PieceIs(s: string, ms: seq<Match>, j: nat)
    requires InOrder(s, 0, ms) && j < |ms|
    ensures IsPiece(s, ms, j, Pieces(s, ms)[j])
  {
  }

  /** A string parses into the pieces before a template, the template, and the pieces after it. */
  lemma ParseAround(s: string, a: string, name: string, b: string)
    requires Around(s, a, name, b)
    ensures Parse(s) == Parse(a) + [Piece(Rest(a), name)] + Parse(b) && Rest(s) == Rest(b)
  {
    AroundParts(s, a, name, b);
    ScanAround(s, a, name, b);
    PartsAround(s, Scan(s, 0), a, Scan(a, 0), name, b, Scan(b, 0));
  }

  lemma PartsAround(s: string, ms: seq<Match>, a: string, before: seq<Match>, name: string, b: string, after: seq<Match>)
    requires InOrder(s, 0, ms) && InOrder(a, 0, before) && InOrder(b, 0, after)
    requires var e := |a| + |name| + 4;
      && e <= |s| && s[0..|a|] == a && s[e..|s|] == b && s[|a| + 2..e - 2] == name
      && ms == MatchesAround(before, |a|, e, after)
    ensures Pieces(s, ms) == Pieces(a, before) + [Piece(Tail(a, before), name)] + Pieces(b, after)
    ensures Tail(s, ms) == Tail(b, after)
  {
    var e, ps, p, qs := |a| + |name| + 4, Pieces(a, before), Piece(Tail(a, before), name), Pieces(b, after);
    PiecesAre(a, before, ps);
    PiecesAre(b, after, qs);
    PiecesAround(s, ms, a, before, b, after, e, ps, p, qs);
    PiecesAre(s, ms, ps + [p] + qs);
    MatchesOfParts(before, |a|, e, after);
    TailAfter(s, ms, b, after, e, |before| + 1);
  }

  lemma MatchesOfParts(before: seq<Match>, k: nat, e: nat, after: seq<Match>)
    ensures var ms := MatchesAround(before, k, e, after);
      && before <= ms && |ms| == |before| + 1 + |after| && ms[|before|] == Match(k, e)
      && ms[|before| + 1..] == Shifted(after, e)
  {
  }

  lemma PiecesAround(s: string, ms: seq<Match>, a: string, before: seq<Match>, b: string, after: seq<Match>, e: nat,
                     ps: seq<Piece>, p: Piece, qs: seq<Piece>)
    requires Resume(before, |before|) <= |a| && |a| + 4 <= e <= |s| && s[0..|a|] == a && s[e..|s|] == b && ms == MatchesAround(before, |a|, e, after)
    requires ArePieces(a, before, ps) && ArePieces(b, after, qs)
    requires p == Piece(a[Resume(before, |before|)..], s[|a| + 2..e - 2])
    ensures ArePieces(s, ms, ps + [p] + qs)
  {
    MatchesOfParts(before, |a|, e, after);
    forall j: nat | j < |ms| ensures IsPiece(s, ms, j, (ps + [p] + qs)[j]) {
      if j < |before| {
        PieceBefore(s, a, ms, before, j, ps[j]);
      } else if j == |before| {
        PieceAt(s, a, ms, before, p);
      } else {
        PieceAfter(s, b, e, ms, after, |before| + 1, j - |before| - 1, qs[j - |before| - 1]);
      }
    }
  }

  lemma PieceBefore(s: string, a: string, ms: seq<Match>, before: seq<Match>, j: nat, p: Piece)
    requires before <= ms && j < |before|
    requires |a| <= |s| && s[0..|a|] == a && IsPiece(a, before, j, p)
    ensures IsPiece(s, ms, j, p)
  {
    var m := before[j];
    assert Resume(ms, j) == Resume(before, j);
    SliceOfSlice(s, 0, |a|, Resume(ms, j), m.start);
    SliceOfSlice(s, 0, |a|, m.start + 2, m.end - 2);
  }

  lemma PieceAt(s: string, a: string, ms: seq<Match>, before: seq<Match>, p: Piece)
    requires before <= ms && |before| < |ms| && Resume(before, |before|) <= |a|
    requires |a| <= |s| && s[0..|a|] == a && ms[|before|].start == |a| && |a| + 4 <= ms[|before|].end <= |s|
    requires p == Piece(a[Resume(before, |before|)..], s[ms[|before|].start + 2..ms[|before|].end - 2])
    ensures IsPiece(s, ms, |before|, p)
  {
    var n := |before|;
    assert Resume(ms, n) == Resume(before, n);
    SliceOfSlice(s, 0, |a|, Resume(ms, n), |a|);
  }

  lemma PieceAfter(s: string, b: string, e: nat, ms: seq<Match>, after: seq<Match>, n: nat, j: nat, p: Piece)
    requires 0 < n && n + |after| == |ms| && j < |after|
    requires e <= |s| && ms[n - 1].end == e && ms[n..] == Shifted(after, e) && s[e..|s|] == b
    requires IsPiece(b, after, j, p)
    ensures IsPiece(s, ms, n + j, p)
  {
    ShiftedAt(ms, after, e, n, j);
    ResumeAfter(ms, after, e, n, j);
    SamePiece(s, b, e, Resume(after, j), after[j], ms[n + j]);
  }

  lemma TailAfter(s: string, ms: seq<Match>, b: string, after: seq<Match>, e: nat, n: nat)
    requires InOrder(s, 0, ms) && InOrder(b, 0, after) && 0 < n && n + |after| == |ms|
    requires e <= |s| && ms[n - 1].end == e && ms[n..] == Shifted(after, e) && s[e..|s|] == b
    ensures Tail(s, ms) == Tail(b, after)
  {
    ResumeAfter(ms, after, e, n, |after|);
    TailOfSlice(s, b, e, Resume(after, |after|));
  }

  lemma TailOfSlice(s: string, b: string, e: nat, from: nat)
    requires e <= |s| && s[e..|s|] == b && from <= |b|
    ensures s[e + from..] == b[from..]
  {
    SliceOfSlice(s, e, |s|, from, |b|);
  }

  lemma ResumeAfter(ms: seq<Match>, after: seq<Match>, e: nat, n: nat, j: nat)
    requires 0 < n && n + |after| == |ms| && j <= |after| && ms[n - 1].end == e && ms[n..] == Shifted(after, e)
    ensures Resume(ms, n + j) == e + Resume(after, j)
  {
    if j > 0 {
      assert ms[n + j - 1] == ms[n..][j - 1];
    }
  }

  lemma ShiftedAt(ms: seq<Match>, after: seq<Match>, e: nat, n: nat, j: nat)
    requires n + |after| == |ms| && j < |after| && ms[n..] == Shifted(after, e)
    ensures ms[n + j] == Match(e + after[j].start, e + after[j].end)
  {
    assert ms[n + j] == ms[n..][j];
  }

  lemma SamePiece(s: string, b: string, e: nat, from: nat, m: Match, m': Match)
    requires e <= |s| && s[e..|s|] == b && from <= m.start && m.start + 4 <= m.end <= |b|
    requires m' == Match(e + m.start, e + m.end)
    ensures s[e + from..m'.start] == b[from..m.start] && s[m'.start + 2..m'.end - 2] == b[m.start + 2..m.end - 2]
  {
    SliceOfSlice(s, e, |s|, from, m.start);
    SliceOfSlice(s, e, |s|, m.start + 2, m.end - 2);
  }

  lemma FillLast(qs: seq<Piece>, init: seq<Piece>, last: Piece, results: map<string, Value>, format: Format)
    requires qs != [] && qs[..|qs| - 1] == init && qs[|qs| - 1] == last
    ensures Fill(qs, results, format) ==
      Fill(init, results, format) + last.before + Replacement(last.content, Resolved(last.content, results, format))
  {
  }

  lemma {:induction false} FillConcat(ps: seq<Piece>, qs: seq<Piece>, results: map<string, Value>, format: Format)
    ensures Fill(ps + qs, results, format) == Fill(ps, results, format) + Fill(qs, results, format)
    decreases |qs|
  {
    if qs == [] {
      FillNothingMore(ps, results, format);
    } else {
      FillConcat(ps, qs[..|qs| - 1], results, format);
      FillConcatStep(ps, qs, results, format);
    }
  }

  lemma FillNothingMore(ps: seq<Piece>, results: map<string, Value>, format: Format)
    ensures Fill(ps + [], results, format) == Fill(ps, results, format) + Fill([], results, format)
  {
    EmptyRight(ps);
    EmptyRight(Fill(ps, results, format));
  }

  lemma FillConcatStep(ps: seq<Piece>, qs: seq<Piece>, results: map<string, Value>, format: Format)
    requires qs != []
    requires Fill(ps + qs[..|qs| - 1], results, format) == Fill(ps, results, format) + Fill(qs[..|qs| - 1], results, format)
    ensures Fill(ps + qs, results, format) == Fill(ps, results, format) + Fill(qs, results, format)
  {
    var init, last := qs[..|qs| - 1], qs[|qs| - 1];
    LastOfConcat(ps, qs);
    FillLast(ps + qs, ps + init, last, results, format);
    FillLast(qs, init, last, results, format);
    Associate4(Fill(ps, results, format), Fill(init, results, format), last.before,
               Replacement(last.content, Resolved(last.content, results, format)));
  }

  lemma LastOfConcat(ps: seq<Piece>, qs: seq<Piece>)
    requires qs != []
    ensures (ps + qs)[..|ps + qs| - 1] == ps + qs[..|qs| - 1] && (ps + qs)[|ps + qs| - 1] == qs[|qs| - 1]
  {
  }

  lemma Associate4(w: string, x: string, y: string, z: string)
    ensures w + x + y + z == w + (x + y + z)
  {
  }

  lemma FillOfOne(p: Piece, results: map<string, Value>, format: Format)
    ensures Fill([p], results, format) == p.before + Replacement(p.content, Resolved(p.content, results, format))
  {
    assert [p][..0] == [];
    assert Fill([p][..0], results, format) == "";
    EmptyLeft(p.before);
  }

  /** Templates resolve one by one, whatever surrounds them: the text before, what stands for the
      template, and the text after, each on its own. With `NoTemplateNoChange` this determines every
      successful outcome. */
  lemma ResolveAround(a: string, name: string, b: string, results: map<string, Value>, format: Format)
    requires IsName(name) && results != map[]
    ensures var s := a + "{{" + name + "}}" + b;
      var before, after := Resolve(a, results, format), Resolve(b, results, format);
      && (Resolve(s, results, format).Success? <==> before.Success? && Denoted(name, results).Ok? && after.Success?)
      && (Resolve(s, results, format).Success? ==>
            && before.value.Str? && after.value.Str?
            && var v := Denoted(name, results).value;
               Resolve(s, results, format).value == Str(before.value.s + (if v.Str? then v.s else format(v)) + after.value.s))
  {
    var s := a + Braced(name) + b;
    assert s == a + "{{" + name + "}}" + b;
    ParseAround(s, a, name, b);
    ResolveIsSubstitution(s, results, format);
    ResolveIsSubstitution(a, results, format);
    ResolveIsSubstitution(b, results, format);
    ReplacementIsText(name, results, format);
    AllResolveAround(Parse(a), Piece(Rest(a), name), Parse(b), results, format);
    FillAround(Parse(a), Piece(Rest(a), name), Parse(b), Rest(b), results, format);
  }

  lemma AllResolveAround(ps: seq<Piece>, p: Piece, qs: seq<Piece>, results: map<string, Value>, format: Format)
    ensures AllResolve(ps + [p] + qs, results, format) <==>
      AllResolve(ps, results, format) && Resolved(p.content, results, format).Ok? && AllResolve(qs, results, format)
  {
    var all := ps + [p] + qs;
    assert forall j | 0 <= j < |ps| :: all[j] == ps[j];
    assert all[|ps|] == p;
    assert forall j | 0 <= j < |qs| :: all[|ps| + 1 + j] == qs[j];
  }

  lemma FillAround(ps: seq<Piece>, p: Piece, qs: seq<Piece>, rest: string, results: map<string, Value>, format: Format)
    ensures Fill(ps + [p] + qs, results, format) + rest ==
      Fill(ps, results, format) + p.before + Replacement(p.content, Resolved(p.content, results, format))
        + (Fill(qs, results, format) + rest)
  {
    FillConcat(ps + [p], qs, results, format);
    FillConcat(ps, [p], results, format);
    FillOfOne(p, results, format);
    var x, y, z := Fill(ps, results, format), p.before, Replacement(p.content, Resolved(p.content, results, format));
    Associate(x, y, z);
    Associate(x + y + z, Fill(qs, results, format), rest);
  }

  // ---------------------------------------------------------------------------------------
  // Errors and dependencies, in order
  // ---------------------------------------------------------------------------------------

  /** The failing references, in the order of their positions. */
  ghost predicate ListsFailures(ps: seq<Piece>, results: map<string, Value>, at: seq<nat>) {
    && (forall i | 0 <= i < |at| :: at[i] < |ps|)
    && (forall i, j | 0 <= i < j < |at| :: at[i] < at[j])
    && forall k | 0 <= k < |ps| :: k in at <==> Denoted(ps[k].content, results).Err?
  }

  lemma {:induction false} FaultsAreListed(ps: seq<Piece>, results: map<string, Value>, format: Format) returns (at: seq<nat>)
    ensures ListsFailures(ps, results, at) && |at| == |Faults(ps, results, format)|
    ensures forall i | 0 <= i < |at| :: Denoted(ps[at[i]].content, results) == Err(Faults(ps, results, format)[i])
  {
    at := [];
    if ps != [] {
      var init, n := ps[..|ps| - 1], |ps| - 1;
      at := FaultsAreListed(init, results, format);
      ReplacementIsText(ps[n].content, results, format);
      at := OneMoreListed(ps, results, at);
    }
  }

  lemma OneMoreListed(ps: seq<Piece>, results: map<string, Value>, at: seq<nat>) returns (all: seq<nat>)
    requires ps != [] && ListsFailures(ps[..|ps| - 1], results, at)
    ensures ListsFailures(ps, results, all)
    ensures all == if Denoted(ps[|ps| - 1].content, results).Err? then at + [|ps| - 1] else at
  {
    var init, n := ps[..|ps| - 1], |ps| - 1;
    all := if Denoted(ps[n].content, results).Err? then at + [n] else at;
    forall k | 0 <= k < |ps| ensures k in all <==> Denoted(ps[k].content, results).Err? {
      assert k < n ==> init[k] == ps[k];
      assert k in all <==> k in at || (k == n && Denoted(ps[n].content, results).Err?);
    }
  }

  /** Unless the whole string is one template, every reference that fails is reported, in order. */
  lemma FailuresAreReportedInOrder(s: string, results: map<string, Value>, format: Format) returns (at: seq<nat>)
    requires results != map[] && !Occurs(s, Match(0, |s|))
    ensures ListsFailures(Parse(s), results, at)
    ensures at != [] ==>
      && Resolve(s, results, format).Unresolved? && |Resolve(s, results, format).errors| == |at|
      && forall i | 0 <= i < |at| :: Denoted(Parse(s)[at[i]].content, results) == Err(Resolve(s, results, format).errors[i])
  {
    at := FaultsAreListed(Parse(s), results, format);
    NoBracesNoMatches(s);
  }

  /** Reference `j` is the first that names step `k`. */
  ghost predicate FirstNames(ps: seq<Piece>, keys: set<string>, k: string, j: nat) {
    && j < |ps| && Split(ps[j].content, keys).step == k
    && forall i | 0 <= i < j :: Split(ps[i].content, keys).step != k
  }

  lemma NamedBefore(ps: seq<Piece>, keys: set<string>, k: string, j: nat)
    requires ps != []
    ensures FirstNames(ps[..|ps| - 1], keys, k, j) ==> FirstNames(ps, keys, k, j) && j < |ps| - 1
    ensures Split(ps[|ps| - 1].content, keys).step == k && !Names(ps[..|ps| - 1], keys, k) ==> FirstNames(ps, keys, k, |ps| - 1)
  {
    var init, n := ps[..|ps| - 1], |ps| - 1;
    assert forall i | 0 <= i < n :: init[i] == ps[i];
  }

  /** The extracted steps come in the order of their first references. */
  lemma {:induction false} ReferencedInOrder(ps: seq<Piece>, known: map<string, bool>) returns (at: seq<nat>)
    ensures |at| == |Referenced(ps, known)|
    ensures forall i | 0 <= i < |at| :: FirstNames(ps, known.Keys, Referenced(ps, known)[i], at[i])
    ensures forall i, j | 0 <= i < j < |at| :: at[i] < at[j]
  {
    at := [];
    if ps != [] {
      var init, n := ps[..|ps| - 1], |ps| - 1;
      var was := Referenced(init, known);
      at := ReferencedInOrder(init, known);
      ReferencedSteps(init, known);
      forall i | 0 <= i < |at| ensures FirstNames(ps, known.Keys, was[i], at[i]) && at[i] < n {
        NamedBefore(ps, known.Keys, was[i], at[i]);
      }
      if Referenced(ps, known) != was {
        NamedBefore(ps, known.Keys, Split(ps[n].content, known.Keys).step, 0);
        at := at + [n];
      }
    }
  }
}
