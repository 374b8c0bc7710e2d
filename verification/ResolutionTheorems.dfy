/** What template resolution means: one-pass substitution, and exact dependency extraction. */
module ResolutionTheorems {
  import opened Sequences
  import opened Values
  import opened Templates
  import opened Resolution

  // ---------------------------------------------------------------------------------------
  // One-pass substitution
  // ---------------------------------------------------------------------------------------

  function Parse(s: string): seq<Piece> { Pieces(s, Scan(s, 0)) }

  function Rest(s: string): string { Tail(s, Scan(s, 0)) }

  lemma BracedContent(s: string, m: Match)
    requires Occurs(s, m)
    ensures Braced(Content(s, m)) == s[m.start..m.end]
  {
  }

  lemma Slices(s: string, a: nat, b: nat, c: nat)
    requires a <= b <= c <= |s|
    ensures s[..a] + s[a..b] + s[b..c] == s[..c]
  {
  }

  lemma {:induction false} UnparsePrefix(s: string, ms: seq<Match>, ps: seq<Piece>, j: nat)
    requires InOrder(s, 0, ms) && ps == Pieces(s, ms) && j <= |ms|
    ensures Unparse(ps[..j]) == s[..Resume(ms, j)]
  {
    if j > 0 {
      UnparsePrefix(s, ms, ps, j - 1);
      assert ps[..j][..j - 1] == ps[..j - 1];
      BracedContent(s, ms[j - 1]);
      Slices(s, Resume(ms, j - 1), ms[j - 1].start, ms[j - 1].end);
    }
  }

  lemma ShiftOccurrence(s: string, from: nat, to: nat, m: Match)
    requires from <= to <= |s| && Occurs(s[from..to], m)
    ensures Occurs(s, Match(from + m.start, from + m.end))
  {
    SliceOfSlice(s, from, to, m.start + 2, m.end - 2);
    assert forall k | 0 <= k < to - from :: s[from..to][k] == s[from + k];
  }

  /** No occurrence lies between two neighbours of the scan. */
  lemma NothingBetween(s: string, j: nat, m: Match)
    requires j <= |Scan(s, 0)|
    ensures var ms := Scan(s, 0);
      var to := if j == |ms| then |s| else ms[j].start;
      Resume(ms, j) <= to && !Occurs(s[Resume(ms, j)..to], m)
  {
    var ms := Scan(s, 0);
    var from, to := Resume(ms, j), if j == |ms| then |s| else ms[j].start;
    if Occurs(s[from..to], m) {
      ShiftOccurrence(s, from, to, m);
      var n := Match(from + m.start, from + m.end);
      ScanFindsAll(s, 0, n);
      var i :| 0 <= i < |ms| && ms[i] == n;
      OutsideGap(s, ms, i, j);
    }
  }

  lemma OutsideGap(s: string, ms: seq<Match>, i: nat, j: nat)
    requires InOrder(s, 0, ms) && i < |ms| && j <= |ms|
    ensures ms[i].start < ms[i].end <= Resume(ms, j) || (j < |ms| && ms[j].start <= ms[i].start)
  {
    assert i < j ==> ms[i].end <= ms[j - 1].end;
    assert j < i ==> ms[j].end <= ms[i].start;
  }

  ghost predicate HoldsNoTemplate(s: string) { forall m :: !Occurs(s, m) }

  /** Parsing cuts `s` into literal texts and references: put together again they are `s`, every
      reference is a well-formed name, and no literal text contains a template. */
  lemma ParseIsFaithful(s: string)
    ensures Unparse(Parse(s)) + Rest(s) == s
    ensures forall j | 0 <= j < |Parse(s)| :: IsName(Parse(s)[j].content)
    ensures forall j | 0 <= j < |Parse(s)| :: HoldsNoTemplate(Parse(s)[j].before)
    ensures HoldsNoTemplate(Rest(s))
  {
    UnparseParse(s);
    ContentsAreNames(s);
    LiteralsHoldNoTemplate(s);
  }

  lemma UnparseParse(s: string)
    ensures Unparse(Parse(s)) + Rest(s) == s
  {
    UnparseAll(s, Scan(s, 0), Parse(s));
  }

  lemma UnparseAll(s: string, ms: seq<Match>, ps: seq<Piece>)
    requires InOrder(s, 0, ms) && ps == Pieces(s, ms)
    ensures Unparse(ps) + Tail(s, ms) == s
  {
    UnparsePrefix(s, ms, ps, |ms|);
    WholePrefix(ps);
    JoinAt(s, Resume(ms, |ms|));
  }

  lemma JoinAt(s: string, n: nat)
    requires n <= |s|
    ensures s[..n] + s[n..] == s
  {
  }

  lemma ContentsAreNames(s: string)
    ensures forall j | 0 <= j < |Parse(s)| :: IsName(Parse(s)[j].content)
  {
    var ms := Scan(s, 0);
    forall j | 0 <= j < |Parse(s)| ensures IsName(Parse(s)[j].content) {
      assert Occurs(s, ms[j]);
    }
  }

  lemma LiteralsHoldNoTemplate(s: string)
    ensures forall j | 0 <= j < |Parse(s)| :: HoldsNoTemplate(Parse(s)[j].before)
    ensures HoldsNoTemplate(Rest(s))
  {
    var ms := Scan(s, 0);
    forall j | 0 <= j < |ms| ensures HoldsNoTemplate(Parse(s)[j].before) {
      forall m ensures !Occurs(Parse(s)[j].before, m) {
        NothingBetween(s, j, m);
      }
    }
    forall m ensures !Occurs(Rest(s), m) {
      NothingBetween(s, |ms|, m);
      assert Rest(s) == s[Resume(ms, |ms|)..|s|];
    }
  }

  ghost predicate AllResolve(ps: seq<Piece>, results: map<string, Value>, format: Format) {
    forall j | 0 <= j < |ps| :: Resolved(ps[j].content, results, format).Ok?
  }

  lemma {:induction false} NoFaults(ps: seq<Piece>, results: map<string, Value>, format: Format)
    ensures Faults(ps, results, format) == [] <==> AllResolve(ps, results, format)
  {
    if ps != [] {
      var init, n := ps[..|ps| - 1], |ps| - 1;
      NoFaults(init, results, format);
      assert forall j | 0 <= j < n :: init[j] == ps[j];
    }
  }

  /** With any results at all, Resolve succeeds iff every reference does; the value is then always a
      string, the literal text interleaved with the replacements, on the whole-string path too. */
  lemma ResolveIsSubstitution(s: string, results: map<string, Value>, format: Format)
    requires results != map[]
    ensures Resolve(s, results, format).Success? <==> AllResolve(Parse(s), results, format)
    ensures Resolve(s, results, format).Success? ==>
      Resolve(s, results, format).value == Str(Fill(Parse(s), results, format) + Rest(s))
  {
    var ms := Scan(s, 0);
    NoBracesNoMatches(s);
    if ms == [] {
      NoPieces(s, ms);
    } else if Spans(s, ms) {
      OnePiece(s, ms);
      FillOne(Parse(s), Content(s, ms[0]), results, format);
      NothingAfter(Fill(Parse(s), results, format), Rest(s));
    } else {
      Interpolated(s, ms, Parse(s), results, format);
    }
  }

  lemma NoPieces(s: string, ms: seq<Match>)
    requires ms == []
    ensures Pieces(s, ms) == [] && "" + Tail(s, ms) == s
  {
  }

  lemma Interpolated(s: string, ms: seq<Match>, ps: seq<Piece>, results: map<string, Value>, format: Format)
    requires InOrder(s, 0, ms) && ps == Pieces(s, ms) && !Spans(s, ms)
    requires results != map[] && HasBraces(s) && ms != []
    ensures ResolveMatches(s, ms, results, format).Success? <==> AllResolve(ps, results, format)
    ensures ResolveMatches(s, ms, results, format).Success? ==>
      ResolveMatches(s, ms, results, format).value == Str(Fill(ps, results, format) + Tail(s, ms))
  {
    NoFaults(ps, results, format);
  }

  lemma OnePiece(s: string, ms: seq<Match>)
    requires InOrder(s, 0, ms) && Spans(s, ms)
    ensures Pieces(s, ms)[0].before == "" && Pieces(s, ms)[0].content == Content(s, ms[0])
    ensures |Tail(s, ms)| == 0
  {
  }

  lemma NothingAfter(x: string, y: string)
    requires |y| == 0
    ensures x + y == x
  {
  }

  lemma NothingBefore(x: string, a: string, b: string)
    requires |a| == 0 && |b| == 0
    ensures a + b + x == x
  {
  }

  lemma FillOne(ps: seq<Piece>, c: string, results: map<string, Value>, format: Format)
    requires |ps| == 1 && |ps[0].before| == 0 && ps[0].content == c
    ensures Fill(ps, results, format) == Replacement(c, Resolved(c, results, format))
    ensures AllResolve(ps, results, format) <==> Resolved(c, results, format).Ok?
  {
    assert ps[..0] == [];
    NothingBefore(Replacement(c, Resolved(c, results, format)), Fill(ps[..0], results, format), ps[0].before);
  }

  /** The value that a reference denotes, not yet a string. */
  function Denoted(content: string, results: map<string, Value>): Result<Value> {
    var Reference(step, field) := Split(content, results.Keys);
    if step !in results then Err(StepNotFound(step))
    else if field == "" then Ok(results[step]) else Field(results[step], field)
  }

  lemma WholeTemplateIsScanned(s: string)
    requires Occurs(s, Match(0, |s|))
    ensures Scan(s, 0) == [Match(0, |s|)] && HasBraces(s)
  {
    MatchAtIsOccurrence(s, 0, Match(0, |s|));
    assert Scan(s, |s|) == [];
  }

  /** When the whole string is one template, the type of what it denotes is preserved, as documented,
      iff that is a string already. */
  lemma TypeIsPreservedIffString(s: string, results: map<string, Value>, format: Format, v: Value)
    requires Occurs(s, Match(0, |s|)) && Denoted(Content(s, Match(0, |s|)), results) == Ok(v)
    ensures Resolve(s, results, format) == Success(if v.Str? then v else Str(format(v)))
    ensures Resolve(s, results, format) == Success(v) <==> v.Str?
  {
    WholeTemplateIsScanned(s);
  }

  /** A number becomes the text that formats it. */
  lemma NumberBecomesText(n: int, format: Format)
    ensures Resolve("{{a}}", map["a" := Int(n)], format) == Success(Str(format(Int(n))))
    ensures Resolve("{{a}}", map["a" := Int(n)], format) != Success(Int(n))
  {
    var s, results := "{{a}}", map["a" := Int(n)];
    assert s[2..3] == "a";
    assert "a" in results.Keys;
    TypeIsPreservedIffString(s, results, format, Int(n));
  }

  /** Contrary to its documentation, Resolve never yields anything but a string. */
  lemma ResolveYieldsStrings(s: string, results: map<string, Value>, format: Format)
    ensures Resolve(s, results, format).Success? ==> Resolve(s, results, format).value.Str?
  {
    if results != map[] {
      ResolveIsSubstitution(s, results, format);
    }
  }

  // ---------------------------------------------------------------------------------------
  // Dependency extraction
  // ---------------------------------------------------------------------------------------

  /** One of the references names step `k`. */
  ghost predicate Names(ps: seq<Piece>, keys: set<string>, k: string) {
    exists j | 0 <= j < |ps| :: Split(ps[j].content, keys).step == k
  }

  lemma NamesLast(ps: seq<Piece>, keys: set<string>, k: string)
    requires ps != []
    ensures Names(ps, keys, k) <==> Split(ps[|ps| - 1].content, keys).step == k || Names(ps[..|ps| - 1], keys, k)
  {
    var init, n := ps[..|ps| - 1], |ps| - 1;
    if j :| 0 <= j < |init| && Split(init[j].content, keys).step == k {
      assert ps[j] == init[j];
    }
    if j :| 0 <= j < |ps| && Split(ps[j].content, keys).step == k && j < n {
      assert ps[j] == init[j];
    }
  }

  /** The known steps the references name, each once, in order of first appearance. */
  function Referenced(ps: seq<Piece>, known: map<string, bool>): seq<string> {
    if ps == [] then []
    else
      var before := Referenced(ps[..|ps| - 1], known);
      var step := Split(ps[|ps| - 1].content, known.Keys).step;
      if step == "" || !(step in known && known[step]) || step in before then before else before + [step]
  }

  method ExtractReferencedSteps(s: string, known: map<string, bool>) returns (out: seq<string>)
    ensures out == Referenced(Parse(s), known)
  {
    if !HasBraces(s) || |known| == 0 {
      NoBracesNoMatches(s);
      NothingReferenced(Parse(s));
      return [];
    }
    var results: map<string, Value> := map k | k in known :: Nil;
    assert results.Keys == known.Keys;
    out := CollectSteps(Parse(s), known, results);
  }

  /** The loop of ExtractReferencedSteps over the matches. */
  method CollectSteps(pieces: seq<Piece>, known: map<string, bool>, results: map<string, Value>) returns (out: seq<string>)
    requires results.Keys == known.Keys
    ensures out == Referenced(pieces, known)
  {
    out := [];
    var seen: set<string> := {};
    for j := 0 to |pieces|
      invariant out == Referenced(pieces[..j], known)
      invariant forall k :: k in seen <==> k in out
    {
      assert pieces[..j + 1][..j] == pieces[..j];
      var stepName, field := ResolveTemplateContent(pieces[j].content, results);
      assert Split(pieces[j].content, known.Keys).step == stepName;
      if stepName == "" || !(stepName in known && known[stepName]) || stepName in seen {
        continue;
      }
      seen := seen + {stepName};
      out := out + [stepName];
    }
    assert pieces[..|pieces|] == pieces;
  }

  lemma {:induction false} NothingReferenced(ps: seq<Piece>)
    ensures Referenced(ps, map[]) == []
  {
    if ps != [] { NothingReferenced(ps[..|ps| - 1]); }
  }

  /** The extracted list has no duplicates and holds exactly the known steps that are named. */
  lemma {:induction false} ReferencedSteps(ps: seq<Piece>, known: map<string, bool>)
    ensures Distinct(Referenced(ps, known))
    ensures forall k :: k in Referenced(ps, known) <==> k != "" && k in known && known[k] && Names(ps, known.Keys, k)
  {
    if ps != [] {
      ReferencedSteps(ps[..|ps| - 1], known);
      forall k ensures k in Referenced(ps, known) <==> k != "" && k in known && known[k] && Names(ps, known.Keys, k) {
        NamesLast(ps, known.Keys, k);
      }
    }
  }

  lemma {:induction false} ConsultedSteps(ps: seq<Piece>, keys: set<string>)
    ensures forall k :: k in Consulted(ps, keys) <==> k in keys && Names(ps, keys, k)
  {
    if ps != [] {
      ConsultedSteps(ps[..|ps| - 1], keys);
      forall k ensures k in Consulted(ps, keys) <==> k in keys && Names(ps, keys, k) {
        NamesLast(ps, keys, k);
      }
    }
  }

  /** Every result key is a known step. */
  function AllKnown(results: map<string, Value>): map<string, bool> { map k | k in results :: true }

  /** The steps whose results Resolve consults are exactly the extracted ones. */
  lemma ConsultedAreExtracted(s: string, results: map<string, Value>)
    ensures Consulted(Parse(s), results.Keys) == SeqToSet(Referenced(Parse(s), AllKnown(results)))
  {
    assert AllKnown(results).Keys == results.Keys;
    ReferencedSteps(Parse(s), AllKnown(results));
    ConsultedSteps(Parse(s), results.Keys);
    ContentsAreNames(s);
    forall j | 0 <= j < |Parse(s)| ensures Split(Parse(s)[j].content, results.Keys).step != "" {
      SplitIsLongestKey(Parse(s)[j].content, results.Keys);
    }
  }

  /** The extracted steps are enough: results that agree on them resolve alike, errors included. */
  lemma DependenciesSuffice(s: string, r1: map<string, Value>, r2: map<string, Value>, format: Format)
    requires r1.Keys == r2.Keys
    requires forall k | k in r1 && k in Referenced(Parse(s), AllKnown(r1)) :: r1[k] == r2[k]
    ensures Resolve(s, r1, format) == Resolve(s, r2, format)
  {
    var ps := Parse(s);
    ConsultedAreExtracted(s, r1);
    AgreementSuffices(ps, r1, r2, format);
    SameReplacements(ps, r1, r2, format);
    SameOutcome(s, Scan(s, 0), r1, r2, format);
  }

  lemma SameOutcome(s: string, ms: seq<Match>, r1: map<string, Value>, r2: map<string, Value>, format: Format)
    requires InOrder(s, 0, ms) && r1.Keys == r2.Keys
    requires var ps := Pieces(s, ms);
      && Fill(ps, r1, format) == Fill(ps, r2, format) && Faults(ps, r1, format) == Faults(ps, r2, format)
      && forall j | 0 <= j < |ps| :: Resolved(ps[j].content, r1, format) == Resolved(ps[j].content, r2, format)
    ensures ResolveMatches(s, ms, r1, format) == ResolveMatches(s, ms, r2, format)
  {
    EmptyTogether(r1, r2);
    if Spans(s, ms) {
      assert Content(s, ms[0]) == Pieces(s, ms)[0].content;
    }
  }

  lemma EmptyTogether(r1: map<string, Value>, r2: map<string, Value>)
    requires r1.Keys == r2.Keys
    ensures r1 == map[] <==> r2 == map[]
  {
    assert r1 == map[] <==> r1.Keys == {};
    assert r2 == map[] <==> r2.Keys == {};
  }

  lemma AgreementSuffices(ps: seq<Piece>, r1: map<string, Value>, r2: map<string, Value>, format: Format)
    requires r1.Keys == r2.Keys && forall k | k in r1 && k in Consulted(ps, r1.Keys) :: r1[k] == r2[k]
    ensures forall j | 0 <= j < |ps| :: Resolved(ps[j].content, r1, format) == Resolved(ps[j].content, r2, format)
  {
    ConsultedSteps(ps, r1.Keys);
    forall j | 0 <= j < |ps| ensures Resolved(ps[j].content, r1, format) == Resolved(ps[j].content, r2, format) {
      var step := Split(ps[j].content, r1.Keys).step;
      assert step in r1 ==> Names(ps, r1.Keys, step);
    }
  }

  lemma {:induction false} SameReplacements(ps: seq<Piece>, r1: map<string, Value>, r2: map<string, Value>, format: Format)
    requires forall j | 0 <= j < |ps| :: Resolved(ps[j].content, r1, format) == Resolved(ps[j].content, r2, format)
    ensures Fill(ps, r1, format) == Fill(ps, r2, format)
    ensures Faults(ps, r1, format) == Faults(ps, r2, format)
  {
    if ps != [] {
      assert Resolved(ps[|ps| - 1].content, r1, format) == Resolved(ps[|ps| - 1].content, r2, format);
      SameReplacements(ps[..|ps| - 1], r1, r2, format);
    }
  }

  lemma {:induction false} FillIsLong(ps: seq<Piece>, results: map<string, Value>, format: Format, j: nat)
    requires j < |ps|
    ensures |Fill(ps, results, format)| >= |Replacement(ps[j].content, Resolved(ps[j].content, results, format))|
  {
    if j < |ps| - 1 {
      FillIsLong(ps[..|ps| - 1], results, format, j);
    }
  }

  /** Giving step `k` the result `v` instead changes what `s` resolves to. */
  ghost predicate Influences(s: string, results: map<string, Value>, format: Format, k: string, v: Value) {
    Resolve(s, results[k := v], format) != Resolve(s, results, format)
  }

  /** The extracted steps are necessary too: on a successful resolution they are exactly the steps
      whose result, changed alone, can change the outcome. */
  lemma DependenciesAreExact(s: string, results: map<string, Value>, format: Format, k: string)
    requires k in results && Resolve(s, results, format).Success?
    ensures k in Referenced(Parse(s), AllKnown(results)) <==>
      exists v :: Influences(s, results, format, k, v)
  {
    if k in Referenced(Parse(s), AllKnown(results)) {
      var v := InfluentialValue(s, results, format, k);
    } else {
      forall v ensures !Influences(s, results, format, k, v) {
        DependenciesSuffice(s, results, results[k := v], format);
      }
    }
  }

  lemma InfluentialValue(s: string, results: map<string, Value>, format: Format, k: string) returns (v: Value)
    requires k in results && Resolve(s, results, format).Success?
    requires k in Referenced(Parse(s), AllKnown(results))
    ensures Influences(s, results, format, k, v)
  {
    var ps, keys := Parse(s), results.Keys;
    ConsultedAreExtracted(s, results);
    ConsultedSteps(ps, keys);
    var j := NamingReference(ps, keys, k);
    if Split(ps[j].content, keys).field != "" {
      v := Nil;
      NilInfluences(s, results, format, k, j);
    } else {
      v := LongTextInfluences(s, results, format, k, j);
    }
  }

  lemma NamingReference(ps: seq<Piece>, keys: set<string>, k: string) returns (j: nat)
    requires Names(ps, keys, k)
    ensures j < |ps| && Split(ps[j].content, keys).step == k
  {
    j :| 0 <= j < |ps| && Split(ps[j].content, keys).step == k;
  }

  lemma NilInfluences(s: string, results: map<string, Value>, format: Format, k: string, j: nat)
    requires k in results && Resolve(s, results, format).Success? && j < |Parse(s)|
    requires var Reference(step, field) := Split(Parse(s)[j].content, results.Keys); step == k && field != ""
    ensures Influences(s, results, format, k, Nil)
  {
    NilHasNoFields(Parse(s)[j].content, results, format, k);
    ResolveIsSubstitution(s, results[k := Nil], format);
  }

  /** A text longer than the whole outcome cannot be part of it. */
  lemma LongTextInfluences(s: string, results: map<string, Value>, format: Format, k: string, j: nat) returns (v: Value)
    requires k in results && Resolve(s, results, format).Success? && j < |Parse(s)|
    requires var Reference(step, field) := Split(Parse(s)[j].content, results.Keys); step == k && field == ""
    ensures Influences(s, results, format, k, v)
  {
    ResolveIsSubstitution(s, results, format);
    var text := Resolve(s, results, format).value.s;
    v := Str(text + "+");
    PlainReference(Parse(s)[j].content, results, format, k, text + "+");
    FillIsLong(Parse(s), results[k := v], format, j);
    ResolveIsSubstitution(s, results[k := v], format);
  }

  lemma PlainReference(content: string, results: map<string, Value>, format: Format, k: string, text: string)
    requires k in results
    requires Split(content, results.Keys).step == k && Split(content, results.Keys).field == ""
    ensures Resolved(content, results[k := Str(text)], format) == Ok(text)
  {
    assert results[k := Str(text)].Keys == results.Keys;
  }

  lemma NilHasNoFields(content: string, results: map<string, Value>, format: Format, k: string)
    requires k in results
    requires Split(content, results.Keys).step == k && Split(content, results.Keys).field != ""
    ensures Resolved(content, results[k := Nil], format).Err?
  {
    assert results[k := Nil].Keys == results.Keys;
  }
}
