/** Resolving templates against step results, and extracting the steps a template depends on:
    execution/template/engine.go. */
module Resolution {
  import opened Values
  import opened Templates

  // ---------------------------------------------------------------------------------------
  // Field access
  // ---------------------------------------------------------------------------------------

  datatype RefError =
    | StepNotFound(step: string)
    | NotIndexable(field: string, before: seq<string>, found: Value)
    | FieldNotFound(segment: string, available: set<string>)

  datatype Result<+T> = Ok(value: T) | Err(error: RefError)

  /** strings.Split(s, "."), never empty. */
  function Segments(s: string): (r: seq<string>)
    ensures r != []
    decreases |s|
  {
    var d := LastDot(s);
    if d < 0 then [s] else Segments(s[..d]) + [s[d + 1..]]
  }

  /** Descends through nested maps. */
  function Walk(v: Value, path: seq<string>): Option<Value> {
    if path == [] then Some(v)
    else if v.Dict? && path[0] in v.fields then Walk(v.fields[path[0]], path[1..])
    else None
  }

  function Field(v: Value, field: string): Result<Value> {
    FieldFrom(v, field, Segments(field), 0)
  }

  function FieldFrom(v: Value, field: string, path: seq<string>, i: nat): Result<Value>
    requires i <= |path|
    decreases |path| - i
  {
    if i == |path| then Ok(v)
    else if !v.Dict? then Err(NotIndexable(field, path[..i], v))
    else if path[i] !in v.fields then Err(FieldNotFound(path[i], v.fields.Keys))
    else FieldFrom(v.fields[path[i]], field, path, i + 1)
  }

  method ExtractField(res: Value, field: string) returns (r: Result<Value>)
    ensures r == Field(res, field)
  {
    var current := res;
    var path := Segments(field);
    for i := 0 to |path|
      invariant Field(res, field) == FieldFrom(current, field, path, i)
    {
      if !current.Dict? {
        return Err(NotIndexable(field, path[..i], current));
      }
      if path[i] !in current.fields {
        return Err(FieldNotFound(path[i], current.fields.Keys));
      }
      current := current.fields[path[i]];
    }
    r := Ok(current);
  }

  lemma {:induction false} FieldFromWalks(v: Value, field: string, path: seq<string>, i: nat)
    requires i <= |path|
    ensures Walk(v, path[i..]) == (match FieldFrom(v, field, path, i) case Ok(w) => Some(w) case Err(_) => None)
    decreases |path| - i
  {
    if i < |path| && v.Dict? && path[i] in v.fields {
      FieldFromWalks(v.fields[path[i]], field, path, i + 1);
      assert path[i..][1..] == path[i + 1..];
    }
  }

  lemma {:induction false} SegmentsConcat(a: string, b: string)
    ensures Segments(a + "." + b) == Segments(a) + Segments(b)
    decreases |b|
  {
    var s := a + "." + b;
    var d := LastDot(b);
    LastDotConcat(a + ".", b);
    if d < 0 {
      SegmentsAt(s, |a|, a, b);
      assert Segments(b) == [b];
    } else {
      SegmentsAt(s, |a| + 1 + d, a + "." + b[..d], b[d + 1..]);
      SegmentsConcat(a, b[..d]);
      assert Segments(b) == Segments(b[..d]) + [b[d + 1..]];
    }
  }

  lemma SegmentsAt(s: string, d: nat, before: string, after: string)
    requires LastDot(s) == d && s[..d] == before && s[d + 1..] == after
    ensures Segments(s) == Segments(before) + [after]
  {
  }

  lemma {:induction false} LastDotConcat(a: string, b: string)
    ensures LastDot(a + b) == if LastDot(b) >= 0 then |a| + LastDot(b) else LastDot(a)
    decreases |b|
  {
    if b == "" {
      assert a + b == a;
    } else if b[|b| - 1] != '.' {
      LastDotConcat(a, b[..|b| - 1]);
      assert (a + b)[..|a + b| - 1] == a + b[..|b| - 1];
    }
  }

  lemma {:induction false} WalkConcat(v: Value, p: seq<string>, q: seq<string>)
    ensures Walk(v, p + q) == match Walk(v, p) case Some(w) => Walk(w, q) case None => None
  {
    if p == [] {
      assert p + q == q;
    } else {
      assert (p + q)[1..] == p[1..] + q;
      if v.Dict? && p[0] in v.fields {
        WalkConcat(v.fields[p[0]], p[1..], q);
      }
    }
  }

  /** Walking a concatenated path is walking its two halves in turn. */
  lemma FieldOfConcatenation(v: Value, a: string, b: string)
    ensures Field(v, a + "." + b).Ok? <==> Field(v, a).Ok? && Field(Field(v, a).value, b).Ok?
    ensures Field(v, a + "." + b).Ok? ==> Field(v, a + "." + b).value == Field(Field(v, a).value, b).value
  {
    var p, q := Segments(a), Segments(b);
    SegmentsConcat(a, b);
    FieldFromWalks(v, a + "." + b, p + q, 0);
    FieldFromWalks(v, a, p, 0);
    WalkConcat(v, p, q);
    assert (p + q)[0..] == p + q && p[0..] == p && q[0..] == q;
    if Field(v, a).Ok? {
      FieldFromWalks(Field(v, a).value, b, q, 0);
    }
  }

  // ---------------------------------------------------------------------------------------
  // Resolve
  // ---------------------------------------------------------------------------------------

  /** `format` is the JSON / Sprintf rendering of a value that is not a string. */
  type Format = Value -> string

  function Stringify(format: Format, v: Value): string {
    if v.Str? then v.s else format(v)
  }

  /** The text that replaces one `{{content}}`. */
  function Resolved(content: string, results: map<string, Value>, format: Format): Result<string> {
    var ref := Split(content, results.Keys);
    if ref.step !in results then Err(StepNotFound(ref.step))
    else if ref.field == "" then Ok(Stringify(format, results[ref.step]))
    else match Field(results[ref.step], ref.field)
      case Ok(v) => Ok(Stringify(format, v))
      case Err(e) => Err(e)
  }

  datatype Outcome =
    | Success(value: Value)
    | UnknownStep(step: string, available: set<string>)
    | BadField(error: RefError)
    | Unresolved(errors: seq<RefError>)

  /** A reference and the literal text between it and the reference before it. */
  datatype Piece = Piece(before: string, content: string)

  /** Where the text after the first `j` matches starts. */
  function Resume(ms: seq<Match>, j: nat): nat requires j <= |ms| { if j == 0 then 0 else ms[j - 1].end }

  function Pieces(s: string, ms: seq<Match>): (ps: seq<Piece>)
    requires InOrder(s, 0, ms)
    ensures |ps| == |ms|
  {
    seq(|ms|, j requires 0 <= j < |ms| => Piece(s[Resume(ms, j)..ms[j].start], Content(s, ms[j])))
  }

  function Tail(s: string, ms: seq<Match>): string requires InOrder(s, 0, ms) { s[Resume(ms, |ms|)..] }

  function Braced(content: string): string { "{{" + content + "}}" }

  /** What stands for a reference in the output; one that does not resolve is left standing. */
  function Replacement(content: string, r: Result<string>): string {
    match r case Ok(t) => t case Err(_) => Braced(content)
  }

  function Fault(r: Result<string>): seq<RefError> {
    match r case Ok(_) => [] case Err(e) => [e]
  }

  function Unparse(ps: seq<Piece>): string {
    if ps == [] then ""
    else var last := ps[|ps| - 1]; Unparse(ps[..|ps| - 1]) + last.before + Braced(last.content)
  }

  function Fill(ps: seq<Piece>, results: map<string, Value>, format: Format): string {
    if ps == [] then ""
    else
      var last := ps[|ps| - 1];
      Fill(ps[..|ps| - 1], results, format) + last.before
        + Replacement(last.content, Resolved(last.content, results, format))
  }

  function Faults(ps: seq<Piece>, results: map<string, Value>, format: Format): seq<RefError> {
    if ps == [] then []
    else Faults(ps[..|ps| - 1], results, format) + Fault(Resolved(ps[|ps| - 1].content, results, format))
  }

  predicate HasBraces(s: string) { exists i | 0 <= i < |s| - 1 :: s[i] == '{' && s[i + 1] == '{' }

  /** The whole string is one template. */
  predicate Spans(s: string, ms: seq<Match>) { ms == [Match(0, |s|)] }

  function Resolve(s: string, results: map<string, Value>, format: Format): Outcome {
    ResolveMatches(s, Scan(s, 0), results, format)
  }

  function ResolveMatches(s: string, ms: seq<Match>, results: map<string, Value>, format: Format): Outcome
    requires InOrder(s, 0, ms)
  {
    if !HasBraces(s) || results == map[] || ms == [] then Success(Str(s))
    else if Spans(s, ms) then
      match Resolved(Content(s, ms[0]), results, format)
      case Ok(t) => Success(Str(t))
      case Err(StepNotFound(step)) => UnknownStep(step, results.Keys)
      case Err(e) => BadField(e)
    else
      var ps := Pieces(s, ms);
      var errs := Faults(ps, results, format);
      if errs != [] then Unresolved(errs) else Success(Str(Fill(ps, results, format) + Tail(s, ms)))
  }

  /** The steps whose results the references consult. */
  function Consulted(ps: seq<Piece>, keys: set<string>): set<string> {
    if ps == [] then {}
    else Consulted(ps[..|ps| - 1], keys) + {Split(ps[|ps| - 1].content, keys).step} * keys
  }

  method ResolveContent(content: string, results: map<string, Value>, format: Format)
    returns (r: Result<string>, ghost used: set<string>)
    ensures r == Resolved(content, results, format)
    ensures used == {Split(content, results.Keys).step} * results.Keys
  {
    var stepName, field := ResolveTemplateContent(content, results);
    assert Split(content, results.Keys) == Reference(stepName, field);
    used := {};
    if stepName !in results {
      return Err(StepNotFound(stepName)), used;
    }
    var res := results[stepName];
    used := {stepName};
    if field != "" {
      var v := ExtractField(res, field);
      r := match v case Ok(w) => Ok(Stringify(format, w)) case Err(e) => Err(e);
      return;
    }
    r := Ok(Stringify(format, res));
  }

  /** `used` records the step results consulted. */
  method ResolveTemplate(s: string, results: map<string, Value>, format: Format)
    returns (r: Outcome, ghost used: set<string>)
    ensures r == Resolve(s, results, format)
    ensures used == Consulted(Pieces(s, Scan(s, 0)), results.Keys)
  {
    used := {};
    var matches := Scan(s, 0);
    if !HasBraces(s) || |results| == 0 || |matches| == 0 {
      NoBracesNoMatches(s);
      NothingConsulted(Pieces(s, matches));
      return Success(Str(s)), used;
    }
    if |matches| == 1 {
      var m := matches[0];
      if m.start == 0 && m.end == |s| {
        var t;
        t, used := ResolveContent(Content(s, m), results, format);
        assert Pieces(s, matches)[..0] == [];
        match t
        case Ok(text) => return Success(Str(text)), used;
        case Err(StepNotFound(step)) => return UnknownStep(step, results.Keys), used;
        case Err(e) => return BadField(e), used;
      }
    }
    var text, errs;
    text, errs, used := Interpolate(Pieces(s, matches), Tail(s, matches), results, format);
    r := if |errs| > 0 then Unresolved(errs) else Success(Str(text));
  }

  /** What one more reference contributes. */
  lemma FillOneMore(ps: seq<Piece>, j: nat, results: map<string, Value>, format: Format)
    requires j < |ps|
    ensures var Piece(before, c) := ps[j]; var r := Resolved(c, results, format);
      && Fill(ps[..j + 1], results, format) == Fill(ps[..j], results, format) + before + Replacement(c, r)
      && Faults(ps[..j + 1], results, format) == Faults(ps[..j], results, format) + Fault(r)
      && Consulted(ps[..j + 1], results.Keys) ==
         Consulted(ps[..j], results.Keys) + {Split(c, results.Keys).step} * results.Keys
  {
    assert ps[..j + 1][..j] == ps[..j];
  }

  /** ReplaceAllStringFunc with the closure of Resolve, which sees one match at a time. */
  method Interpolate(ps: seq<Piece>, tail: string, results: map<string, Value>, format: Format)
    returns (text: string, errs: seq<RefError>, ghost used: set<string>)
    ensures text == Fill(ps, results, format) + tail
    ensures errs == Faults(ps, results, format)
    ensures used == Consulted(ps, results.Keys)
  {
    text, errs, used := "", [], {};
    for j := 0 to |ps|
      invariant text == Fill(ps[..j], results, format)
      invariant errs == Faults(ps[..j], results, format)
      invariant used == Consulted(ps[..j], results.Keys)
    {
      var t;
      ghost var read;
      t, read := ResolveContent(ps[j].content, results, format);
      text := text + ps[j].before + Replacement(ps[j].content, t);
      errs := errs + Fault(t);
      used := used + read;
      FillOneMore(ps, j, results, format);
    }
    assert ps[..|ps|] == ps;
    text := text + tail;
  }

  lemma {:induction false} NothingConsulted(ps: seq<Piece>)
    ensures Consulted(ps, {}) == {}
  {
    if ps != [] { NothingConsulted(ps[..|ps| - 1]); }
  }

  lemma NoBracesNoMatches(s: string)
    ensures !HasBraces(s) ==> Scan(s, 0) == []
  {
    var ms := Scan(s, 0);
    if ms != [] {
      assert Occurs(s, ms[0]);
    }
  }
}
