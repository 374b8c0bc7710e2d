/** Getting a step ready to run: argument coercion (execution/template/engine.go) and the
    copy-then-mutate preparation of a frozen step (execution/plan.go). */
module Steps {
  import opened Values
  import opened Resolution
  import Decimals
  import ResolutionTheorems

  // ---------------------------------------------------------------------------------------
  // What happens to one argument, and to all of them
  // ---------------------------------------------------------------------------------------

  function Coerce(v: Value): Value {
    if !v.Str? then v
    else match Decimals.ParseInt(v.s)
      case Some(n) => Int(n)
      case None => match Decimals.ParseFloat(v.s)
        case Some(r) => Float(r)
        case None => match Decimals.ParseBool(v.s)
          case Some(b) => Bool(b)
          case None => v
  }

  function CoerceAll(args: map<string, Value>): map<string, Value> { map k | k in args :: Coerce(args[k]) }

  function Coercible(args: map<string, Value>): set<string> { set k | k in args && Coerce(args[k]) != args[k] }

  /** Only strings are templates. */
  function ResolveValue(v: Value, results: map<string, Value>, format: Format): Outcome {
    if v.Str? then Resolve(v.s, results, format) else Success(v)
  }

  ghost predicate Resolvable(args: map<string, Value>, results: map<string, Value>, format: Format) {
    forall k | k in args :: ResolveValue(args[k], results, format).Success?
  }

  ghost function ResolveAll(args: map<string, Value>, results: map<string, Value>, format: Format): map<string, Value>
    requires Resolvable(args, results, format)
  {
    map k | k in args :: ResolveValue(args[k], results, format).value
  }

  /** A coerced value is not a string, so coercing again finds nothing to do. */
  lemma CoercionIsIdempotent(args: map<string, Value>)
    ensures CoerceAll(CoerceAll(args)) == CoerceAll(args)
    ensures Coercible(CoerceAll(args)) == {}
  {
    forall k | k in args ensures Coerce(Coerce(args[k])) == Coerce(args[k]) {
    }
  }

  /** What a value is coerced to, by its spelling. */
  lemma CoercionReadsSpelling(v: Value)
    ensures !v.Str? ==> Coerce(v) == v
    ensures v.Str? ==>
      && (Coerce(v) == Bool(true) <==> v.s == "true") && (Coerce(v) == Bool(false) <==> v.s == "false")
      && (Coerce(v).Int? <==>
            v.s != "" && forall i | 0 <= i < |v.s| :: v.s[i] in "0123456789" || (i == 0 && v.s[i] == '-'))
      && (Coerce(v).Float? <==> exists minus, whole, fraction :: Decimals.Spells(v.s, minus, whole, fraction))
      && (Coerce(v).Bool? || Coerce(v).Int? || Coerce(v).Float? || Coerce(v) == v)
  {
    if v.Str? {
      Decimals.IntLiteralsAre(v.s);
      Decimals.FloatLiteralsAre(v.s);
      Decimals.LiteralsAreDisjoint(v.s);
    }
  }

  /** What numerals are coerced to: every int64 comes back from its decimal digits, and a decimal fraction
      is its digits without the dot over a power of ten. */
  lemma NumeralsAreRead(n: int, x: string, minus: bool, whole: string, fraction: string)
    ensures Decimals.IsInt64(n) ==> Coerce(Str(Decimals.PrintInt(n))) == Int(n)
    ensures Decimals.Spells(x, minus, whole, fraction) ==>
      && Decimals.AllDigits(whole + fraction)
      && Coerce(Str(x)) == Float((if minus then -1.0 else 1.0) *
                                 (Decimals.DigitsValue(whole + fraction) as real / Decimals.Pow10(|fraction|) as real))
  {
    if Decimals.IsInt64(n) {
      Decimals.ParseIntInvertsPrint(n);
    }
    if Decimals.Spells(x, minus, whole, fraction) {
      FractionIsRead(x, minus, whole, fraction);
    }
  }

  lemma FractionIsRead(x: string, minus: bool, whole: string, fraction: string)
    requires Decimals.Spells(x, minus, whole, fraction)
    ensures Coerce(Str(x)).Float? && Decimals.ParseFloat(x) == Some(Coerce(Str(x)).r)
    ensures Decimals.AllDigits(whole + fraction)
    ensures Decimals.ParseFloat(x) == Some((if minus then -1.0 else 1.0) *
                                           (Decimals.DigitsValue(whole + fraction) as real / Decimals.Pow10(|fraction|) as real))
  {
    Decimals.SpelledValue(x, minus, whole, fraction);
    Decimals.LiteralsAreDisjoint(x);
  }

  /** What becomes of each argument, under the argument's own key: "true", "false" and numerals turn into
      the value they spell; any other string turns into the text of its template, which stays a string
      even when it reads as a literal; everything else is kept. */
  lemma PreparedArgument(args: map<string, Value>, results: map<string, Value>, format: Format, k: string)
    requires Resolvable(CoerceAll(args), results, format) && k in args
    ensures var prepared := ResolveAll(CoerceAll(args), results, format);
      && prepared.Keys == args.Keys
      && (!args[k].Str? ==> prepared[k] == args[k])
      && (args[k] == Str("true") ==> prepared[k] == Bool(true))
      && (args[k] == Str("false") ==> prepared[k] == Bool(false))
      && (forall n | Decimals.IsInt64(n) && args[k] == Str(Decimals.PrintInt(n)) :: prepared[k] == Int(n))
      && (args[k].Str? && Coerce(args[k]) != args[k] ==> prepared[k] == Coerce(args[k]) && !prepared[k].Str?)
      && (args[k].Str? && Coerce(args[k]) == args[k] ==>
            var x := args[k].s;
            if results == map[] then prepared[k] == args[k]
            else
              && ResolutionTheorems.AllResolve(ResolutionTheorems.Parse(x), results, format)
              && prepared[k] == Str(Fill(ResolutionTheorems.Parse(x), results, format) + ResolutionTheorems.Rest(x)))
  {
    var coerced := CoerceAll(args);
    assert k in coerced && coerced[k] == Coerce(args[k]);
    assert ResolveValue(coerced[k], results, format).Success?;
    assert ResolveAll(coerced, results, format)[k] == ResolveValue(coerced[k], results, format).value;
    CoercionReadsSpelling(args[k]);
    forall n | Decimals.IsInt64(n) && args[k] == Str(Decimals.PrintInt(n)) ensures coerced[k] == Int(n) {
      Decimals.ParseIntInvertsPrint(n);
    }
    if args[k].Str? && results != map[] {
      ResolutionTheorems.ResolveIsSubstitution(args[k].s, results, format);
    }
  }

  /** The booleans after are those before, and the strings "true" and "false" as what they say. */
  ghost predicate KeepsBooleans(before: map<string, Value>, after: map<string, Value>) {
    && after.Keys == before.Keys
    && forall k, b | k in before :: after[k] == Bool(b) <==> before[k] in [Bool(b), Str(if b then "true" else "false")]
  }

  lemma CoercionKeepsBooleans(args: map<string, Value>)
    ensures KeepsBooleans(args, CoerceAll(args))
  {
    forall k, b | k in args ensures Coerce(args[k]) == Bool(b) <==> args[k] in [Bool(b), Str(if b then "true" else "false")] {
      CoercionReadsSpelling(args[k]);
    }
  }

  lemma PreparationKeepsBooleans(args: map<string, Value>, results: map<string, Value>, format: Format)
    requires Resolvable(CoerceAll(args), results, format)
    ensures KeepsBooleans(args, ResolveAll(CoerceAll(args), results, format))
  {
    var coerced := CoerceAll(args);
    CoercionKeepsBooleans(args);
    forall k, b | k in coerced ensures ResolveAll(coerced, results, format)[k] == Bool(b) <==> coerced[k] == Bool(b) {
      assert ResolveValue(coerced[k], results, format).Success?;
      if coerced[k].Str? {
        ResolutionTheorems.ResolveYieldsStrings(coerced[k].s, results, format);
      }
    }
  }

  /** Every step that a string argument names. */
  predicate DependsOn(args: map<string, Value>, known: map<string, bool>, step: string) {
    exists k | k in args :: args[k].Str? && step in ResolutionTheorems.Referenced(ResolutionTheorems.Parse(args[k].s), known)
  }

  /** Preparation reads nothing but the results of the steps its arguments reference. */
  lemma PreparationDependsOnReferences(args: map<string, Value>, r1: map<string, Value>, r2: map<string, Value>, format: Format)
    requires r1.Keys == r2.Keys
    requires forall step | step in r1 && DependsOn(CoerceAll(args), ResolutionTheorems.AllKnown(r1), step) :: r1[step] == r2[step]
    ensures Resolvable(CoerceAll(args), r1, format) <==> Resolvable(CoerceAll(args), r2, format)
    ensures Resolvable(CoerceAll(args), r1, format) ==>
      ResolveAll(CoerceAll(args), r1, format) == ResolveAll(CoerceAll(args), r2, format)
  {
    var coerced := CoerceAll(args);
    forall k | k in coerced ensures ResolveValue(coerced[k], r1, format) == ResolveValue(coerced[k], r2, format) {
      if coerced[k].Str? {
        ResolutionTheorems.DependenciesSuffice(coerced[k].s, r1, r2, format);
      }
    }
  }

  // ---------------------------------------------------------------------------------------
  // Steps as mutable objects
  // ---------------------------------------------------------------------------------------

  /** A Go map of arguments, shared by reference. */
  class Arguments {
    var entries: map<string, Value>

    constructor (entries: map<string, Value>)
      ensures this.entries == entries
    {
      this.entries := entries;
    }

    /** Visits the keys in any order, overwriting values as it goes. */
    method CoerceStringNumbers() returns (coerced: nat)
      modifies this
      ensures entries == CoerceAll(old(entries))
      ensures coerced == |set k | k in old(entries) && entries[k] != old(entries)[k]|
      ensures coerced == |Coercible(old(entries))|
      ensures KeepsBooleans(old(entries), entries)
    {
      ghost var before := entries;
      coerced := 0;
      var todo := entries.Keys;
      ghost var changed: set<string> := {};
      while todo != {}
        invariant entries.Keys == before.Keys && todo <= before.Keys && changed <= before.Keys - todo
        invariant forall k | k in todo :: entries[k] == before[k]
        invariant forall k | k in before.Keys - todo ::
          entries[k] == Coerce(before[k]) && (k in changed <==> entries[k] != before[k])
        invariant coerced == |changed|
      {
        var key :| key in todo;
        todo := todo - {key};
        var v, ok := CoerceValue(entries[key]);
        if ok {
          entries := entries[key := v];
          coerced := coerced + 1;
          changed := changed + {key};
        }
      }
      assert entries == CoerceAll(before);
      assert changed == Coercible(before);
      assert changed == set k | k in before && entries[k] != before[k];
      CoercionKeepsBooleans(before);
    }
  }

  method CoerceValue(v: Value) returns (c: Value, ok: bool)
    ensures c == Coerce(v) && (ok <==> c != v)
  {
    if !v.Str? {
      return v, false;
    }
    var n, isInt := Decimals.TryParseInt(v.s);
    if isInt {
      return Int(n), true;
    }
    var r, isFloat := Decimals.TryParseFloat(v.s);
    if isFloat {
      return Float(r), true;
    }
    if v.s == "true" || v.s == "false" {
      return Bool(v.s == "true"), true;
    }
    c, ok := v, false;
  }

  /** The scalar fields of a step. */
  datatype StepInfo = StepInfo(name: string, typ: string, stepId: string, timeout: int, parallelizable: bool,
                               parallelGroup: string, riskLevel: string)

  datatype ArgumentError = ArgumentError(key: string, cause: Outcome)

  class ExecutionStep {
    var info: StepInfo
    var arguments: Arguments?

    constructor (info: StepInfo, arguments: Arguments?)
      ensures this.info == info && this.arguments == arguments
    {
      this.info, this.arguments := info, arguments;
    }

    /** The arguments as a value; a nil map has none. */
    ghost function Args(): map<string, Value>
      reads this, arguments
    {
      if arguments == null then map[] else arguments.entries
    }

    method Clone() returns (c: ExecutionStep)
      ensures fresh(c) && c.info == info && c.Args() == Args()
      ensures c.arguments == null <==> arguments == null
      ensures c.arguments != null ==> fresh(c.arguments)
    {
      var copy: Arguments? := null;
      if arguments != null {
        copy := new Arguments(map[]);
        var todo := arguments.entries.Keys;
        while todo != {}
          invariant fresh(copy) && todo <= arguments.entries.Keys
          invariant copy.entries.Keys == arguments.entries.Keys - todo
          invariant forall k | k in copy.entries :: copy.entries[k] == arguments.entries[k]
        {
          var key :| key in todo;
          todo := todo - {key};
          copy.entries := copy.entries[key := arguments.entries[key]];
        }
      }
      c := new ExecutionStep(info, copy);
    }

    /** Fails on the first unresolvable argument met, in whatever order the map is visited; the
        arguments met before it have then been replaced already. */
    method ResolveArguments(results: map<string, Value>, format: Format) returns (err: Option<ArgumentError>)
      modifies arguments
      ensures err.None? <==> Resolvable(old(Args()), results, format)
      ensures err.None? ==> Args() == ResolveAll(old(Args()), results, format)
      ensures match err
              case None => true
              case Some(e) => e.key in old(Args()) && e.cause == ResolveValue(old(Args())[e.key], results, format) && !e.cause.Success?
    {
      ghost var before := Args();
      if arguments == null || |results| == 0 {
        assert results == map[] ==> forall k | k in before :: ResolveValue(before[k], results, format) == Success(before[k]);
        return None;
      }
      var todo := arguments.entries.Keys;
      while todo != {}
        invariant todo <= before.Keys && arguments.entries.Keys == before.Keys
        invariant forall k | k in todo :: arguments.entries[k] == before[k]
        invariant forall k | k in before.Keys - todo ::
          ResolveValue(before[k], results, format) == Success(arguments.entries[k])
      {
        var key :| key in todo;
        todo := todo - {key};
        var val := arguments.entries[key];
        if val.Str? {
          ghost var used;
          var resolved;
          resolved, used := ResolveTemplate(val.s, results, format);
          if !resolved.Success? {
            return Some(ArgumentError(key, resolved));
          }
          arguments.entries := arguments.entries[key := resolved.value];
        }
      }
      err := None;
    }

    /** Without a `modifies` clause: neither the frozen step nor its arguments change, whether or not
        preparation succeeds. */
    method Prepare(results: map<string, Value>, format: Format) returns (clone: ExecutionStep, err: Option<ArgumentError>)
      ensures err.None? <==> Resolvable(CoerceAll(Args()), results, format)
      ensures err.None? ==>
        && fresh(clone) && clone.info == info
        && (clone.arguments == null <==> arguments == null)
        && (clone.arguments != null ==> fresh(clone.arguments))
        && clone.Args() == ResolveAll(CoerceAll(Args()), results, format)
        && KeepsBooleans(Args(), clone.Args())
      ensures match err
              case None => true
              case Some(e) => e.key in Args() && e.cause == ResolveValue(Coerce(Args()[e.key]), results, format) && !e.cause.Success?
    {
      clone := Clone();
      if clone.arguments != null {
        var _ := clone.arguments.CoerceStringNumbers();
      }
      assert clone.Args() == CoerceAll(Args());
      err := clone.ResolveArguments(results, format);
      if err.None? {
        PreparationKeepsBooleans(Args(), results, format);
      }
    }
  }
}
