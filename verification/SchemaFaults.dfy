/** What a rejection means, keyword by keyword: validation/schema.go. */
module SchemaFaults {
  import opened Values
  import opened Schemas
  import Decimals

  /** A value of the named type; an integer is a number that some int64 equals. */
  ghost predicate HasType(d: Value, typ: string) {
    || (typ == "object" && d.Dict?)
    || (typ == "array" && d.List?)
    || (typ == "string" && d.Str?)
    || (typ == "number" && d.Float?)
    || (typ == "boolean" && d.Bool?)
    || (typ == "integer" && exists n :: Decimals.IsInt64(n) && d == Float(n as real))
  }

  lemma TypeIsNamed(d: Value, typ: string)
    ensures TypeOk(d, typ) <==> typ == "" || HasType(d, typ)
  {
    if d.Float? && IsInteger(d.r) {
      assert Decimals.IsInt64(d.r.Floor) && d == Float(d.r.Floor as real);
    }
  }

  /** The positions of the sub-schemas that accept `d`. */
  ghost function Accepting(lib: Lib, strict: bool, d: Value, subs: seq<Schema>): set<int> {
    set i | 0 <= i < |subs| && Sat(lib, strict, d, subs[i])
  }

  /** The keyword that `r` is about is one that `d` itself breaks. */
  ghost predicate Breaks(lib: Lib, strict: bool, d: Value, s: Schema, r: Reason)
    requires s.Schema?
  {
    var keyed := d.Dict? && (s.typ == "object" || (s.typ == "" && s.properties != NilMap));
    var text, number := d.Str? && s.typ == "string", d.Float? && (s.typ == "number" || s.typ == "integer");
    match r
    case WrongType => s.typ != "" && !HasType(d, s.typ)
    case NotInEnum => s.enum != [] && forall i | 0 <= i < |s.enum| :: !lib.jsonEqual(d, s.enum[i])
    case NotConst => s.constant != None && !lib.jsonEqual(d, s.constant.value)
    case TooShort => text && s.minLength != None && |d.s| < s.minLength.value
    case TooLong => text && s.maxLength != None && |d.s| > s.maxLength.value
    case BadPattern => text && s.pattern != "" && !lib.compiles(s.pattern)
    case NoPatternMatch => text && s.pattern != "" && lib.compiles(s.pattern) && !lib.matches(s.pattern, d.s)
    case BelowMinimum => number && s.minimum != None && d.r < s.minimum.value
    case AboveMaximum => number && s.maximum != None && d.r > s.maximum.value
    case MissingField(k) => keyed && k in s.required && k !in d.fields
    case UnknownProperty(k) =>
      && keyed && (strict || s.additionalProperties == Some(false))
      && s.properties != NilMap && s.properties.table != map[] && k in d.fields && k !in s.properties.table
    case NoAnyOf => s.anyOf != [] && forall i | 0 <= i < |s.anyOf| :: !Sat(lib, strict, d, s.anyOf[i])
    case NotOneOf(n) => s.oneOf != [] && n != 1 && n == |Accepting(lib, strict, d, s.oneOf)|
    case AllOfFails => exists i | 0 <= i < |s.allOf| :: !Sat(lib, strict, d, s.allOf[i])
    case ThenFails => s.ifSchema != NoSchema && Sat(lib, strict, d, s.ifSchema) && !Sat(lib, strict, d, s.thenSchema)
    case ElseFails => s.ifSchema != NoSchema && !Sat(lib, strict, d, s.ifSchema) && !Sat(lib, strict, d, s.elseSchema)
  }

  /** An element or a declared property of `d` fails the sub-schema that governs it. */
  ghost predicate FailingPart(lib: Lib, strict: bool, d: Value, s: Schema)
    requires s.Schema?
  {
    || (d.List? && s.typ == "array" &&
          exists i | 0 <= i < |d.items| :: !Sat(lib, strict, d.items[i], if i < |s.prefixItems| then s.prefixItems[i] else s.items))
    || (d.Dict? && s.properties != NilMap && (s.typ == "object" || s.typ == "") &&
          exists k | k in d.fields :: k in s.properties.table && !Sat(lib, strict, d.fields[k], s.properties.table[k]))
  }

  /** The verdicts that hold, counted, are as many as their positions. */
  lemma {:induction false} CountIsCardinality(bs: seq<bool>)
    ensures CountTrue(bs) == |set i | 0 <= i < |bs| && bs[i]|
  {
    var here := set i | 0 <= i < |bs| && bs[i];
    if bs == [] {
      assert here == {};
    } else {
      var n, init := |bs| - 1, bs[..|bs| - 1];
      CountIsCardinality(init);
      var before := set i | 0 <= i < |init| && init[i];
      assert here == if bs[n] then before + {n} else before;
    }
  }

  lemma VerdictsCounted(lib: Lib, strict: bool, d: Value, s: Schema)
    requires s.Schema?
    ensures CountTrue(Verdicts(lib, strict, d, s.oneOf)) == |Accepting(lib, strict, d, s.oneOf)|
  {
    var bs := Verdicts(lib, strict, d, s.oneOf);
    CountIsCardinality(bs);
    assert (set i | 0 <= i < |bs| && bs[i]) == Accepting(lib, strict, d, s.oneOf);
  }

  /** A value is rejected iff it breaks a keyword itself or one of its parts is rejected. */
  lemma RejectedIff(lib: Lib, strict: bool, d: Value, s: Schema)
    requires s.Schema?
    ensures !Sat(lib, strict, d, s) <==> FailingPart(lib, strict, d, s) || exists r :: Breaks(lib, strict, d, s, r)
  {
    BasicsRejected(lib, strict, d, s);
    ShapeRejected(lib, strict, d, s);
    CompositionRejected(lib, strict, d, s);
    if Sat(lib, strict, d, s) {
      forall r ensures !Breaks(lib, strict, d, s, r) {
        assert IsBasic(r) || IsShape(r) || IsComposition(r);
      }
    }
  }

  predicate IsBasic(r: Reason) { r.WrongType? || r.NotInEnum? || r.NotConst? }

  predicate IsComposition(r: Reason) { r.NoAnyOf? || r.NotOneOf? || r.AllOfFails? || r.ThenFails? || r.ElseFails? }

  predicate IsShape(r: Reason) { !IsBasic(r) && !IsComposition(r) }

  lemma BasicsRejected(lib: Lib, strict: bool, d: Value, s: Schema)
    requires s.Schema?
    ensures !TypeOk(d, s.typ) <==> Breaks(lib, strict, d, s, WrongType)
    ensures !EnumOk(lib, d, s.enum) <==> Breaks(lib, strict, d, s, NotInEnum)
    ensures !ConstOk(lib, d, s.constant) <==> Breaks(lib, strict, d, s, NotConst)
    ensures !BasicsOk(lib, d, s) <==> exists r :: IsBasic(r) && Breaks(lib, strict, d, s, r)
  {
    TypeIsNamed(d, s.typ);
    if v :| v in s.enum && lib.jsonEqual(d, v) {
      var i :| 0 <= i < |s.enum| && s.enum[i] == v;
    }
    assert IsBasic(WrongType) && IsBasic(NotInEnum) && IsBasic(NotConst);
  }

  lemma ShapeRejected(lib: Lib, strict: bool, d: Value, s: Schema)
    requires s.Schema?
    ensures !ShapeOk(lib, strict, d, s) <==>
      FailingPart(lib, strict, d, s) || exists r :: IsShape(r) && Breaks(lib, strict, d, s, r)
  {
    match d
    case Str(x) => TextRejected(lib, strict, d, s);
    case Float(r) => NumberRejected(lib, strict, d, s);
    case List(elems) => ElementsRejected(lib, strict, d, s);
    case Dict(fields) => ObjectRejected(lib, strict, d, s);
    case _ =>
  }

  lemma TextRejected(lib: Lib, strict: bool, d: Value, s: Schema)
    requires s.Schema? && d.Str?
    ensures !ShapeOk(lib, strict, d, s) <==> exists r :: IsShape(r) && Breaks(lib, strict, d, s, r)
  {
    if !ShapeOk(lib, strict, d, s) {
      assert Breaks(lib, strict, d, s, StringFault(lib, d.s, s));
    }
  }

  lemma NumberRejected(lib: Lib, strict: bool, d: Value, s: Schema)
    requires s.Schema? && d.Float?
    ensures !ShapeOk(lib, strict, d, s) <==> exists r :: IsShape(r) && Breaks(lib, strict, d, s, r)
  {
    if !ShapeOk(lib, strict, d, s) {
      assert Breaks(lib, strict, d, s, BelowMinimum) || Breaks(lib, strict, d, s, AboveMaximum);
    }
  }

  lemma ElementsRejected(lib: Lib, strict: bool, d: Value, s: Schema)
    requires s.Schema? && d.List?
    ensures !ShapeOk(lib, strict, d, s) <==> FailingPart(lib, strict, d, s)
    ensures forall r | IsShape(r) :: !Breaks(lib, strict, d, s, r)
  {
    forall i | 0 <= i < |d.items| ensures s.ItemSchema(i) == if i < |s.prefixItems| then s.prefixItems[i] else s.items {
    }
  }

  lemma ObjectRejected(lib: Lib, strict: bool, d: Value, s: Schema)
    requires s.Schema? && d.Dict?
    ensures !ShapeOk(lib, strict, d, s) <==>
      FailingPart(lib, strict, d, s) || exists r :: IsShape(r) && Breaks(lib, strict, d, s, r)
  {
    if s.ChecksObject() {
      if k :| k in s.required && k !in d.fields {
        assert Breaks(lib, strict, d, s, MissingField(k));
      }
      if RejectsUnknown(strict, s) && !(d.fields.Keys <= s.Table().Keys) {
        var k :| k in d.fields && k !in s.Table();
        assert Breaks(lib, strict, d, s, UnknownProperty(k));
      }
    }
  }

  lemma CompositionRejected(lib: Lib, strict: bool, d: Value, s: Schema)
    requires s.Schema?
    ensures !AnyOfOk(lib, strict, d, s) <==> Breaks(lib, strict, d, s, NoAnyOf)
    ensures !AllOfOk(lib, strict, d, s) <==> Breaks(lib, strict, d, s, AllOfFails)
    ensures !OneOfOk(lib, strict, d, s) <==> exists n :: Breaks(lib, strict, d, s, NotOneOf(n))
    ensures !ConditionOk(lib, strict, d, s) <==> Breaks(lib, strict, d, s, ThenFails) || Breaks(lib, strict, d, s, ElseFails)
  {
    OneOfRejected(lib, strict, d, s);
    AnyAllRejected(lib, strict, d, s);
    ConditionRejected(lib, strict, d, s);
  }

  lemma ConditionRejected(lib: Lib, strict: bool, d: Value, s: Schema)
    requires s.Schema?
    ensures !ConditionOk(lib, strict, d, s) <==> Breaks(lib, strict, d, s, ThenFails) || Breaks(lib, strict, d, s, ElseFails)
  {
  }

  lemma AnyAllRejected(lib: Lib, strict: bool, d: Value, s: Schema)
    requires s.Schema?
    ensures !AnyOfOk(lib, strict, d, s) <==> Breaks(lib, strict, d, s, NoAnyOf)
    ensures !AllOfOk(lib, strict, d, s) <==> Breaks(lib, strict, d, s, AllOfFails)
  {
  }

  lemma OneOfRejected(lib: Lib, strict: bool, d: Value, s: Schema)
    requires s.Schema?
    ensures var n := CountTrue(Verdicts(lib, strict, d, s.oneOf));
      && (!OneOfOk(lib, strict, d, s) <==> Breaks(lib, strict, d, s, NotOneOf(n)))
      && forall m | Breaks(lib, strict, d, s, NotOneOf(m)) :: m == n
  {
    VerdictsCounted(lib, strict, d, s);
    if s.oneOf != [] {
      ExactlyOneMatch(lib, strict, d, s);
    }
  }

  // ---------------------------------------------------------------------------------------
  // Which broken keyword is reported
  // ---------------------------------------------------------------------------------------

  /** The order in which the keywords are checked. Elements and properties are checked between required
      and unknown keys. */
  function Rank(r: Reason): nat {
    match r
    case WrongType => 0
    case NotInEnum => 1
    case NotConst => 2
    case TooShort => 3
    case TooLong => 4
    case BadPattern => 5
    case NoPatternMatch => 6
    case BelowMinimum => 7
    case AboveMaximum => 8
    case MissingField(_) => 9
    case UnknownProperty(_) => 11
    case NoAnyOf => 12
    case NotOneOf(_) => 13
    case AllOfFails => 14
    case ThenFails => 15
    case ElseFails => 15
  }

  /** `d` breaks the keyword that `r` is about and none that is checked before. */
  ghost predicate FirstBroken(lib: Lib, strict: bool, d: Value, s: Schema, r: Reason)
    requires s.Schema?
  {
    && Breaks(lib, strict, d, s, r)
    && (forall q | Breaks(lib, strict, d, s, q) :: Rank(r) <= Rank(q))
    && (Rank(r) > 10 ==> !FailingPart(lib, strict, d, s))
    && (r.MissingField? ==> FirstAbsent(s.required, d, r.key))
  }

  ghost predicate FirstAbsent(required: seq<string>, d: Value, key: string) {
    d.Dict? && exists i | 0 <= i < |required| ::
      required[i] == key && key !in d.fields && forall j | 0 <= j < i :: required[j] in d.fields
  }

  lemma BasicIsFirst(lib: Lib, strict: bool, d: Value, s: Schema, path: string, e: ValidationError)
    requires s.Schema? && !BasicsOk(lib, d, s) && Explains(lib, strict, d, s, path, e)
    ensures e.field == path && IsBasic(e.reason) && FirstBroken(lib, strict, d, s, e.reason)
  {
    BasicsRejected(lib, strict, d, s);
  }

  lemma NoBasicBroken(lib: Lib, strict: bool, d: Value, s: Schema, r: Reason)
    requires s.Schema? && BasicsOk(lib, d, s) && Breaks(lib, strict, d, s, r)
    ensures Rank(r) > 2
  {
    BasicsRejected(lib, strict, d, s);
    assert !IsBasic(r);
  }

  lemma ScalarIsFirst(lib: Lib, strict: bool, d: Value, s: Schema, path: string, e: ValidationError)
    requires s.Schema? && BasicsOk(lib, d, s) && !ShapeOk(lib, strict, d, s)
    requires (d.Str? || d.Float?) && ExplainsShape(lib, strict, d, s, path, e)
    ensures e.field == path && !e.reason.MissingField? && !e.reason.UnknownProperty? && FirstBroken(lib, strict, d, s, e.reason)
  {
    forall r | Breaks(lib, strict, d, s, r) ensures Rank(e.reason) <= Rank(r) {
      NoBasicBroken(lib, strict, d, s, r);
    }
  }

  lemma MissingIsFirst(lib: Lib, strict: bool, d: Value, s: Schema, path: string, e: ValidationError)
    requires s.Schema? && BasicsOk(lib, d, s) && d.Dict? && s.ChecksObject()
    requires ExplainsMissing(d.fields, s.required, path, e)
    ensures e.reason.MissingField? && e.field == DotPath(path, e.reason.key) && FirstBroken(lib, strict, d, s, e.reason)
  {
    forall r | Breaks(lib, strict, d, s, r) ensures Rank(e.reason) <= Rank(r) {
      NoBasicBroken(lib, strict, d, s, r);
    }
  }

  lemma UnknownIsFirst(lib: Lib, strict: bool, d: Value, s: Schema, e: ValidationError)
    requires s.Schema? && BasicsOk(lib, d, s) && d.Dict? && s.ChecksObject() && RequiredOk(d.fields, s)
    requires forall k | k in s.Table() :: k in d.fields ==> Sat(lib, strict, d.fields[k], s.Table()[k])
    requires RejectsUnknown(strict, s) && e.reason.UnknownProperty? && e.reason.name in d.fields.Keys - s.Table().Keys
    ensures FirstBroken(lib, strict, d, s, e.reason)
  {
    forall r | Breaks(lib, strict, d, s, r) ensures Rank(e.reason) <= Rank(r) {
      NoBasicBroken(lib, strict, d, s, r);
    }
  }

  lemma NoShapeBroken(lib: Lib, strict: bool, d: Value, s: Schema)
    requires s.Schema? && BasicsOk(lib, d, s) && ShapeOk(lib, strict, d, s)
    ensures !FailingPart(lib, strict, d, s)
    ensures forall r | Breaks(lib, strict, d, s, r) :: IsComposition(r)
  {
    ShapeRejected(lib, strict, d, s);
    forall r | Breaks(lib, strict, d, s, r) ensures IsComposition(r) {
      NoBasicBroken(lib, strict, d, s, r);
      assert !IsShape(r);
    }
  }

  lemma CompositionIsFirst(lib: Lib, strict: bool, d: Value, s: Schema, path: string, e: ValidationError)
    requires s.Schema? && BasicsOk(lib, d, s) && ShapeOk(lib, strict, d, s) && Explains(lib, strict, d, s, path, e)
    ensures e.field == path && IsComposition(e.reason) && FirstBroken(lib, strict, d, s, e.reason)
  {
    NoShapeBroken(lib, strict, d, s);
    FirstOfComposition(lib, strict, d, s, path, e);
    forall r | Breaks(lib, strict, d, s, r) ensures Rank(e.reason) <= Rank(r) {
      LaterRank(lib, strict, d, s, r);
    }
  }

  /** A composition keyword that is broken comes no earlier than the checks that pass. */
  lemma LaterRank(lib: Lib, strict: bool, d: Value, s: Schema, r: Reason)
    requires s.Schema? && IsComposition(r) && Breaks(lib, strict, d, s, r)
    ensures 12 <= Rank(r) <= 15
    ensures AnyOfOk(lib, strict, d, s) ==> Rank(r) > 12
    ensures AnyOfOk(lib, strict, d, s) && OneOfOk(lib, strict, d, s) ==> Rank(r) > 13
    ensures AnyOfOk(lib, strict, d, s) && OneOfOk(lib, strict, d, s) && AllOfOk(lib, strict, d, s) ==> Rank(r) > 14
  {
    CompositionRejected(lib, strict, d, s);
  }

  lemma FirstOfComposition(lib: Lib, strict: bool, d: Value, s: Schema, path: string, e: ValidationError)
    requires s.Schema? && BasicsOk(lib, d, s) && ShapeOk(lib, strict, d, s) && Explains(lib, strict, d, s, path, e)
    ensures e.field == path && IsComposition(e.reason) && Breaks(lib, strict, d, s, e.reason)
    ensures Rank(e.reason) > 12 ==> AnyOfOk(lib, strict, d, s)
    ensures Rank(e.reason) > 13 ==> OneOfOk(lib, strict, d, s)
    ensures Rank(e.reason) > 14 ==> AllOfOk(lib, strict, d, s)
  {
    if AnyOfOk(lib, strict, d, s) && !OneOfOk(lib, strict, d, s) {
      OneOfRejected(lib, strict, d, s);
    }
  }

  /** When the error comes from a part of `d`, no keyword that is checked before the parts is broken. */
  lemma PartsAreReached(lib: Lib, strict: bool, d: Value, s: Schema, r: Reason)
    requires s.Schema? && BasicsOk(lib, d, s) && (d.List? || (d.Dict? && RequiredOk(d.fields, s)))
    requires Breaks(lib, strict, d, s, r)
    ensures Rank(r) > 10
  {
    NoBasicBroken(lib, strict, d, s, r);
  }

  /** A value that is not of the declared type is reported as such, whatever else is wrong with it. */
  lemma WrongTypeIsReported(lib: Lib, strict: bool, d: Value, s: Schema, path: string, err: Option<ValidationError>)
    requires s.Schema? && s.typ != "" && Verdict(lib, strict, d, s, path, err)
    ensures !HasType(d, s.typ) ==> err == Some(ValidationError(path, WrongType))
    ensures err.None? ==> HasType(d, s.typ)
  {
    TypeIsNamed(d, s.typ);
  }
}
