/** The JSON-Schema validator of validation/schema.go. */
module Schemas {
  import opened Values
  import Decimals

  /** Go distinguishes a nil `Properties` map from an empty one. */
  datatype PropertyMap = NilMap | Entries(table: map<string, Schema>)

  /** A `*JSONSchema`; `NoSchema` is the nil pointer. */
  datatype Schema = NoSchema | Schema(
    typ: string,
    properties: PropertyMap,
    required: seq<string>,
    minLength: Option<int>,
    maxLength: Option<int>,
    pattern: string,
    minimum: Option<real>,
    maximum: Option<real>,
    enum: seq<Value>,
    constant: Option<Value>,
    items: Schema,
    prefixItems: seq<Schema>,
    additionalProperties: Option<bool>,
    anyOf: seq<Schema>,
    oneOf: seq<Schema>,
    allOf: seq<Schema>,
    ifSchema: Schema,
    thenSchema: Schema,
    elseSchema: Schema)
  {
    function Table(): map<string, Schema> requires Schema? {
      if properties.Entries? then properties.table else map[]
    }

    /** The sub-schema that governs array element `i`. */
    function ItemSchema(i: nat): Schema requires Schema? {
      if i < |prefixItems| then prefixItems[i] else items
    }

    predicate ChecksObject() requires Schema? {
      typ == "object" || (typ == "" && properties.Entries?)
    }
  }

  /** The library functions the validator calls; every theorem holds for every choice of them. */
  datatype Lib = Lib(
    jsonEqual: (Value, Value) -> bool,
    compiles: string -> bool,
    matches: (string, string) -> bool)

  datatype Reason =
    | WrongType
    | NotInEnum
    | NotConst
    | TooShort
    | TooLong
    | BadPattern
    | NoPatternMatch
    | BelowMinimum
    | AboveMaximum
    | MissingField(key: string)
    | UnknownProperty(name: string)
    | NoAnyOf
    | NotOneOf(count: nat)
    | AllOfFails
    | ThenFails
    | ElseFails

  datatype ValidationError = ValidationError(field: string, reason: Reason)

  function DotPath(parent: string, child: string): string {
    if parent == "" then child else parent + "." + child
  }

  function ItemPath(path: string, i: nat): string {
    path + "[" + Decimals.Print(i) + "]"
  }

  // ---------------------------------------------------------------------------------------
  // The declarative meaning of a schema
  // ---------------------------------------------------------------------------------------

  /** A float64 is an integer when it survives the round trip through int64. */
  predicate IsInteger(r: real) {
    r == r.Floor as real && -0x8000_0000_0000_0000 <= r.Floor < 0x8000_0000_0000_0000
  }

  predicate TypeOk(d: Value, typ: string) {
    match typ
    case "" => true
    case "object" => d.Dict?
    case "array" => d.List?
    case "string" => d.Str?
    case "number" => d.Float?
    case "boolean" => d.Bool?
    case "integer" => d.Float? && IsInteger(d.r)
    case _ => false
  }

  predicate EnumOk(lib: Lib, d: Value, enum: seq<Value>) {
    enum == [] || exists v | v in enum :: lib.jsonEqual(d, v)
  }

  predicate ConstOk(lib: Lib, d: Value, c: Option<Value>) {
    c.Some? ==> lib.jsonEqual(d, c.value)
  }

  predicate LengthOk(x: string, s: Schema) requires s.Schema? {
    (s.minLength.Some? ==> s.minLength.value <= |x|) && (s.maxLength.Some? ==> |x| <= s.maxLength.value)
  }

  predicate PatternOk(lib: Lib, x: string, s: Schema) requires s.Schema? {
    s.pattern != "" ==> lib.compiles(s.pattern) && lib.matches(s.pattern, x)
  }

  predicate RangeOk(r: real, s: Schema) requires s.Schema? {
    (s.minimum.Some? ==> s.minimum.value <= r) && (s.maximum.Some? ==> r <= s.maximum.value)
  }

  predicate RequiredOk(fields: map<string, Value>, s: Schema) requires s.Schema? {
    forall k | k in s.required :: k in fields
  }

  /** Unknown keys are rejected only by a schema that declares at least one property. */
  predicate RejectsUnknown(strict: bool, s: Schema) requires s.Schema? {
    (strict || s.additionalProperties == Some(false)) && s.Table() != map[]
  }

  /** The constraints that `s` puts on `d` itself, before any sub-schema. */
  predicate BasicsOk(lib: Lib, d: Value, s: Schema) requires s.Schema? {
    TypeOk(d, s.typ) && EnumOk(lib, d, s.enum) && ConstOk(lib, d, s.constant)
  }

  /** The constraints reserved for the declared type. */
  predicate ShapeOk(lib: Lib, strict: bool, d: Value, s: Schema)
    requires s.Schema?
    decreases s, 0
  {
    match d
    case Str(x) => s.typ == "string" ==> LengthOk(x, s) && PatternOk(lib, x, s)
    case Float(r) => s.typ == "number" || s.typ == "integer" ==> RangeOk(r, s)
    case List(elems) => s.typ == "array" ==>
      forall i: nat | i < |elems| :: Sat(lib, strict, elems[i], s.ItemSchema(i))
    case Dict(fields) => s.ChecksObject() ==>
      && RequiredOk(fields, s)
      && (forall k | k in s.Table() :: k in fields ==> Sat(lib, strict, fields[k], s.Table()[k]))
      && (RejectsUnknown(strict, s) ==> fields.Keys <= s.Table().Keys)
    case _ => true
  }

  predicate AnyOfOk(lib: Lib, strict: bool, d: Value, s: Schema)
    requires s.Schema?
    decreases s, 0
  {
    s.anyOf == [] || exists i | 0 <= i < |s.anyOf| :: Sat(lib, strict, d, s.anyOf[i])
  }

  /** `d` satisfies the `i`-th alternative of `oneOf` and no other. */
  predicate OnlyMatch(lib: Lib, strict: bool, d: Value, s: Schema, i: int)
    requires s.Schema? && 0 <= i < |s.oneOf|
    decreases s, 0
  {
    Sat(lib, strict, d, s.oneOf[i]) && forall j | 0 <= j < |s.oneOf| && j != i :: !Sat(lib, strict, d, s.oneOf[j])
  }

  predicate OneOfOk(lib: Lib, strict: bool, d: Value, s: Schema)
    requires s.Schema?
    decreases s, 1
  {
    s.oneOf == [] || exists i | 0 <= i < |s.oneOf| :: OnlyMatch(lib, strict, d, s, i)
  }

  predicate AllOfOk(lib: Lib, strict: bool, d: Value, s: Schema)
    requires s.Schema?
    decreases s, 0
  {
    forall i | 0 <= i < |s.allOf| :: Sat(lib, strict, d, s.allOf[i])
  }

  predicate ConditionOk(lib: Lib, strict: bool, d: Value, s: Schema)
    requires s.Schema?
    decreases s, 0
  {
    s.ifSchema.Schema? ==>
      if Sat(lib, strict, d, s.ifSchema)
      then Sat(lib, strict, d, s.thenSchema)
      else Sat(lib, strict, d, s.elseSchema)
  }

  /** `d` satisfies `s`; `strict` selects the strict dialect. */
  predicate Sat(lib: Lib, strict: bool, d: Value, s: Schema)
    decreases s, 2
  {
    s.Schema? ==>
      && BasicsOk(lib, d, s)
      && ShapeOk(lib, strict, d, s)
      && AnyOfOk(lib, strict, d, s)
      && OneOfOk(lib, strict, d, s)
      && AllOfOk(lib, strict, d, s)
      && ConditionOk(lib, strict, d, s)
  }

  // ---------------------------------------------------------------------------------------
  // Which error a failing validation may report
  // ---------------------------------------------------------------------------------------

  /** Which of `subs` accept `d`. */
  ghost function Verdicts(lib: Lib, strict: bool, d: Value, subs: seq<Schema>): seq<bool> {
    seq(|subs|, i requires 0 <= i < |subs| => Sat(lib, strict, d, subs[i]))
  }

  ghost function CountTrue(bs: seq<bool>): nat {
    if bs == [] then 0 else CountTrue(bs[..|bs| - 1]) + if bs[|bs| - 1] then 1 else 0
  }

  /** `e` is an error the validator may report for `d` against `s` at `path`: it belongs to the
      first check, in the order of the code, that `d` fails. */
  ghost predicate Explains(lib: Lib, strict: bool, d: Value, s: Schema, path: string, e: ValidationError)
    decreases s, 1
  {
    s.Schema? &&
    if !TypeOk(d, s.typ) then e == ValidationError(path, WrongType)
    else if !EnumOk(lib, d, s.enum) then e == ValidationError(path, NotInEnum)
    else if !ConstOk(lib, d, s.constant) then e == ValidationError(path, NotConst)
    else if !ShapeOk(lib, strict, d, s) then ExplainsShape(lib, strict, d, s, path, e)
    else if !AnyOfOk(lib, strict, d, s) then e == ValidationError(path, NoAnyOf)
    else if !OneOfOk(lib, strict, d, s) then
      e == ValidationError(path, NotOneOf(CountTrue(Verdicts(lib, strict, d, s.oneOf))))
    else if !AllOfOk(lib, strict, d, s) then e == ValidationError(path, AllOfFails)
    else
      && !ConditionOk(lib, strict, d, s)
      && e == ValidationError(path, if Sat(lib, strict, d, s.ifSchema) then ThenFails else ElseFails)
  }

  ghost predicate ExplainsShape(lib: Lib, strict: bool, d: Value, s: Schema, path: string, e: ValidationError)
    requires s.Schema?
    decreases s, 0
  {
    match d
    case Str(x) => e == ValidationError(path, StringFault(lib, x, s))
    case Float(r) => e == ValidationError(path, if s.minimum.Some? && r < s.minimum.value then BelowMinimum else AboveMaximum)
    case List(elems) =>
      exists i: nat | i < |elems| ::
        && (forall j: nat | j < i :: Sat(lib, strict, elems[j], s.ItemSchema(j)))
        && !Sat(lib, strict, elems[i], s.ItemSchema(i))
        && Explains(lib, strict, elems[i], s.ItemSchema(i), ItemPath(path, i), e)
    case Dict(fields) =>
      if !RequiredOk(fields, s) then ExplainsMissing(fields, s.required, path, e)
      else
        || (exists k | k in s.Table() ::
              && k in fields
              && !Sat(lib, strict, fields[k], s.Table()[k])
              && Explains(lib, strict, fields[k], s.Table()[k], DotPath(path, k), e))
        || (&& (forall k | k in s.Table() :: k in fields ==> Sat(lib, strict, fields[k], s.Table()[k]))
            && RejectsUnknown(strict, s)
            && e.reason.UnknownProperty?
            && e.reason.name in fields.Keys - s.Table().Keys
            && e.field == DotPath(path, e.reason.name))
    case _ => false
  }

  function StringFault(lib: Lib, x: string, s: Schema): Reason requires s.Schema? {
    if s.minLength.Some? && |x| < s.minLength.value then TooShort
    else if s.maxLength.Some? && |x| > s.maxLength.value then TooLong
    else if !lib.compiles(s.pattern) then BadPattern
    else NoPatternMatch
  }

  /** The reported key is the first of `required` that is absent. */
  ghost predicate ExplainsMissing(fields: map<string, Value>, required: seq<string>, path: string, e: ValidationError) {
    exists i: nat | i < |required| ::
      && required[i] !in fields
      && (forall j: nat | j < i :: required[j] in fields)
      && e == ValidationError(DotPath(path, required[i]), MissingField(required[i]))
  }

  /** What a validator promises: it accepts exactly what the schema describes, and its error
      explains a rejection. */
  ghost predicate Verdict(lib: Lib, strict: bool, d: Value, s: Schema, path: string, err: Option<ValidationError>) {
    match err
    case None => Sat(lib, strict, d, s)
    case Some(e) => !Sat(lib, strict, d, s) && Explains(lib, strict, d, s, path, e)
  }

  // ---------------------------------------------------------------------------------------
  // The validators
  // ---------------------------------------------------------------------------------------

  method ValidateValue(lib: Lib, data: Value, schema: Schema, path: string) returns (err: Option<ValidationError>)
    ensures Verdict(lib, false, data, schema, path, err)
    decreases schema, 3
  {
    if schema.NoSchema? {
      return None;
    }
    err := ValidateBasics(lib, data, schema, path);
    if err.Some? { return; }
    err := ValidateShape(lib, data, schema, path);
    if err.Some? { return; }
    err := ValidateComposition(lib, false, data, schema, path);
    if err.Some? { return; }
    if schema.ifSchema.Schema? {
      err := ValidateConditional(lib, false, data, schema, path);
    }
  }

  method ValidateValueStrict(lib: Lib, data: Value, schema: Schema, path: string) returns (err: Option<ValidationError>)
    ensures Verdict(lib, true, data, schema, path, err)
    decreases schema, 3
  {
    if schema.NoSchema? {
      return None;
    }
    err := ValidateBasics(lib, data, schema, path);
    if err.Some? { return; }
    err := ValidateShapeStrict(lib, data, schema, path);
    if err.Some? { return; }
    err := ValidateComposition(lib, true, data, schema, path);
    if err.Some? { return; }
    if schema.ifSchema.Schema? {
      err := ValidateConditional(lib, true, data, schema, path);
    }
  }

  /** The checks common to every type: `type`, `enum` and `const`. */
  method ValidateBasics(lib: Lib, data: Value, schema: Schema, path: string) returns (err: Option<ValidationError>)
    requires schema.Schema?
    ensures err == if !TypeOk(data, schema.typ) then Some(ValidationError(path, WrongType))
                   else if !EnumOk(lib, data, schema.enum) then Some(ValidationError(path, NotInEnum))
                   else if !ConstOk(lib, data, schema.constant) then Some(ValidationError(path, NotConst))
                   else None
  {
    if schema.typ != "" {
      err := ValidateType(data, schema.typ, path);
      if err.Some? { return; }
    }
    if |schema.enum| > 0 {
      err := ValidateEnum(lib, data, schema.enum, path);
      if err.Some? { return; }
    }
    if schema.constant.Some? && !lib.jsonEqual(data, schema.constant.value) {
      return Some(ValidationError(path, NotConst));
    }
    err := None;
  }

  /** The switch on the declared type. */
  method ValidateShape(lib: Lib, data: Value, schema: Schema, path: string) returns (err: Option<ValidationError>)
    requires schema.Schema? && TypeOk(data, schema.typ)
    ensures err.None? ==> ShapeOk(lib, false, data, schema)
    ensures err.Some? ==> !ShapeOk(lib, false, data, schema) && ExplainsShape(lib, false, data, schema, path, err.value)
    decreases schema, 2
  {
    if schema.typ == "string" {
      err := ValidateString(lib, false, data, schema, path);
    } else if schema.typ == "number" || schema.typ == "integer" {
      err := ValidateNumber(lib, false, data, schema, path);
    } else if schema.typ == "array" {
      err := ValidateArray(lib, data, schema, path);
    } else if schema.ChecksObject() {
      err := ValidateObject(lib, false, data, schema, path);
    } else {
      err := None;
    }
  }

  /** The switch on the declared type, strict mode. */
  method ValidateShapeStrict(lib: Lib, data: Value, schema: Schema, path: string) returns (err: Option<ValidationError>)
    requires schema.Schema? && TypeOk(data, schema.typ)
    ensures err.None? ==> ShapeOk(lib, true, data, schema)
    ensures err.Some? ==> !ShapeOk(lib, true, data, schema) && ExplainsShape(lib, true, data, schema, path, err.value)
    decreases schema, 2
  {
    if schema.typ == "string" {
      err := ValidateString(lib, true, data, schema, path);
    } else if schema.typ == "number" || schema.typ == "integer" {
      err := ValidateNumber(lib, true, data, schema, path);
    } else if schema.typ == "array" {
      err := ValidateArrayStrict(lib, data, schema, path);
    } else if schema.ChecksObject() {
      err := ValidateObject(lib, true, data, schema, path);
    } else {
      err := None;
    }
  }

  /** The function value `validate` that the shared helpers pick by mode. */
  method Validate(lib: Lib, strict: bool, data: Value, schema: Schema, path: string) returns (err: Option<ValidationError>)
    ensures Verdict(lib, strict, data, schema, path, err)
    decreases schema, 4
  {
    if strict {
      err := ValidateValueStrict(lib, data, schema, path);
    } else {
      err := ValidateValue(lib, data, schema, path);
    }
  }

  method ValidateType(data: Value, expected: string, path: string) returns (err: Option<ValidationError>)
    requires expected != ""
    ensures err == if TypeOk(data, expected) then None else Some(ValidationError(path, WrongType))
  {
    var ok := match expected
      case "object" => data.Dict?
      case "array" => data.List?
      case "string" => data.Str?
      case "number" => data.Float?
      case "boolean" => data.Bool?
      case "integer" => data.Float? && IsInteger(data.r)
      case _ => false;
    err := if ok then None else Some(ValidationError(path, WrongType));
  }

  method ValidateEnum(lib: Lib, data: Value, enum: seq<Value>, path: string) returns (err: Option<ValidationError>)
    requires enum != []
    ensures err == if EnumOk(lib, data, enum) then None else Some(ValidationError(path, NotInEnum))
  {
    for i := 0 to |enum|
      invariant forall v | v in enum[..i] :: !lib.jsonEqual(data, v)
    {
      if lib.jsonEqual(data, enum[i]) {
        return None;
      }
    }
    assert enum[..|enum|] == enum;
    err := Some(ValidationError(path, NotInEnum));
  }

  method ValidateString(lib: Lib, ghost strict: bool, data: Value, schema: Schema, path: string) returns (err: Option<ValidationError>)
    requires schema.Schema? && schema.typ == "string"
    requires data.Str?
    ensures err.None? ==> ShapeOk(lib, strict, data, schema)
    ensures err.Some? ==> !ShapeOk(lib, strict, data, schema) && ExplainsShape(lib, strict, data, schema, path, err.value)
  {
    var x := data.s;
    if schema.minLength.Some? && |x| < schema.minLength.value {
      return Some(ValidationError(path, TooShort));
    }
    if schema.maxLength.Some? && |x| > schema.maxLength.value {
      return Some(ValidationError(path, TooLong));
    }
    if schema.pattern != "" {
      if !lib.compiles(schema.pattern) {
        return Some(ValidationError(path, BadPattern));
      }
      if !lib.matches(schema.pattern, x) {
        return Some(ValidationError(path, NoPatternMatch));
      }
    }
    err := None;
  }

  method ValidateNumber(lib: Lib, ghost strict: bool, data: Value, schema: Schema, path: string) returns (err: Option<ValidationError>)
    requires schema.Schema? && (schema.typ == "number" || schema.typ == "integer")
    requires data.Float?
    ensures err.None? ==> ShapeOk(lib, strict, data, schema)
    ensures err.Some? ==> !ShapeOk(lib, strict, data, schema) && ExplainsShape(lib, strict, data, schema, path, err.value)
  {
    if schema.minimum.Some? && data.r < schema.minimum.value {
      return Some(ValidationError(path, BelowMinimum));
    }
    if schema.maximum.Some? && data.r > schema.maximum.value {
      return Some(ValidationError(path, AboveMaximum));
    }
    err := None;
  }

  method ValidateArray(lib: Lib, data: Value, schema: Schema, path: string) returns (err: Option<ValidationError>)
    requires schema.Schema? && schema.typ == "array"
    requires data.List?
    ensures err.None? ==> ShapeOk(lib, false, data, schema)
    ensures err.Some? ==> !ShapeOk(lib, false, data, schema) && ExplainsShape(lib, false, data, schema, path, err.value)
    decreases schema, 1
  {
    var arr := data.items;
    if |schema.prefixItems| > 0 {
      err := ValidatePrefixItems(lib, false, data, schema, path);
      if err.Some? { return; }
    }
    if schema.items.Schema? {
      var i := |schema.prefixItems|;
      while i < |arr|
        invariant i >= |schema.prefixItems|
        invariant forall j: nat | j < i && j < |arr| :: Sat(lib, false, arr[j], schema.ItemSchema(j))
      {
        err := ValidateValue(lib, arr[i], schema.items, ItemPath(path, i));
        if err.Some? { return; }
        i := i + 1;
      }
    }
    err := None;
  }

  method ValidateArrayStrict(lib: Lib, data: Value, schema: Schema, path: string) returns (err: Option<ValidationError>)
    requires schema.Schema? && schema.typ == "array"
    requires data.List?
    ensures err.None? ==> ShapeOk(lib, true, data, schema)
    ensures err.Some? ==> !ShapeOk(lib, true, data, schema) && ExplainsShape(lib, true, data, schema, path, err.value)
    decreases schema, 1
  {
    var arr := data.items;
    if |schema.prefixItems| > 0 {
      err := ValidatePrefixItems(lib, true, data, schema, path);
      if err.Some? { return; }
    }
    if schema.items.Schema? {
      var i := |schema.prefixItems|;
      while i < |arr|
        invariant i >= |schema.prefixItems|
        invariant forall j: nat | j < i && j < |arr| :: Sat(lib, true, arr[j], schema.ItemSchema(j))
      {
        err := ValidateValueStrict(lib, arr[i], schema.items, ItemPath(path, i));
        if err.Some? { return; }
        i := i + 1;
      }
    }
    err := None;
  }

  method ValidatePrefixItems(lib: Lib, strict: bool, data: Value, schema: Schema, path: string)
    returns (err: Option<ValidationError>)
    requires schema.Schema? && schema.typ == "array"
    requires data.List?
    ensures err.None? ==>
      forall j: nat | j < |data.items| && j < |schema.prefixItems| :: Sat(lib, strict, data.items[j], schema.ItemSchema(j))
    ensures err.Some? ==> !ShapeOk(lib, strict, data, schema) && ExplainsShape(lib, strict, data, schema, path, err.value)
    decreases schema, 0
  {
    var arr := data.items;
    for i := 0 to |schema.prefixItems|
      invariant forall j: nat | j < i && j < |arr| :: Sat(lib, strict, arr[j], schema.ItemSchema(j))
    {
      if i >= |arr| { break; }
      err := Validate(lib, strict, arr[i], schema.prefixItems[i], ItemPath(path, i));
      if err.Some? {
        assert schema.ItemSchema(i) == schema.prefixItems[i];
        return;
      }
    }
    err := None;
  }

  method ValidateObject(lib: Lib, strict: bool, data: Value, schema: Schema, path: string)
    returns (err: Option<ValidationError>)
    requires schema.Schema? && schema.ChecksObject()
    ensures err.None? ==> ShapeOk(lib, strict, data, schema)
    ensures err.Some? ==> !ShapeOk(lib, strict, data, schema) && ExplainsShape(lib, strict, data, schema, path, err.value)
    decreases schema, 1
  {
    if !data.Dict? {
      return None;
    }
    var fields := data.fields;
    for i := 0 to |schema.required|
      invariant forall j: nat | j < i :: schema.required[j] in fields
    {
      if schema.required[i] !in fields {
        return Some(ValidationError(DotPath(path, schema.required[i]), MissingField(schema.required[i])));
      }
    }
    assert RequiredOk(fields, schema);
    var table := schema.Table();
    var todo := table.Keys;
    while todo != {}
      invariant todo <= table.Keys
      invariant forall k | k in table.Keys - todo :: k in fields ==> Sat(lib, strict, fields[k], table[k])
    {
      var key :| key in todo;
      todo := todo - {key};
      if key in fields {
        if strict {
          err := ValidateValueStrict(lib, fields[key], table[key], DotPath(path, key));
        } else {
          err := ValidateValue(lib, fields[key], table[key], DotPath(path, key));
        }
        if err.Some? { return; }
      }
    }
    var rejectUnknown := strict;
    if schema.additionalProperties.Some? && !schema.additionalProperties.value {
      rejectUnknown := true;
    }
    if rejectUnknown && |table| > 0 {
      todo := fields.Keys;
      while todo != {}
        invariant todo <= fields.Keys
        invariant fields.Keys - todo <= table.Keys
      {
        var key :| key in todo;
        todo := todo - {key};
        if key !in table {
          return Some(ValidationError(DotPath(path, key), UnknownProperty(key)));
        }
      }
    }
    err := None;
  }

  method ValidateComposition(lib: Lib, strict: bool, data: Value, schema: Schema, path: string)
    returns (err: Option<ValidationError>)
    requires schema.Schema?
    ensures err == if !AnyOfOk(lib, strict, data, schema) then Some(ValidationError(path, NoAnyOf))
                   else if !OneOfOk(lib, strict, data, schema)
                   then Some(ValidationError(path, NotOneOf(CountTrue(Verdicts(lib, strict, data, schema.oneOf)))))
                   else if !AllOfOk(lib, strict, data, schema) then Some(ValidationError(path, AllOfFails))
                   else None
    decreases schema, 1
  {
    if |schema.anyOf| > 0 {
      var matched := MatchesAny(lib, strict, data, schema, path);
      if !matched {
        return Some(ValidationError(path, NoAnyOf));
      }
    }
    if |schema.oneOf| > 0 {
      var count := CountMatches(lib, strict, data, schema, path);
      ExactlyOneMatch(lib, strict, data, schema);
      if count != 1 {
        return Some(ValidationError(path, NotOneOf(count)));
      }
    }
    for i := 0 to |schema.allOf|
      invariant forall j | 0 <= j < i :: Sat(lib, strict, data, schema.allOf[j])
    {
      var sub := Validate(lib, strict, data, schema.allOf[i], path);
      if sub.Some? {
        return Some(ValidationError(path, AllOfFails));
      }
    }
    err := None;
  }

  /** The `anyOf` loop of validateComposition. */
  method MatchesAny(lib: Lib, strict: bool, data: Value, schema: Schema, path: string) returns (matched: bool)
    requires schema.Schema?
    ensures matched <==> exists i | 0 <= i < |schema.anyOf| :: Sat(lib, strict, data, schema.anyOf[i])
    decreases schema, 0
  {
    matched := false;
    for i := 0 to |schema.anyOf|
      invariant !matched
      invariant forall j | 0 <= j < i :: !Sat(lib, strict, data, schema.anyOf[j])
    {
      var sub := Validate(lib, strict, data, schema.anyOf[i], path);
      if sub.None? {
        matched := true;
        break;
      }
    }
  }

  /** The `oneOf` loop of validateComposition. */
  method CountMatches(lib: Lib, strict: bool, data: Value, schema: Schema, path: string) returns (count: nat)
    requires schema.Schema?
    ensures count == CountTrue(Verdicts(lib, strict, data, schema.oneOf))
    decreases schema, 0
  {
    count := 0;
    ghost var verdicts := Verdicts(lib, strict, data, schema.oneOf);
    for i := 0 to |schema.oneOf|
      invariant count == CountTrue(verdicts[..i])
    {
      var sub := Validate(lib, strict, data, schema.oneOf[i], path);
      assert verdicts[..i + 1][..i] == verdicts[..i];
      if sub.None? {
        count := count + 1;
      }
    }
    assert verdicts[..|schema.oneOf|] == verdicts;
  }

  ghost predicate OnlyTrue(bs: seq<bool>, i: int) {
    0 <= i < |bs| && bs[i] && forall j | 0 <= j < |bs| && j != i :: !bs[j]
  }

  lemma {:induction false} CountNone(bs: seq<bool>)
    ensures CountTrue(bs) == 0 <==> forall j | 0 <= j < |bs| :: !bs[j]
  {
    if bs != [] {
      var init := bs[..|bs| - 1];
      CountNone(init);
      assert (forall j | 0 <= j < |bs| :: !bs[j]) <==> !bs[|bs| - 1] && forall j | 0 <= j < |init| :: !init[j];
    }
  }

  lemma {:induction false} CountOnce(bs: seq<bool>, i: int)
    requires OnlyTrue(bs, i)
    ensures CountTrue(bs) == 1
  {
    var init := bs[..|bs| - 1];
    if i == |bs| - 1 {
      CountNone(init);
    } else {
      CountOnce(init, i);
    }
  }

  lemma {:induction false} FindOnce(bs: seq<bool>) returns (i: int)
    requires CountTrue(bs) == 1
    ensures OnlyTrue(bs, i)
  {
    var init := bs[..|bs| - 1];
    if bs[|bs| - 1] {
      CountNone(init);
      i := |bs| - 1;
      assert forall j | 0 <= j < |init| :: bs[j] == init[j];
    } else {
      i := FindOnce(init);
      assert forall j | 0 <= j < |init| :: bs[j] == init[j];
    }
  }

  /** Counting the accepting sub-schemas decides `oneOf`. */
  lemma ExactlyOneMatch(lib: Lib, strict: bool, d: Value, s: Schema)
    requires s.Schema? && s.oneOf != []
    ensures OneOfOk(lib, strict, d, s) <==> CountTrue(Verdicts(lib, strict, d, s.oneOf)) == 1
  {
    var bs := Verdicts(lib, strict, d, s.oneOf);
    OneOfVerdicts(lib, strict, d, s, bs);
    if i :| OnlyTrue(bs, i) {
      CountOnce(bs, i);
    }
    if CountTrue(bs) == 1 {
      var i := FindOnce(bs);
    }
  }

  lemma OneOfVerdicts(lib: Lib, strict: bool, d: Value, s: Schema, bs: seq<bool>)
    requires s.Schema? && s.oneOf != []
    requires |bs| == |s.oneOf| && forall j | 0 <= j < |bs| :: bs[j] == Sat(lib, strict, d, s.oneOf[j])
    ensures OneOfOk(lib, strict, d, s) <==> exists i :: OnlyTrue(bs, i)
  {
    if i :| OnlyTrue(bs, i) {
      assert OnlyMatch(lib, strict, d, s, i);
    }
    if i :| 0 <= i < |s.oneOf| && OnlyMatch(lib, strict, d, s, i) {
      assert OnlyTrue(bs, i);
    }
  }

  method ValidateConditional(lib: Lib, strict: bool, data: Value, schema: Schema, path: string)
    returns (err: Option<ValidationError>)
    requires schema.Schema? && schema.ifSchema.Schema?
    ensures err == if ConditionOk(lib, strict, data, schema) then None
                   else Some(ValidationError(path, if Sat(lib, strict, data, schema.ifSchema) then ThenFails else ElseFails))
    decreases schema, 1
  {
    var ifErr := Validate(lib, strict, data, schema.ifSchema, path);
    var ifMatches := ifErr.None?;
    if ifMatches && schema.thenSchema.Schema? {
      var thenErr := Validate(lib, strict, data, schema.thenSchema, path);
      if thenErr.Some? {
        return Some(ValidationError(path, ThenFails));
      }
    }
    if !ifMatches && schema.elseSchema.Schema? {
      var elseErr := Validate(lib, strict, data, schema.elseSchema, path);
      if elseErr.Some? {
        return Some(ValidationError(path, ElseFails));
      }
    }
    err := None;
  }
}
