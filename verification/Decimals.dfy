/** Decimal notation, Go's 64-bit integers, and the three literal parsers of
    execution/template/engine.go. */
module Decimals {
  import opened Values

  const TWO_TO_64 := 0x1_0000_0000_0000_0000

  predicate IsInt64(n: int) { -0x8000_0000_0000_0000 <= n < 0x8000_0000_0000_0000 }

  /** The int64 that 64-bit two's-complement arithmetic leaves of `x`. */
  function Wrap(x: int): int {
    (x + 0x8000_0000_0000_0000) % TWO_TO_64 - 0x8000_0000_0000_0000
  }

  /** `Wrap` is determined by its range and its residue. */
  lemma WrapIsUnique(n: int, x: int)
    ensures n == Wrap(x) <==> IsInt64(n) && (x - n) % TWO_TO_64 == 0
  {
    var q := (x + 0x8000_0000_0000_0000) / TWO_TO_64;
    assert x - Wrap(x) == q * TWO_TO_64;
    if IsInt64(n) && (x - n) % TWO_TO_64 == 0 {
      var k := (x - n) / TWO_TO_64;
      assert (k - q) * TWO_TO_64 == Wrap(x) - n;
    }
  }

  lemma WrapCongruent(x: int, y: int, k: int)
    requires x - y == k * TWO_TO_64
    ensures Wrap(x) == Wrap(y)
  {
    var q := (y + 0x8000_0000_0000_0000) / TWO_TO_64;
    assert x - Wrap(y) == (k + q) * TWO_TO_64;
    assert (x - Wrap(y)) % TWO_TO_64 == 0;
    WrapIsUnique(Wrap(y), x);
  }

  /** Wrapping the parts first makes no difference. */
  lemma WrapAffine(x: int, m: int, c: int)
    ensures Wrap(Wrap(x) * m + c) == Wrap(x * m + c)
  {
    var q := (x + 0x8000_0000_0000_0000) / TWO_TO_64;
    assert Wrap(x) * m + c - (x * m + c) == (-q * m) * TWO_TO_64 by {
      assert Wrap(x) == x - q * TWO_TO_64;
      assert (q * TWO_TO_64) * m == (q * m) * TWO_TO_64;
    }
    WrapCongruent(Wrap(x) * m + c, x * m + c, -q * m);
  }

  lemma WrapAdd(x: int, y: int)
    ensures Wrap(Wrap(x) + y) == Wrap(x + y)
  {
    WrapAffine(x, 1, y);
  }

  // ---------------------------------------------------------------------------------------
  // Digits
  // ---------------------------------------------------------------------------------------

  predicate IsDigit(c: char) { '0' <= c <= '9' }

  predicate AllDigits(s: string) { forall i | 0 <= i < |s| :: IsDigit(s[i]) }

  function Digit(c: char): nat requires IsDigit(c) { (c - '0') as nat }

  function DigitsValue(s: string): nat
    requires AllDigits(s)
  {
    if s == "" then 0 else DigitsValue(s[..|s| - 1]) * 10 + Digit(s[|s| - 1])
  }

  function Print(n: nat): (s: string)
    ensures s != "" && AllDigits(s)
  {
    if n < 10 then ['0' + n as char] else Print(n / 10) + ['0' + (n % 10) as char]
  }

  function PrintInt(n: int): string {
    if n < 0 then "-" + Print(-n) else Print(n)
  }

  lemma {:induction false} PrintedValue(n: nat)
    ensures DigitsValue(Print(n)) == n
  {
    if n >= 10 {
      PrintedValue(n / 10);
      assert Print(n)[..|Print(n)| - 1] == Print(n / 10);
    } else {
      assert Print(n)[..0] == "";
    }
  }

  lemma PrintsDiffer(m: nat, n: nat)
    requires m != n
    ensures Print(m) != Print(n)
  {
    PrintedValue(m);
    PrintedValue(n);
  }

  function Pow10(k: nat): (p: nat)
    ensures p > 0
  {
    if k == 0 then 1 else 10 * Pow10(k - 1)
  }

  lemma ShiftProduct(a: nat, p: nat)
    ensures a * (10 * p) == a * p * 10
  {
  }

  lemma {:induction false} DigitsValueConcat(a: string, b: string)
    requires AllDigits(a) && AllDigits(b)
    ensures AllDigits(a + b) && DigitsValue(a + b) == DigitsValue(a) * Pow10(|b|) + DigitsValue(b)
    decreases |b|
  {
    if b == "" {
      assert a + b == a;
    } else {
      var init := b[..|b| - 1];
      DigitsValueConcat(a, init);
      assert (a + b)[..|a + b| - 1] == a + init;
      ShiftProduct(DigitsValue(a), Pow10(|init|));
    }
  }

  // ---------------------------------------------------------------------------------------
  // Integers
  // ---------------------------------------------------------------------------------------

  predicate Negative(s: string) { s != "" && s[0] == '-' }

  function Unsigned(s: string): string { if Negative(s) then s[1..] else s }

  /** A lone "-" is an integer literal of value 0. */
  predicate IsIntLiteral(s: string) { s != "" && AllDigits(Unsigned(s)) }

  function IntLiteralValue(s: string): int requires IsIntLiteral(s) {
    if Negative(s) then -(DigitsValue(Unsigned(s)) as int) else DigitsValue(s)
  }

  function ParseInt(s: string): Option<int> {
    if IsIntLiteral(s) then Some(Wrap(IntLiteralValue(s))) else None
  }

  method TryParseInt(s: string) returns (n: int, ok: bool)
    ensures ok <==> ParseInt(s).Some?
    ensures n == if ok then ParseInt(s).value else 0
  {
    ok := ScanInt(s);
    n := 0;
    if ok {
      n := EvalInt(s);
    }
  }

  /** The first loop of tryParseInt: is `s` of the right form? */
  method ScanInt(s: string) returns (ok: bool)
    ensures ok <==> IsIntLiteral(s)
  {
    if |s| == 0 {
      return false;
    }
    ghost var u := Unsigned(s);
    ghost var sign := |s| - |u|;
    for i := 0 to |s|
      invariant forall j | 0 <= j < i - sign :: IsDigit(u[j])
    {
      var c := s[i];
      if c == '-' && i == 0 {
        continue;
      }
      assert u[i - sign] == c;
      if c < '0' || c > '9' {
        return false;
      }
    }
    ok := true;
  }

  /** The second loop: wrap-around accumulation. */
  method EvalInt(s: string) returns (n: int)
    requires IsIntLiteral(s)
    ensures n == Wrap(IntLiteralValue(s))
  {
    n := 0;
    ghost var u := Unsigned(s);
    ghost var sign := |s| - |u|;
    for i := 0 to |s|
      invariant n == Wrap(DigitsValue(if i < sign then "" else u[..i - sign]))
    {
      var c := s[i];
      if c == '-' {
        assert i < sign;
        continue;
      }
      AccumulateDigit(u, i - sign);
      assert u[i - sign] == c;
      n := Wrap(Wrap(n * 10) + (c - '0') as int);
    }
    assert u[..|u|] == u;
    if s[0] == '-' {
      WrapAffine(DigitsValue(u), -1, 0);
      n := Wrap(-n);
    }
  }

  lemma AccumulateDigit(u: string, k: nat)
    requires AllDigits(u) && k < |u|
    ensures Wrap(Wrap(Wrap(DigitsValue(u[..k])) * 10) + Digit(u[k])) == Wrap(DigitsValue(u[..k + 1]))
  {
    assert u[..k + 1][..k] == u[..k];
    WrapAffine(DigitsValue(u[..k]), 10, 0);
    WrapAdd(DigitsValue(u[..k]) * 10, Digit(u[k]));
  }

  /** In range, parsing is exact; in particular it inverts printing on every int64. */
  lemma ParseIntExact(s: string)
    requires IsIntLiteral(s) && IsInt64(IntLiteralValue(s))
    ensures ParseInt(s) == Some(IntLiteralValue(s))
  {
  }

  lemma ParseIntInvertsPrint(n: int)
    requires IsInt64(n)
    ensures ParseInt(PrintInt(n)) == Some(n)
  {
    PrintedValue(if n < 0 then -n else n);
    if n < 0 {
      assert PrintInt(n)[1..] == Print(-n);
    }
  }

  // ---------------------------------------------------------------------------------------
  // Floats and booleans
  // ---------------------------------------------------------------------------------------

  /** `u` is digits but for one dot, at `dot`. */
  predicate DotAt(u: string, dot: int) {
    0 <= dot < |u| && u[dot] == '.' && forall i | 0 <= i < |u| && i != dot :: IsDigit(u[i])
  }

  /** An optional minus, digits and exactly one dot; "." and "-." are float literals of value 0. */
  predicate IsFloatLiteral(s: string) { exists dot | 0 <= dot < |Unsigned(s)| :: DotAt(Unsigned(s), dot) }

  /** The value of `whole.fraction`. */
  function PointValue(whole: string, fraction: string): real
    requires AllDigits(whole) && AllDigits(fraction)
  {
    DigitsValue(whole) as real + DigitsValue(fraction) as real / Pow10(|fraction|) as real
  }

  function FloatLiteralValue(s: string): real requires IsFloatLiteral(s) {
    var u := Unsigned(s);
    var dot :| 0 <= dot < |u| && DotAt(u, dot);
    var v := PointValue(u[..dot], u[dot + 1..]);
    if Negative(s) then -v else v
  }

  function ParseFloat(s: string): Option<real> {
    if IsFloatLiteral(s) then Some(FloatLiteralValue(s)) else None
  }

  lemma CommonDenominator(w: nat, f: nat, p: nat)
    requires p > 0
    ensures w as real + f as real / p as real == (w * p + f) as real / p as real
  {
    var x, y, z := w as real, f as real, p as real;
    assert x * z / z == x;
    assert (x * z + y) / z == x + y / z;
    assert x * z == (w * p) as real;
  }

  lemma FractionStep(a: real, d: real, p: real)
    requires p > 0.0
    ensures (a * 10.0 + d) / (10.0 * p) == a / p + d / (10.0 * p)
  {
    var q := a / p;
    assert a == q * p;
    assert a * 10.0 == q * (10.0 * p);
    assert (q * (10.0 * p) + d) / (10.0 * p) == q + d / (10.0 * p);
  }

  /** The value is the literal's digits with the dot left out, over a power of ten. */
  lemma FloatValueIsQuotient(s: string, dot: nat)
    requires DotAt(Unsigned(s), dot)
    ensures var u := Unsigned(s); var whole, fraction := u[..dot], u[dot + 1..];
      && AllDigits(whole + fraction)
      && ParseFloat(s) == Some((if Negative(s) then -1.0 else 1.0) *
                               (DigitsValue(whole + fraction) as real / Pow10(|fraction|) as real))
  {
    var u := Unsigned(s);
    var whole, fraction := u[..dot], u[dot + 1..];
    DigitsValueConcat(whole, fraction);
    CommonDenominator(DigitsValue(whole), DigitsValue(fraction), Pow10(|fraction|));
    assert FloatLiteralValue(s) == if Negative(s) then -PointValue(whole, fraction) else PointValue(whole, fraction);
  }

  method TryParseFloat(s: string) returns (v: real, ok: bool)
    ensures ok <==> ParseFloat(s).Some?
    ensures v == if ok then ParseFloat(s).value else 0.0
  {
    ghost var dot;
    ok, dot := ScanFloat(s);
    if !ok {
      return 0.0, false;
    }
    v := EvalFloat(s, dot);
  }

  /** The first loop of tryParseFloat: is `s` of the right form? */
  method ScanFloat(s: string) returns (ok: bool, ghost dot: int)
    ensures ok <==> IsFloatLiteral(s)
    ensures ok ==> DotAt(Unsigned(s), dot)
  {
    dot := -1;
    if |s| == 0 {
      return false, dot;
    }
    var hasDot := false;
    ghost var u := Unsigned(s);
    ghost var sign := |s| - |u|;
    for i := 0 to |s|
      invariant hasDot ==> 0 <= dot < i - sign && u[dot] == '.'
      invariant !hasDot ==> dot == -1
      invariant forall j | 0 <= j < i - sign && j != dot :: IsDigit(u[j])
    {
      var c := s[i];
      if c == '-' && i == 0 {
        continue;
      }
      assert u[i - sign] == c;
      if c == '.' {
        if hasDot {
          return false, dot;
        }
        hasDot := true;
        dot := i - sign;
        continue;
      }
      if c < '0' || c > '9' {
        return false, dot;
      }
    }
    ok := hasDot;
    assert hasDot ==> DotAt(u, dot);
  }

  /** The rest of tryParseFloat: the value of a string of the right form. */
  method EvalFloat(s: string, ghost dot: int) returns (v: real)
    requires s != "" && DotAt(Unsigned(s), dot)
    ensures v == FloatLiteralValue(s)
  {
    ghost var sign, whole, fraction := LiteralParts(s, dot);
    var neg, i := false, 0;
    if s[0] == '-' {
      neg, i := true, 1;
    }
    var val;
    val, i := SumWhole(s, i, whole);
    i := i + 1;
    var frac := SumFraction(s, i, fraction);
    val := val + frac;
    assert val == PointValue(whole, fraction);
    v := if neg then -val else val;
  }

  /** A float literal is a sign or none, digits, its only dot, and digits. */
  lemma LiteralParts(s: string, dot: int) returns (sign: nat, whole: string, fraction: string)
    requires s != "" && DotAt(Unsigned(s), dot)
    ensures sign == (if s[0] == '-' then 1 else 0) && AllDigits(whole) && AllDigits(fraction)
    ensures sign + |whole| < |s| && whole == s[sign..sign + |whole|] && s[sign + |whole|] == '.'
    ensures fraction == s[sign + |whole| + 1..]
    ensures IsFloatLiteral(s)
    ensures FloatLiteralValue(s) == if s[0] == '-' then -PointValue(whole, fraction) else PointValue(whole, fraction)
  {
    var u := Unsigned(s);
    sign, whole, fraction := |s| - |u|, u[..dot], u[dot + 1..];
  }

  method SumWhole(s: string, start: nat, ghost whole: string) returns (val: real, i: nat)
    requires AllDigits(whole) && start + |whole| < |s| && whole == s[start..start + |whole|] && s[start + |whole|] == '.'
    ensures val == DigitsValue(whole) as real && i == start + |whole|
  {
    i := start;
    val := 0.0;
    while i < |s|
      invariant start <= i <= start + |whole|
      invariant val == DigitsValue(whole[..i - start]) as real
    {
      if s[i] == '.' {
        break;
      }
      ghost var k := i - start;
      assert whole[..k + 1][..k] == whole[..k];
      assert s[i] == whole[k] && IsDigit(whole[k]);
      val := val * 10.0 + (s[i] - '0') as real;
      i := i + 1;
    }
    assert whole[..|whole|] == whole;
  }

  method SumFraction(s: string, start: nat, ghost fraction: string) returns (frac: real)
    requires start <= |s| && fraction == s[start..] && AllDigits(fraction)
    ensures frac == DigitsValue(fraction) as real / Pow10(|fraction|) as real
  {
    var i := start;
    frac := 0.0;
    var div := 10.0;
    while i < |s|
      invariant start <= i <= |s|
      invariant frac == DigitsValue(fraction[..i - start]) as real / Pow10(i - start) as real
      invariant div == Pow10(i - start + 1) as real
    {
      ghost var k := i - start;
      assert fraction[..k + 1][..k] == fraction[..k];
      FractionStep(DigitsValue(fraction[..k]) as real, Digit(s[i]) as real, Pow10(k) as real);
      frac := frac + (s[i] - '0') as real / div;
      div := div * 10.0;
      i := i + 1;
    }
    assert fraction[..|fraction|] == fraction;
  }

  function ParseBool(s: string): Option<bool> {
    if s == "true" then Some(true) else if s == "false" then Some(false) else None
  }

  /** No string is a literal of two kinds, so the order in which the parsers are tried is immaterial. */
  lemma LiteralsAreDisjoint(s: string)
    ensures ParseInt(s).Some? ==> ParseFloat(s).None?
    ensures ParseBool(s).Some? ==> ParseInt(s).None? && ParseFloat(s).None?
  {
    if ParseBool(s).Some? {
      assert !IsDigit(Unsigned(s)[0]) && !IsDigit(Unsigned(s)[1]);
    }
  }

  // ---------------------------------------------------------------------------------------
  // The literals, spelt out
  // ---------------------------------------------------------------------------------------

  lemma DigitChars(c: char)
    ensures IsDigit(c) <==> c in "0123456789"
  {
  }

  /** The integer literals are the non-empty strings of digits but for a minus in front, which may stand alone. */
  lemma IntLiteralsAre(s: string)
    ensures ParseInt(s).Some? <==>
      s != "" && forall i | 0 <= i < |s| :: s[i] in "0123456789" || (i == 0 && s[i] == '-')
    ensures s == "-" ==> ParseInt(s) == Some(0)
  {
    if Negative(s) {
      assert forall i | 1 <= i < |s| :: s[i] == s[1..][i - 1];
    }
    forall i | 0 <= i < |s| ensures IsDigit(s[i]) <==> s[i] in "0123456789" {
      DigitChars(s[i]);
    }
  }

  /** `s` is a minus or nothing, digits, a dot and digits. */
  ghost predicate Spells(s: string, minus: bool, whole: string, fraction: string) {
    && s == (if minus then "-" else "") + whole + "." + fraction
    && forall c | c in whole + fraction :: c in "0123456789"
  }

  lemma DigitsOnly(s: string)
    ensures AllDigits(s) <==> forall c | c in s :: c in "0123456789"
  {
    forall c | c in s ensures IsDigit(c) <==> c in "0123456789" {
      DigitChars(c);
    }
    assert forall i | 0 <= i < |s| :: s[i] in s;
  }

  lemma SpelledParts(s: string, minus: bool, whole: string, fraction: string)
    requires Spells(s, minus, whole, fraction)
    ensures Negative(s) == minus && DotAt(Unsigned(s), |whole|)
    ensures Unsigned(s)[..|whole|] == whole && Unsigned(s)[|whole| + 1..] == fraction
  {
    var u := whole + "." + fraction;
    DigitsAround(whole, fraction);
    assert if minus then s == "-" + u && s[1..] == u else s == u;
  }

  lemma DigitsAround(whole: string, fraction: string)
    requires forall c | c in whole + fraction :: c in "0123456789"
    ensures var u := whole + "." + fraction;
      DotAt(u, |whole|) && u[0] != '-' && u[..|whole|] == whole && u[|whole| + 1..] == fraction
  {
    var u := whole + "." + fraction;
    DigitsOnly(whole + fraction);
    assert forall i | 0 <= i < |whole| :: u[i] == (whole + fraction)[i];
    assert forall i | |whole| < i < |u| :: u[i] == (whole + fraction)[i - 1];
  }

  /** The value of a float literal is that of its digits without the dot, over ten for each after it. */
  lemma SpelledValue(s: string, minus: bool, whole: string, fraction: string)
    requires Spells(s, minus, whole, fraction)
    ensures AllDigits(whole + fraction)
    ensures ParseFloat(s) == Some((if minus then -1.0 else 1.0) *
                                  (DigitsValue(whole + fraction) as real / Pow10(|fraction|) as real))
  {
    SpelledParts(s, minus, whole, fraction);
    ValueOfParts(s, |whole|, minus, whole, fraction);
  }

  lemma ValueOfParts(s: string, dot: nat, minus: bool, whole: string, fraction: string)
    requires DotAt(Unsigned(s), dot) && Negative(s) == minus
    requires Unsigned(s)[..dot] == whole && Unsigned(s)[dot + 1..] == fraction
    ensures AllDigits(whole + fraction)
    ensures ParseFloat(s) == Some((if minus then -1.0 else 1.0) *
                                  (DigitsValue(whole + fraction) as real / Pow10(|fraction|) as real))
  {
    FloatValueIsQuotient(s, dot);
  }

  /** The float literals are the strings so spelled. */
  lemma FloatLiteralsAre(s: string)
    ensures ParseFloat(s).Some? <==> exists minus, whole, fraction :: Spells(s, minus, whole, fraction)
  {
    if minus, whole, fraction :| Spells(s, minus, whole, fraction) {
      SpelledParts(s, minus, whole, fraction);
      assert IsFloatLiteral(s);
    }
    if IsFloatLiteral(s) {
      var dot :| 0 <= dot < |Unsigned(s)| && DotAt(Unsigned(s), dot);
      DotIsSpelled(s, dot);
    }
  }

  lemma DotIsSpelled(s: string, dot: int)
    requires DotAt(Unsigned(s), dot)
    ensures Spells(s, Negative(s), Unsigned(s)[..dot], Unsigned(s)[dot + 1..])
  {
    var u := Unsigned(s);
    var w, f := u[..dot], u[dot + 1..];
    assert u == w + "." + f;
    assert s == (if Negative(s) then "-" else "") + u;
    assert forall i | 0 <= i < |w + f| :: (w + f)[i] == u[if i < dot then i else i + 1];
    DigitsOnly(w + f);
  }

  /** A number is printed without superfluous zeros, so in one way only. */
  lemma {:induction false} PrintHasNoLeadingZero(n: nat)
    ensures n > 0 ==> Print(n)[0] != '0'
    ensures Print(0) == "0"
  {
    if n >= 10 {
      PrintHasNoLeadingZero(n / 10);
    }
  }

  /** The decimal digits of a number are the one string of digits with its value and no superfluous zero. */
  lemma {:induction false} PrintIsUnique(s: string)
    requires s != "" && AllDigits(s) && (|s| > 1 ==> s[0] != '0')
    ensures Print(DigitsValue(s)) == s
  {
    var n := |s| - 1;
    if n > 0 {
      PrintIsUnique(s[..n]);
      LeadingDigitCounts(s[..n]);
      assert DigitsValue(s) / 10 == DigitsValue(s[..n]) && DigitsValue(s) % 10 == Digit(s[n]);
    } else {
      assert s[..0] == "" && s == [s[0]];
    }
  }

  lemma {:induction false} LeadingDigitCounts(s: string)
    requires s != "" && AllDigits(s) && s[0] != '0'
    ensures DigitsValue(s) > 0
  {
    var n := |s| - 1;
    if n > 0 {
      LeadingDigitCounts(s[..n]);
    }
  }
}
