/** The model values the form binder hands to `writeValue`, and the rule that
    turns any of them into a selected index. */
module ModelValue {
  import opened Options
  import JsMath

  /** A bound model value of any JavaScript type.
      `Other(text)` is any value that is neither blank, nor of type number, nor
      a string (a boolean, an object, a boxed Number); `text` is the string
      that `parseInt` obtains from it by its ToString coercion. */
  datatype Value =
    | Undefined
    | Null
    | Num(x: real)
    | Str(s: string)
    | Other(text: string)
  {
    /** `isBlank`: the value is `null` or `undefined`. */
    predicate IsBlank() {
      Undefined? || Null?
    }

    /** The string `parseInt` works on, for values that reach it. */
    function ParseInput(): (t: string)
      requires Str? || Other?
    {
      if Str? then s else text
    }
  }

  /** `parseInt` with one argument, as the environment implements it
      (ECMA-262 6th edition, section 18.2.5): `None` stands for NaN, and
      `Some(k)` for an integral result `k`. Its internals are a parameter. */
  type ParseInt = string -> Option<int>

  /** `isNaN(parsed) ? 0 : parsed`: a failed parse counts as 0. */
  function ParsedOrZero(parsed: Option<int>): int {
    match parsed
    case Some(k) => k
    case None => 0
  }

  /** The value before rounding: 0 for a blank value, the number itself for a
      number, otherwise the parsed integer, or 0 where the parse gives NaN.
      Every path except a number already yields an integer, so the rounding
      that follows only changes numbers. */
  function Unrounded(v: Value, parse: ParseInt): (x: real)
    ensures !v.Num? ==> x == x.Floor as real
  {
    match v
    case Undefined => 0.0
    case Null => 0.0
    case Num(x) => x
    case Str(s) => ParsedOrZero(parse(s)) as real
    case Other(t) => ParsedOrZero(parse(t)) as real
  }

  /** The stored index: `Math.round` of the unrounded value. Rounding only
      changes fractional numbers; every other path already yields an integer. */
  function Normalize(v: Value, parse: ParseInt): (n: int)
    ensures v.IsBlank() ==> n == 0
    ensures v.Num? ==> v.x - 0.5 < n as real <= v.x + 0.5
    ensures (v.Str? || v.Other?) && parse(v.ParseInput()).Some? ==> n == parse(v.ParseInput()).value
    ensures (v.Str? || v.Other?) && parse(v.ParseInput()).None? ==> n == 0
  {
    var x := Unrounded(v, parse);
    JsMath.RoundOfInteger(0);
    var k := if v.Str? || v.Other? then ParsedOrZero(parse(v.ParseInput())) else 0;
    JsMath.RoundOfInteger(k);
    JsMath.Round(x)
  }

  /** A number normalises to exactly `Math.round` of it. */
  lemma NormalizeNumber(x: real, parse: ParseInt)
    ensures Normalize(Num(x), parse) == JsMath.Round(x)
  {
    JsMath.RoundCharacterisation(x, Normalize(Num(x), parse));
  }

  /** An integral number passes through unchanged. */
  lemma NormalizeInteger(k: int, parse: ParseInt)
    ensures Normalize(Num(k as real), parse) == k
  {
    JsMath.RoundCharacterisation(k as real, Normalize(Num(k as real), parse));
  }

  /** A text value normalises to 0 exactly when it parses to NaN or to 0. */
  lemma NormalizeTextZero(v: Value, parse: ParseInt)
    requires v.Str? || v.Other?
    ensures Normalize(v, parse) == 0 <==> parse(v.ParseInput()) in {None, Some(0)}
  {
  }

  /** The index is not clamped at zero: a number gives a negative index
      exactly when it lies below -1/2 (from -1/2 up to 0 it rounds to 0). */
  lemma NormalizeNegative(x: real, parse: ParseInt)
    ensures Normalize(Num(x), parse) < 0 <==> x < -0.5
  {
  }
}
