/**
 * The five anchored regular expressions of `isValidColor`, written as a
 * grammar (a datatype of colour literals, their text, and which of them are
 * well formed) and as deterministic parsers proved to accept exactly the
 * texts of well-formed literals.
 *
 *   #([A-Fa-f0-9]{3}){1,2}
 *   rgb\((\d{1,3}),\s*(\d{1,3}),\s*(\d{1,3})\)
 *   rgba\((\d{1,3}),\s*(\d{1,3}),\s*(\d{1,3}),\s*(0|1|0\.\d+)\)
 *   hsl\((\d{1,3}),\s*(\d{1,3})%,\s*(\d{1,3})%\)
 *   hsla\((\d{1,3}),\s*(\d{1,3})%,\s*(\d{1,3})%,\s*(0|1|0\.\d+)\)
 *
 * Every pattern is anchored with `^` and `$` and has no `m` flag, so each
 * one is a whole-string match.
 */
module ColorSyntax {
  import opened Wrappers
  import opened JsText

  /** A component after a comma: the `\s*` padding, then the `\d{1,3}` digits. */
  datatype Arg = Arg(pad: string, digits: string)

  /** The three components; the first one has no padding before it. */
  datatype Triple = Triple(first: string, second: Arg, third: Arg)

  /** `0`, `1` or `0.` followed by decimals. */
  datatype AlphaValue = Zero | One | Fraction(decimals: string)

  /** The fourth component of `rgba`/`hsla`: padding, then the alpha value. */
  datatype Alpha = Alpha(pad: string, value: AlphaValue)

  datatype Notation = Rgb | Hsl

  datatype ColorLiteral =
    | HexLiteral(hex: string)
    | Functional(notation: Notation, args: Triple, alpha: Option<Alpha>)

  // ---------------------------------------------------------------- grammar

  /** `\d{1,3}`. */
  predicate Number(d: string) {
    1 <= |d| <= 3 && Every(IsDigit, d)
  }

  predicate WellFormedArg(a: Arg) {
    Every(IsJsWhitespace, a.pad) && Number(a.digits)
  }

  predicate WellFormedTriple(t: Triple) {
    Number(t.first) && WellFormedArg(t.second) && WellFormedArg(t.third)
  }

  /** `0|1|0\.\d+`. */
  predicate WellFormedAlphaValue(v: AlphaValue) {
    v.Fraction? ==> |v.decimals| >= 1 && Every(IsDigit, v.decimals)
  }

  predicate WellFormedAlpha(a: Alpha) {
    Every(IsJsWhitespace, a.pad) && WellFormedAlphaValue(a.value)
  }

  /** Three or six hex digits after `#`, that is, one or two groups of three. */
  predicate WellFormed(lit: ColorLiteral) {
    match lit
    case HexLiteral(h) => (|h| == 3 || |h| == 6) && Every(IsHexDigit, h)
    case Functional(_, t, alpha) =>
      WellFormedTriple(t) && (alpha.Some? ==> WellFormedAlpha(alpha.value))
  }

  function NotationName(n: Notation): string {
    match n
    case Rgb => "rgb"
    case Hsl => "hsl"
  }

  /** What follows the second and third components: nothing for `rgb`, `%` for `hsl`. */
  function Unit(n: Notation): string {
    match n
    case Rgb => ""
    case Hsl => "%"
  }

  /** The function name and opening parenthesis: `rgb(`, `rgba(`, `hsl(` or `hsla(`. */
  function Opening(n: Notation, withAlpha: bool): string {
    NotationName(n) + (if withAlpha then "a" else "") + "("
  }

  function RenderArg(a: Arg, unit: string): string {
    a.pad + a.digits + unit
  }

  function RenderTriple(t: Triple, unit: string): string {
    t.first + "," + RenderArg(t.second, unit) + "," + RenderArg(t.third, unit)
  }

  function AlphaText(v: AlphaValue): string {
    match v
    case Zero => "0"
    case One => "1"
    case Fraction(d) => "0." + d
  }

  function RenderAlpha(a: Alpha): string {
    "," + a.pad + AlphaText(a.value)
  }

  /** The text a colour literal stands for. */
  function Render(lit: ColorLiteral): string {
    match lit
    case HexLiteral(h) => "#" + h
    case Functional(n, t, alpha) =>
      Opening(n, alpha.Some?) + RenderTriple(t, Unit(n))
      + (if alpha.Some? then RenderAlpha(alpha.value) else "") + ")"
  }

  // ---------------------------------------------------------------- parsers

  /** A parsed value and the text after it. */
  datatype Parsed<T> = Parsed(value: T, rest: string)

  /** Consumes the literal text `lit`. */
  function Expect(lit: string, s: string): (r: Option<string>)
    ensures r.Some? <==> lit <= s
    ensures r.Some? ==> s == lit + r.value
  {
    if lit <= s then
      assert s == lit + s[|lit|..];
      Some(s[|lit|..])
    else
      None
  }

  /** `\d{1,3}` followed by a non-digit (every use is followed by `,`, `%` or `)`). */
  function ParseNumber(s: string): (r: Option<Parsed<string>>)
    ensures r.Some? ==> Number(r.value.value) && r.value.value + r.value.rest == s
    ensures r.Some? ==> StopsAt(IsDigit, r.value.rest)
  {
    var sp := Span(IsDigit, s);
    if 1 <= |sp.0| <= 3 then Some(Parsed(sp.0, sp.1)) else None
  }

  /** `\s*(\d{1,3})` followed by `unit`. */
  function ParseArg(s: string, unit: string): (r: Option<Parsed<Arg>>)
    ensures r.Some? ==> WellFormedArg(r.value.value) && RenderArg(r.value.value, unit) + r.value.rest == s
  {
    var sp := Span(IsJsWhitespace, s);
    var n :- ParseNumber(sp.1);
    var rest :- Expect(unit, n.rest);
    Some(Parsed(Arg(sp.0, n.value), rest))
  }

  /** `(\d{1,3}),\s*(\d{1,3})<unit>,\s*(\d{1,3})<unit>`. */
  function ParseTriple(s: string, unit: string): (r: Option<Parsed<Triple>>)
    ensures r.Some? ==> WellFormedTriple(r.value.value) && RenderTriple(r.value.value, unit) + r.value.rest == s
  {
    var a :- ParseNumber(s);
    var s1 :- Expect(",", a.rest);
    var b :- ParseArg(s1, unit);
    var s2 :- Expect(",", b.rest);
    var c :- ParseArg(s2, unit);
    var t := Triple(a.value, b.value, c.value);
    TripleTextChain(s, a.value, a.rest, s1, RenderArg(b.value, unit), b.rest, s2, RenderArg(c.value, unit), c.rest);
    Some(Parsed(t, c.rest))
  }

  /**
   * `0|1|0\.\d+` followed by `)`. The regular expression tries `0` first and
   * backtracks to `0\.\d+` when `)` does not follow; looking at the character
   * after `0` makes the same choice without backtracking.
   */
  function ParseAlphaValue(s: string): (r: Option<Parsed<AlphaValue>>)
    ensures r.Some? ==> WellFormedAlphaValue(r.value.value) && AlphaText(r.value.value) + r.value.rest == s
  {
    if "0." <= s then
      var sp := Span(IsDigit, s[2..]);
      if |sp.0| >= 1 then Some(Parsed(Fraction(sp.0), sp.1)) else None
    else if "0" <= s then
      Some(Parsed(Zero, s[1..]))
    else if "1" <= s then
      Some(Parsed(One, s[1..]))
    else
      None
  }

  /** Three pieces consumed one after the other make up the input. */
  lemma Chain3(s: string, a: string, afterA: string, b: string, afterB: string, c: string, rest: string)
    requires s == a + afterA && afterA == b + afterB && afterB == c + rest
    ensures s == a + b + c + rest
  {
  }

  /** How the pieces consumed by `ParseTriple` make up its input. */
  lemma TripleTextChain(s: string, first: string, afterFirst: string, afterComma1: string, second: string,
                        afterSecond: string, afterComma2: string, third: string, rest: string)
    requires s == first + afterFirst && afterFirst == "," + afterComma1 && afterComma1 == second + afterSecond
    requires afterSecond == "," + afterComma2 && afterComma2 == third + rest
    ensures s == first + "," + second + "," + third + rest
  {
  }

  /** `,\s*(0|1|0\.\d+)`: the alpha component of `rgba` and `hsla`. */
  function ParseAlpha(s: string): (r: Option<Parsed<Alpha>>)
    ensures r.Some? ==> WellFormedAlpha(r.value.value) && RenderAlpha(r.value.value) + r.value.rest == s
  {
    var s1 :- Expect(",", s);
    var sp := Span(IsJsWhitespace, s1);
    var v :- ParseAlphaValue(sp.1);
    Chain3(s, ",", s1, sp.0, sp.1, AlphaText(v.value), v.rest);
    Some(Parsed(Alpha(sp.0, v.value), v.rest))
  }

  /** The `#` rule (pages/ColorPage.tsx line 18). */
  function MatchHex(s: string): (r: Option<ColorLiteral>)
    ensures r.Some? ==> r.value.HexLiteral? && WellFormed(r.value) && Render(r.value) == s
  {
    if "#" <= s && (|s| == 4 || |s| == 7) && Every(IsHexDigit, s[1..]) then
      assert s == "#" + s[1..];
      Some(HexLiteral(s[1..]))
    else
      None
  }

  /** One of the `rgb`, `rgba`, `hsl`, `hsla` rules (lines 20, 21, 23, 24). */
  function MatchFunctional(s: string, n: Notation, withAlpha: bool): (r: Option<ColorLiteral>)
    ensures r.Some? ==> r.value.Functional? && r.value.notation == n && r.value.alpha.Some? == withAlpha
    ensures r.Some? ==> WellFormed(r.value) && Render(r.value) == s
  {
    var body :- Expect(Opening(n, withAlpha), s);
    var t :- ParseTriple(body, Unit(n));
    if withAlpha then
      var a :- ParseAlpha(t.rest);
      if a.rest == ")" then
        var lit := Functional(n, t.value, Some(a.value));
        Chain3(s, Opening(n, true), body, RenderTriple(t.value, Unit(n)), t.rest, RenderAlpha(a.value), ")");
        Some(lit)
      else
        None
    else if t.rest == ")" then
      Some(Functional(n, t.value, None))
    else
      None
  }

  // ------------------------------------------- completeness (round trips)

  lemma ParseNumberOf(d: string, rest: string)
    requires Number(d) && StopsAt(IsDigit, rest)
    ensures ParseNumber(d + rest) == Some(Parsed(d, rest))
  {
    SpanOf(IsDigit, d, rest);
  }

  lemma ParseArgOf(a: Arg, unit: string, rest: string)
    requires WellFormedArg(a) && StopsAt(IsDigit, unit + rest)
    ensures ParseArg(RenderArg(a, unit) + rest, unit) == Some(Parsed(a, rest))
  {
    var after := a.digits + (unit + rest);
    assert RenderArg(a, unit) + rest == a.pad + after;
    assert after[0] == a.digits[0];
    SpanOf(IsJsWhitespace, a.pad, after);
    ParseNumberOf(a.digits, unit + rest);
    assert (unit + rest)[|unit|..] == rest;
  }

  lemma ParseTripleOf(t: Triple, unit: string, rest: string)
    requires unit == "" || unit == "%"
    requires WellFormedTriple(t) && StopsAt(IsDigit, unit + rest)
    ensures ParseTriple(RenderTriple(t, unit) + rest, unit) == Some(Parsed(t, rest))
  {
    var s3 := RenderArg(t.third, unit) + rest;
    var s2 := "," + s3;
    var s1 := RenderArg(t.second, unit) + s2;
    var s0 := "," + s1;
    TripleTextChain(RenderTriple(t, unit) + rest, t.first, s0, s1, RenderArg(t.second, unit), s2, s3, RenderArg(t.third, unit), rest);
    ParseNumberOf(t.first, s0);
    assert Expect(",", s0) == Some(s1) by { assert s0[1..] == s1; }
    assert (unit + s2)[0] == if unit == "" then ',' else '%';
    ParseArgOf(t.second, unit, s2);
    assert Expect(",", s2) == Some(s3) by { assert s2[1..] == s3; }
    ParseArgOf(t.third, unit, rest);
  }

  lemma ParseAlphaValueOf(v: AlphaValue, rest: string)
    requires WellFormedAlphaValue(v) && ")" <= rest
    ensures ParseAlphaValue(AlphaText(v) + rest) == Some(Parsed(v, rest))
  {
    var s := AlphaText(v) + rest;
    match v
    case Zero =>
      assert s[1] == ')';
      assert s[1..] == rest;
    case One =>
      assert s[1..] == rest;
    case Fraction(d) =>
      assert s[2..] == d + rest;
      SpanOf(IsDigit, d, rest);
  }

  lemma ParseAlphaOf(a: Alpha, rest: string)
    requires WellFormedAlpha(a) && ")" <= rest
    ensures ParseAlpha(RenderAlpha(a) + rest) == Some(Parsed(a, rest))
  {
    var afterPad := AlphaText(a.value) + rest;
    var afterComma := a.pad + afterPad;
    assert RenderAlpha(a) + rest == "," + afterComma;
    assert Expect(",", "," + afterComma) == Some(afterComma) by { assert ("," + afterComma)[1..] == afterComma; }
    assert afterPad[0] == AlphaText(a.value)[0];
    SpanOf(IsJsWhitespace, a.pad, afterPad);
    ParseAlphaValueOf(a.value, rest);
  }

  /** Every well-formed `rgb`/`rgba`/`hsl`/`hsla` literal is matched by its own rule, and read back as itself. */
  lemma MatchFunctionalOf(lit: ColorLiteral)
    requires lit.Functional? && WellFormed(lit)
    ensures MatchFunctional(Render(lit), lit.notation, lit.alpha.Some?) == Some(lit)
  {
    var n, t := lit.notation, lit.args;
    var open, args, unit := Opening(n, lit.alpha.Some?), RenderTriple(t, Unit(n)), Unit(n);
    assert unit == "" || unit == "%";
    if lit.alpha.Some? {
      var a := lit.alpha.value;
      var afterArgs := RenderAlpha(a) + ")";
      var body := args + afterArgs;
      assert Render(lit) == open + body;
      assert Expect(open, open + body) == Some(body) by { assert (open + body)[|open|..] == body; }
      assert (unit + afterArgs)[0] == if unit == "" then ',' else '%';
      ParseTripleOf(t, unit, afterArgs);
      ParseAlphaOf(a, ")");
    } else {
      var body := args + ")";
      assert Render(lit) == open + body;
      assert Expect(open, open + body) == Some(body) by { assert (open + body)[|open|..] == body; }
      assert (unit + ")")[0] == if unit == "" then ')' else '%';
      ParseTripleOf(t, unit, ")");
    }
  }

  /** Every well-formed `#` literal is matched by the `#` rule, and read back as itself. */
  lemma MatchHexOf(lit: ColorLiteral)
    requires lit.HexLiteral? && WellFormed(lit)
    ensures MatchHex(Render(lit)) == Some(lit)
  {
    assert Render(lit)[1..] == lit.hex;
  }

  // ------------------------------------------------ the five regex tests

  /** Line 18: `#` and three or six hex digits. */
  predicate HexPattern(s: string) {
    MatchHex(s).Some?
  }

  /** Line 20. */
  predicate RgbPattern(s: string) {
    MatchFunctional(s, Rgb, false).Some?
  }

  /** Line 21. */
  predicate RgbaPattern(s: string) {
    MatchFunctional(s, Rgb, true).Some?
  }

  /** Line 23. */
  predicate HslPattern(s: string) {
    MatchFunctional(s, Hsl, false).Some?
  }

  /** Line 24. */
  predicate HslaPattern(s: string) {
    MatchFunctional(s, Hsl, true).Some?
  }

  /** Any of the five regular expressions of `isValidColor` matches. */
  predicate MatchesAnyPattern(s: string) {
    HexPattern(s) || RgbPattern(s) || RgbaPattern(s) || HslPattern(s) || HslaPattern(s)
  }

  /** Line 36: exactly three or exactly six hex digits and nothing else. */
  predicate BareHex(s: string) {
    (|s| == 3 || |s| == 6) && Every(IsHexDigit, s)
  }

  /** A functional rule reads `s` as `lit` exactly when `lit` is a well-formed literal of that rule whose text is `s`. */
  lemma MatchFunctionalExact(s: string, n: Notation, withAlpha: bool, lit: ColorLiteral)
    ensures MatchFunctional(s, n, withAlpha) == Some(lit) <==>
      lit.Functional? && lit.notation == n && lit.alpha.Some? == withAlpha && WellFormed(lit) && Render(lit) == s
  {
    if lit.Functional? && lit.notation == n && lit.alpha.Some? == withAlpha && WellFormed(lit) && Render(lit) == s {
      MatchFunctionalOf(lit);
    }
  }

  /** The `#` rule reads `s` as `lit` exactly when `lit` is a well-formed `#` literal whose text is `s`. */
  lemma MatchHexExact(s: string, lit: ColorLiteral)
    ensures MatchHex(s) == Some(lit) <==> lit.HexLiteral? && WellFormed(lit) && Render(lit) == s
  {
    if lit.HexLiteral? && WellFormed(lit) && Render(lit) == s {
      MatchHexOf(lit);
    }
  }

  /** The `#` rule accepts `#` followed by exactly three or six hex digits, in either case, and nothing else. */
  lemma HexPatternExact(s: string)
    ensures HexPattern(s) <==> |s| > 0 && s[0] == '#' && BareHex(s[1..])
  {
    if |s| > 0 && s[0] == '#' && BareHex(s[1..]) {
      MatchHexOf(HexLiteral(s[1..]));
      assert s == "#" + s[1..];
    }
  }

  /** Together the five regular expressions accept exactly the texts of well-formed colour literals. */
  lemma PatternLanguage(s: string)
    ensures MatchesAnyPattern(s) <==> exists lit :: WellFormed(lit) && Render(lit) == s
  {
    if MatchesAnyPattern(s) {
      var lit :=
        if HexPattern(s) then MatchHex(s).value
        else if RgbPattern(s) then MatchFunctional(s, Rgb, false).value
        else if RgbaPattern(s) then MatchFunctional(s, Rgb, true).value
        else if HslPattern(s) then MatchFunctional(s, Hsl, false).value
        else MatchFunctional(s, Hsl, true).value;
      assert WellFormed(lit) && Render(lit) == s;
    }
    if lit :| WellFormed(lit) && Render(lit) == s {
      match lit
      case HexLiteral(_) => MatchHexOf(lit);
      case Functional(_, _, _) => MatchFunctionalOf(lit);
    }
  }

  /** The alpha component is `0`, `1`, or `0.` followed by at least one digit. */
  lemma AlphaTextExact(t: string)
    ensures (exists v :: WellFormedAlphaValue(v) && AlphaText(v) == t) <==>
      t == "0" || t == "1" || (|t| >= 3 && t[..2] == "0." && Every(IsDigit, t[2..]))
  {
    if |t| >= 3 && t[..2] == "0." && Every(IsDigit, t[2..]) {
      var v := Fraction(t[2..]);
      assert AlphaText(v) == t[..2] + t[2..] == t;
      assert WellFormedAlphaValue(v);
    }
    if t == "0" {
      assert AlphaText(Zero) == t;
    }
    if t == "1" {
      assert AlphaText(One) == t;
    }
    if v :| WellFormedAlphaValue(v) && AlphaText(v) == t {
      if v.Fraction? {
        assert t[..2] == "0." && t[2..] == v.decimals;
      }
    }
  }
}
