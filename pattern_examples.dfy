/**
 * Concrete inputs that pin down the edges of the five patterns of
 * `isValidColor`. Each rejection follows the parser step by step.
 */
module PatternExamples {
  import opened Wrappers
  import opened JsText
  import opened ColorSyntax

  /** `#` needs exactly three or six hex digits, in either case. */
  lemma HexRuleExamples()
    ensures HexPattern("#abc") && HexPattern("#A0b1C2")
    ensures !HexPattern("#abcd") && !HexPattern("#abcde") && !HexPattern("#abcdefa")
    ensures !HexPattern("abc") && !HexPattern("#ggg")
  {
    HexPatternExact("#abc");
    HexPatternExact("#A0b1C2");
    HexPatternExact("#abcd");
    HexPatternExact("#abcde");
    HexPatternExact("#abcdefa");
    HexPatternExact("abc");
    HexPatternExact("#ggg");
    assert "#ggg"[1..][0] == 'g';
  }

  /** `rgb` has no range check on its numbers. */
  lemma RgbAcceptsOutOfRange()
    ensures RgbPattern("rgb(999,999,999)")
  {
    var lit := Functional(Rgb, Triple("999", Arg("", "999"), Arg("", "999")), None);
    assert Render(lit) == "rgb(999,999,999)";
    MatchFunctionalOf(lit);
  }

  /** Any JavaScript whitespace may follow a comma. */
  lemma RgbAcceptsPaddingAfterComma()
    ensures RgbPattern("rgb(255, 0,\t0)")
  {
    var lit := Functional(Rgb, Triple("255", Arg(" ", "0"), Arg("\t", "0")), None);
    assert Render(lit) == "rgb(255, 0,\t0)";
    MatchFunctionalOf(lit);
  }

  /** A fractional alpha `0.` and digits. */
  lemma RgbaAcceptsFraction()
    ensures RgbaPattern("rgba(0,0,0, 0.5)")
  {
    var lit := Functional(Rgb, Triple("0", Arg("", "0"), Arg("", "0")), Some(Alpha(" ", Fraction("5"))));
    assert Render(lit) == "rgba(0,0,0, 0.5)";
    MatchFunctionalOf(lit);
  }

  /** `hsl` with its percent signs. */
  lemma HslAcceptsPercent()
    ensures HslPattern("hsl(120,50%,50%)")
  {
    var lit := Functional(Hsl, Triple("120", Arg("", "50"), Arg("", "50")), None);
    assert Render(lit) == "hsl(120,50%,50%)";
    MatchFunctionalOf(lit);
  }

  /** `hsla` with its percent signs and an alpha of `1`. */
  lemma HslaAcceptsOne()
    ensures HslaPattern("hsla(120, 50%, 50%, 1)")
  {
    var lit := Functional(Hsl, Triple("120", Arg(" ", "50"), Arg(" ", "50")), Some(Alpha(" ", One)));
    assert Render(lit) == "hsla(120, 50%, 50%, 1)";
    MatchFunctionalOf(lit);
  }

  /** No whitespace before the first component. */
  lemma RgbRejectsLeadingSpace()
    ensures !RgbPattern("rgb( 1,2,3)")
  {
    assert Expect("rgb(", "rgb( 1,2,3)") == Some(" 1,2,3)");
    assert [] + " 1,2,3)" == " 1,2,3)";
    SpanOf(IsDigit, [], " 1,2,3)");
    assert ParseNumber(" 1,2,3)") == None;
  }

  /** No whitespace before a comma. */
  lemma RgbRejectsSpaceBeforeComma()
    ensures !RgbPattern("rgb(1 ,2,3)")
  {
    assert Expect("rgb(", "rgb(1 ,2,3)") == Some("1 ,2,3)");
    assert "1" + " ,2,3)" == "1 ,2,3)";
    SpanOf(IsDigit, "1", " ,2,3)");
    assert ParseNumber("1 ,2,3)") == Some(Parsed("1", " ,2,3)"));
    assert Expect(",", " ,2,3)") == None;
    assert ParseTriple("1 ,2,3)", "") == None;
  }

  /** No whitespace before the closing parenthesis. */
  lemma RgbRejectsSpaceBeforeParen()
    ensures !RgbPattern("rgb(1,2,3 )")
  {
    assert Expect("rgb(", "rgb(1,2,3 )") == Some("1,2,3 )");
    var t := Triple("1", Arg("", "2"), Arg("", "3"));
    assert RenderTriple(t, "") + " )" == "1,2,3 )";
    ParseTripleOf(t, "", " )");
  }

  /** At most three digits per component. */
  lemma RgbRejectsFourDigits()
    ensures !RgbPattern("rgb(1000,0,0)")
  {
    assert Expect("rgb(", "rgb(1000,0,0)") == Some("1000,0,0)");
    assert "1000" + ",0,0)" == "1000,0,0)";
    SpanOf(IsDigit, "1000", ",0,0)");
  }

  /** Exactly three components. */
  lemma RgbRejectsTwoComponents()
    ensures !RgbPattern("rgb(1,2)")
  {
    assert Expect("rgb(", "rgb(1,2)") == Some("1,2)");
    assert "1" + ",2)" == "1,2)";
    ParseNumberOf("1", ",2)");
    assert Expect(",", ",2)") == Some("2)");
    assert RenderArg(Arg("", "2"), "") + ")" == "2)";
    ParseArgOf(Arg("", "2"), "", ")");
    assert Expect(",", ")") == None;
    assert ParseTriple("1,2)", "") == None;
  }

  // The remaining rejections are assembled from facts proved one at a time.

  /** A functional rule fails when its components do not parse. */
  lemma RejectedInComponents(s: string, n: Notation, withAlpha: bool, body: string)
    requires Expect(Opening(n, withAlpha), s) == Some(body)
    requires ParseTriple(body, Unit(n)) == None
    ensures MatchFunctional(s, n, withAlpha) == None
  {
  }

  /** An alpha rule fails when what follows the components is not a well-formed alpha and `)`. */
  lemma RejectedInAlpha(s: string, n: Notation, body: string, t: Parsed<Triple>)
    requires Expect(Opening(n, true), s) == Some(body)
    requires ParseTriple(body, Unit(n)) == Some(t)
    requires ParseAlpha(t.rest).None? || ParseAlpha(t.rest).value.rest != ")"
    ensures MatchFunctional(s, n, true) == None
  {
  }

  lemma PercentComponentsFact()
    ensures ParseTriple("120,50%,50%)", "") == None
  {
    assert "120" + ",50%,50%)" == "120,50%,50%)";
    ParseNumberOf("120", ",50%,50%)");
    assert Expect(",", ",50%,50%)") == Some("50%,50%)");
    assert RenderArg(Arg("", "50"), "") + "%,50%)" == "50%,50%)";
    ParseArgOf(Arg("", "50"), "", "%,50%)");
    assert Expect(",", "%,50%)") == None;
  }

  /** A percent sign is not part of `rgb`. */
  lemma RgbRejectsPercent()
    ensures !RgbPattern("rgb(120,50%,50%)")
  {
    assert Expect(Opening(Rgb, false), "rgb(120,50%,50%)") == Some("120,50%,50%)");
    PercentComponentsFact();
    RejectedInComponents("rgb(120,50%,50%)", Rgb, false, "120,50%,50%)");
  }

  lemma MissingPercentFact()
    ensures ParseTriple("120,50,50)", "%") == None
  {
    assert "120" + ",50,50)" == "120,50,50)";
    ParseNumberOf("120", ",50,50)");
    assert Expect(",", ",50,50)") == Some("50,50)");
    assert [] + "50,50)" == "50,50)";
    SpanOf(IsJsWhitespace, [], "50,50)");
    assert "50" + ",50)" == "50,50)";
    ParseNumberOf("50", ",50)");
    assert Expect("%", ",50)") == None;
    assert ParseArg("50,50)", "%") == None;
  }

  /** `hsl` needs `%` after the second component. */
  lemma HslRejectsMissingPercent()
    ensures !HslPattern("hsl(120,50,50)")
  {
    assert Expect(Opening(Hsl, false), "hsl(120,50,50)") == Some("120,50,50)");
    MissingPercentFact();
    RejectedInComponents("hsl(120,50,50)", Hsl, false, "120,50,50)");
  }

  /** The components `0,0,0` followed by `rest`. */
  lemma ZeroComponentsFact(rest: string)
    requires ")" <= rest || "," <= rest
    ensures ParseTriple("0,0,0" + rest, "") == Some(Parsed(Triple("0", Arg("", "0"), Arg("", "0")), rest))
  {
    var t := Triple("0", Arg("", "0"), Arg("", "0"));
    assert RenderTriple(t, "") == "0,0,0";
    ParseTripleOf(t, "", rest);
  }

  lemma AlphaFact(text: string)
    requires text == ".5)" || text == "1.0)" || text == "0.)"
    ensures ParseAlpha("," + text).None? || ParseAlpha("," + text).value.rest != ")"
  {
    assert Expect(",", "," + text) == Some(text);
    assert [] + text == text;
    SpanOf(IsJsWhitespace, [], text);
    if text == "0.)" {
      assert text[2..] == ")";
      assert [] + ")" == ")";
      SpanOf(IsDigit, [], ")");
    }
  }

  /** The alpha component may not start with the decimal point. */
  lemma RgbaRejectsLeadingPoint()
    ensures !RgbaPattern("rgba(0,0,0,.5)")
  {
    assert Expect(Opening(Rgb, true), "rgba(0,0,0,.5)") == Some("0,0,0,.5)");
    assert "0,0,0" + ",.5)" == "0,0,0,.5)";
    ZeroComponentsFact(",.5)");
    AlphaFact(".5)");
    RejectedInAlpha("rgba(0,0,0,.5)", Rgb, "0,0,0" + ",.5)", Parsed(Triple("0", Arg("", "0"), Arg("", "0")), ",.5)"));
  }

  /** `1` may not carry decimals. */
  lemma RgbaRejectsOnePointZero()
    ensures !RgbaPattern("rgba(0,0,0,1.0)")
  {
    assert Expect(Opening(Rgb, true), "rgba(0,0,0,1.0)") == Some("0,0,0,1.0)");
    assert "0,0,0" + ",1.0)" == "0,0,0,1.0)";
    ZeroComponentsFact(",1.0)");
    AlphaFact("1.0)");
    RejectedInAlpha("rgba(0,0,0,1.0)", Rgb, "0,0,0" + ",1.0)", Parsed(Triple("0", Arg("", "0"), Arg("", "0")), ",1.0)"));
  }

  /** `0.` needs at least one decimal. */
  lemma RgbaRejectsEmptyDecimals()
    ensures !RgbaPattern("rgba(0,0,0,0.)")
  {
    assert Expect(Opening(Rgb, true), "rgba(0,0,0,0.)") == Some("0,0,0,0.)");
    assert "0,0,0" + ",0.)" == "0,0,0,0.)";
    ZeroComponentsFact(",0.)");
    AlphaFact("0.)");
    RejectedInAlpha("rgba(0,0,0,0.)", Rgb, "0,0,0" + ",0.)", Parsed(Triple("0", Arg("", "0"), Arg("", "0")), ",0.)"));
  }
}
