/**
 * `isValidColor` and `getDisplayColor` of the colour page, and the preview
 * swatch of the add form built on them.
 *
 * After its five regular expressions, `isValidColor` asks the browser: it
 * assigns the string to the `color` property of a fresh element's style and
 * accepts it when the property does not read back empty. That parser is
 * outside the model; it is the parameter `css`, and every result here holds
 * for every such parser.
 */
module DisplayColor {
  import opened JsText
  import opened ColorSyntax

  /** Whether the browser's CSS parser keeps a string assigned to `style.color`. */
  type CssColorParser = string -> bool

  /** `isValidColor`: the five patterns in order, then the browser. */
  predicate IsValidColor(s: string, css: CssColorParser) {
    MatchesAnyPattern(s) || css(s)
  }

  /** The neutral grey shown for anything that is not a colour. */
  const Fallback: string := "#6b7280"

  /** `getDisplayColor`. */
  function GetDisplayColor(s: string, css: CssColorParser): string {
    if IsValidColor(s, css) then s
    else if BareHex(s) then "#" + s
    else Fallback
  }

  /** The swatch of the add form shows this light grey while the input is blank. */
  const EmptyPreview: string := "#f3f4f6"

  /** The add form's swatch: blank input shows `EmptyPreview`, otherwise the display colour of the trimmed input. */
  function AddPreview(newColor: string, css: CssColorParser): string {
    var t := Trim(newColor);
    if t == "" then EmptyPreview else GetDisplayColor(t, css)
  }

  /** `#` and any three or six hex digits is accepted by the first pattern. */
  lemma HashBareHexIsValid(h: string, css: CssColorParser)
    requires BareHex(h)
    ensures HexPattern("#" + h) && IsValidColor("#" + h, css)
  {
    MatchHexOf(HexLiteral(h));
  }

  /** The text of a literal starts with `#`, `r` or `h`. */
  lemma RenderStart(lit: ColorLiteral)
    ensures |Render(lit)| > 0
    ensures Render(lit)[0] == '#' || Render(lit)[0] == 'r' || Render(lit)[0] == 'h'
  {
    match lit
    case HexLiteral(h) =>
      assert Render(lit)[0] == '#';
    case Functional(n, t, alpha) =>
      var open, args := Opening(n, alpha.Some?), RenderTriple(t, Unit(n));
      var tail := if alpha.Some? then RenderAlpha(alpha.value) else "";
      assert open[0] == NotationName(n)[0];
      assert (open + args)[0] == open[0];
      assert (open + args + tail)[0] == open[0];
      assert Render(lit) == open + args + tail + ")";
  }

  /** Whatever the five patterns accept starts with `#`, `r` or `h`. */
  lemma PatternsStartWithMark(s: string)
    ensures MatchesAnyPattern(s) ==> s != [] && (s[0] == '#' || s[0] == 'r' || s[0] == 'h')
  {
    PatternLanguage(s);
    if lit :| WellFormed(lit) && Render(lit) == s {
      RenderStart(lit);
    }
  }

  /** None of the patterns accepts a bare hex string, since `#`, `r` and `h` are not hex digits. */
  lemma NoPatternAcceptsBareHex(s: string)
    requires BareHex(s)
    ensures !MatchesAnyPattern(s)
  {
    PatternsStartWithMark(s);
  }

  /** Case 1: a valid colour is displayed as written. */
  lemma DisplayOfValid(s: string, css: CssColorParser)
    requires IsValidColor(s, css)
    ensures GetDisplayColor(s, css) == s
  {
  }

  /**
   * Case 2: three or six bare hex digits get a `#` in front, unless the
   * browser already accepts them as they are. No pattern can accept them.
   */
  lemma DisplayOfBareHex(s: string, css: CssColorParser)
    requires BareHex(s)
    ensures GetDisplayColor(s, css) == if css(s) then s else "#" + s
  {
    NoPatternAcceptsBareHex(s);
  }

  /** Case 3: everything else is shown as the fixed grey. */
  lemma DisplayOfOther(s: string, css: CssColorParser)
    requires !IsValidColor(s, css) && !BareHex(s)
    ensures GetDisplayColor(s, css) == Fallback
  {
  }

  /** The displayed colour is always one `isValidColor` accepts, whatever the browser does. */
  lemma DisplayColorIsValid(s: string, css: CssColorParser)
    ensures HexPattern(GetDisplayColor(s, css)) || GetDisplayColor(s, css) == s
    ensures IsValidColor(GetDisplayColor(s, css), css)
  {
    if !IsValidColor(s, css) {
      if BareHex(s) {
        HashBareHexIsValid(s, css);
      } else {
        HashBareHexIsValid("6b7280", css);
        assert Fallback == "#" + "6b7280";
      }
    }
  }

  /** A string is displayed unchanged exactly when it is a valid colour. */
  lemma DisplayFixpoints(s: string, css: CssColorParser)
    ensures GetDisplayColor(s, css) == s <==> IsValidColor(s, css)
  {
    DisplayColorIsValid(s, css);
  }

  /** Resolving a display colour again changes nothing. */
  lemma DisplayIdempotent(s: string, css: CssColorParser)
    ensures GetDisplayColor(GetDisplayColor(s, css), css) == GetDisplayColor(s, css)
  {
    DisplayColorIsValid(s, css);
  }

  /** The add form's swatch always shows a colour `isValidColor` accepts. */
  lemma AddPreviewIsValid(newColor: string, css: CssColorParser)
    ensures IsValidColor(AddPreview(newColor, css), css)
  {
    var t := Trim(newColor);
    if t == "" {
      HashBareHexIsValid("f3f4f6", css);
      assert EmptyPreview == "#" + "f3f4f6";
    } else {
      DisplayColorIsValid(t, css);
    }
  }

  /** Surrounding whitespace does not change the add form's swatch. */
  lemma AddPreviewIgnoresPadding(pre: string, newColor: string, post: string, css: CssColorParser)
    requires Every(IsJsWhitespace, pre) && Every(IsJsWhitespace, post)
    ensures AddPreview(pre + newColor + post, css) == AddPreview(newColor, css)
  {
    var t := Trim(newColor);
    TrimShape(newColor);
    var p, q := TrimSplit(newColor);
    var lead, trail := pre + p, q + post;
    assert Every(IsJsWhitespace, lead) && Every(IsJsWhitespace, trail);
    assert pre + newColor + post == lead + t + trail;
    TrimOf(lead, t, trail);
  }

  /** A word the browser does not know falls back to the grey; six bare hex digits get their `#`. */
  lemma DisplayExamples(css: CssColorParser)
    requires !css("notacolor") && !css("ff0000")
    ensures GetDisplayColor("notacolor", css) == Fallback
    ensures GetDisplayColor("ff0000", css) == "#ff0000"
  {
    PatternsStartWithMark("notacolor");
    assert !BareHex("notacolor");
    DisplayOfBareHex("ff0000", css);
  }
}
