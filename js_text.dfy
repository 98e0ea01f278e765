/**
 * The JavaScript character classes and string helpers the colour page relies on:
 * the regular-expression classes `\d`, `[A-Fa-f0-9]` and `\s`, and
 * `String.prototype.trim`. `\s` and `trim` use the same set of characters,
 * the WhiteSpace and LineTerminator productions of ECMA-262.
 */
module JsText {

  /** `\d`: ASCII digits only. */
  predicate IsDigit(c: char) {
    '0' <= c <= '9'
  }

  /** `[A-Fa-f0-9]`. */
  predicate IsHexDigit(c: char) {
    IsDigit(c) || 'a' <= c <= 'f' || 'A' <= c <= 'F'
  }

  /** `\s`, and the characters `trim` removes. */
  predicate IsJsWhitespace(c: char) {
    c == '\t' || c == '\n' || c == '\U{B}' || c == '\U{C}' || c == '\r' || c == ' '
    || c == '\U{A0}' || c == '\U{1680}' || '\U{2000}' <= c <= '\U{200A}'
    || c == '\U{2028}' || c == '\U{2029}' || c == '\U{202F}' || c == '\U{205F}'
    || c == '\U{3000}' || c == '\U{FEFF}'
  }

  /** Every character of `s` is in the class `keep`. */
  predicate Every(keep: char -> bool, s: string) {
    forall i :: 0 <= i < |s| ==> keep(s[i])
  }

  /** `s` does not begin with a character of the class `keep`. */
  predicate StopsAt(keep: char -> bool, s: string) {
    s == [] || !keep(s[0])
  }

  /**
   * Greedy match of `keep*` at the start of `s`: the longest prefix of `s`
   * in the class, and what follows it.
   */
  function Span(keep: char -> bool, s: string): (r: (string, string))
    ensures r.0 + r.1 == s
    ensures Every(keep, r.0)
    ensures StopsAt(keep, r.1)
  {
    if s != [] && keep(s[0]) then
      var tail := Span(keep, s[1..]);
      ([s[0]] + tail.0, tail.1)
    else
      ([], s)
  }

  /** A run of the class followed by a character outside it is split exactly there. */
  lemma {:induction false} SpanOf(keep: char -> bool, run: string, rest: string)
    requires Every(keep, run) && StopsAt(keep, rest)
    ensures Span(keep, run + rest) == (run, rest)
  {
    if run == [] {
      assert run + rest == rest;
    } else {
      assert (run + rest)[0] == run[0];
      assert (run + rest)[1..] == run[1..] + rest;
      SpanOf(keep, run[1..], rest);
      assert [run[0]] + run[1..] == run;
    }
  }

  /**
   * `s.trim()`: leading and trailing whitespace removed. Its properties are
   * the lemmas below, so that callers never unfold it more than they need.
   */
  function Trim(s: string): string
    decreases |s|
  {
    if s != [] && IsJsWhitespace(s[0]) then Trim(s[1..])
    else if s != [] && IsJsWhitespace(s[|s| - 1]) then Trim(s[..|s| - 1])
    else s
  }

  /**
   * `trim` is exactly the removal of whitespace around a core that neither
   * starts nor ends with whitespace.
   */
  lemma {:induction false} TrimOf(pre: string, core: string, post: string)
    requires Every(IsJsWhitespace, pre) && Every(IsJsWhitespace, post)
    requires core == [] || (!IsJsWhitespace(core[0]) && !IsJsWhitespace(core[|core| - 1]))
    ensures Trim(pre + core + post) == core
    decreases |pre| + |post|
  {
    var s := pre + core + post;
    if pre != [] {
      assert s[0] == pre[0];
      assert s[1..] == pre[1..] + core + post;
      TrimOf(pre[1..], core, post);
    } else if core == [] {
      assert s == post;
      if post != [] {
        assert s[1..] == [] + [] + post[1..];
        TrimOf([], [], post[1..]);
      }
    } else {
      assert s == core + post;
      assert s[0] == core[0];
      if post != [] {
        assert s[|s| - 1] == post[|post| - 1];
        assert s[..|s| - 1] == [] + core + post[..|post| - 1];
        TrimOf([], core, post[..|post| - 1]);
      } else {
        assert s[|s| - 1] == core[|core| - 1];
      }
    }
  }

  /** `s.trim()` is empty exactly when `s` is all whitespace, and otherwise is bounded by non-whitespace. */
  lemma {:induction false} TrimShape(s: string)
    ensures Trim(s) == [] <==> Every(IsJsWhitespace, s)
    ensures Trim(s) != [] ==> !IsJsWhitespace(Trim(s)[0]) && !IsJsWhitespace(Trim(s)[|Trim(s)| - 1])
    decreases |s|
  {
    if s != [] && IsJsWhitespace(s[0]) {
      TrimShape(s[1..]);
      assert s == [s[0]] + s[1..];
    } else if s != [] && IsJsWhitespace(s[|s| - 1]) {
      TrimShape(s[..|s| - 1]);
      assert s == s[..|s| - 1] + [s[|s| - 1]];
    }
  }

  /** `s` is `s.trim()` with whitespace around it. */
  lemma {:induction false} TrimSplit(s: string) returns (pre: string, post: string)
    ensures s == pre + Trim(s) + post
    ensures Every(IsJsWhitespace, pre) && Every(IsJsWhitespace, post)
    decreases |s|
  {
    if s != [] && IsJsWhitespace(s[0]) {
      var p, q := TrimSplit(s[1..]);
      pre, post := [s[0]] + p, q;
      assert s == [s[0]] + s[1..];
    } else if s != [] && IsJsWhitespace(s[|s| - 1]) {
      var p, q := TrimSplit(s[..|s| - 1]);
      pre, post := p, q + [s[|s| - 1]];
      assert s == s[..|s| - 1] + [s[|s| - 1]];
    } else {
      pre, post := [], [];
    }
  }

  /** Trimming twice is trimming once. */
  lemma TrimIdempotent(s: string)
    ensures Trim(Trim(s)) == Trim(s)
  {
    TrimShape(s);
    var t := Trim(s);
    assert [] + t + [] == t;
    TrimOf([], t, []);
  }
}
