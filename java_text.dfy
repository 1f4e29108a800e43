/**
 * The two notions of "blank" text the library relies on: java.lang.String.trim,
 * which strips every character at or below U+0020, and Spring's
 * StringUtils.hasText, which looks for a character that
 * java.lang.Character.isWhitespace rejects.
 */
module JavaText {

  /** java.lang.Character.isWhitespace for a UTF-16 code unit. */
  predicate IsWhitespace(c: char)
  {
    var u := c as int;
    // ASCII tab, line feed, vertical tab, form feed, carriage return and the four separators
    (9 <= u <= 13) || (28 <= u <= 31) || u == 32
    // Unicode space, line and paragraph separators, except the non-breaking U+00A0, U+2007, U+202F
    || u == 0x1680 || (0x2000 <= u <= 0x2006) || (0x2008 <= u <= 0x200A)
    || u == 0x2028 || u == 0x2029 || u == 0x205F || u == 0x3000
  }

  /** Spring's StringUtils.hasText: non-null and holding a non-whitespace character. */
  predicate HasText(s: string)
  {
    exists i :: 0 <= i < |s| && !IsWhitespace(s[i])
  }

  /** java.lang.String.trim: drops leading and trailing characters at or below U+0020. */
  function Trim(s: string): (r: string)
    ensures |r| <= |s|
    ensures r == [] <==> forall i :: 0 <= i < |s| ==> s[i] <= ' '
    ensures r != [] ==> ' ' < r[0] && ' ' < r[|r| - 1]
    decreases |s|
  {
    if s == [] then []
    else if s[0] <= ' ' then Trim(s[1..])
    else if s[|s| - 1] <= ' ' then Trim(s[..|s| - 1])
    else s
  }
}
