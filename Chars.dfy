/**
 * The character classes the two programs rely on. ECMAScript and Python disagree on
 * what counts as white space and on what ends a line, so both sets are written out.
 */
module Chars {

  /** ECMAScript WhiteSpace or LineTerminator: what the regular-expression class `\s`
      matches and what `String.prototype.trim` removes. */
  predicate IsJsSpace(c: char) {
    c == '\t' || c == '\n' || c == '\U{000B}' || c == '\U{000C}' || c == '\r' || c == ' '
    || c == '\U{00A0}' || c == '\U{1680}' || ('\U{2000}' <= c <= '\U{200A}')
    || c == '\U{2028}' || c == '\U{2029}' || c == '\U{202F}' || c == '\U{205F}'
    || c == '\U{3000}' || c == '\U{FEFF}'
  }

  /** ECMAScript LineTerminator: the characters the regular-expression `.` does not match. */
  predicate IsJsLineTerminator(c: char) {
    c == '\n' || c == '\r' || c == '\U{2028}' || c == '\U{2029}'
  }

  /** Python's `str.isspace()`: what `str.strip()` with no argument removes. */
  predicate IsPySpace(c: char) {
    ('\t' <= c <= '\r') || ('\U{001C}' <= c <= '\U{001F}') || c == ' '
    || c == '\U{0085}' || c == '\U{00A0}' || c == '\U{1680}' || ('\U{2000}' <= c <= '\U{200A}')
    || c == '\U{2028}' || c == '\U{2029}' || c == '\U{202F}' || c == '\U{205F}' || c == '\U{3000}'
  }

  /** The characters at which Python's `str.splitlines()` ends a line (`\r\n` counts once). */
  predicate IsPyLineBreak(c: char) {
    ('\n' <= c <= '\r') || ('\U{001C}' <= c <= '\U{001E}')
    || c == '\U{0085}' || c == '\U{2028}' || c == '\U{2029}'
  }

  /** Whose notion of white space a stripping operation follows. */
  datatype Dialect = Js | Py

  /** White space as `dialect` defines it. */
  predicate IsSpaceIn(dialect: Dialect, c: char) {
    match dialect
    case Js => IsJsSpace(c)
    case Py => IsPySpace(c)
  }

  /** An ASCII decimal digit, the class `[0-9]`. */
  predicate IsDigit(c: char) {
    '0' <= c <= '9'
  }

  /** The two separators the field labels accept: ASCII `:` and the full-width `：`. */
  predicate IsColon(c: char) {
    c == ':' || c == '\U{FF1A}'
  }
}
