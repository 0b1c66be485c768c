/** The character classes of JavaScript regular expressions that the server's
    patterns use. Strings are sequences of `char`, each a Unicode scalar
    value; JavaScript's own strings are sequences of UTF-16 code units. */
module JsText {

  /** `\w` in a pattern without the `u` flag: `[A-Za-z0-9_]`. The `i` flag does
      not widen it, because case folding without `u` never maps a non-ASCII
      character onto an ASCII one. */
  predicate IsWordChar(c: char) {
    ('a' <= c <= 'z') || ('A' <= c <= 'Z') || ('0' <= c <= '9') || c == '_'
  }

  /** The ECMAScript LineTerminator characters: what `.` does not match. */
  predicate IsLineTerminator(c: char) {
    c == '\n' || c == '\r' || c == '\U{2028}' || c == '\U{2029}'
  }

  /** `\s`: the ECMAScript WhiteSpace characters (tab, vertical tab, form feed,
      space, no-break space, byte order mark and the other Unicode space
      separators U+1680, U+2000-U+200A, U+202F, U+205F, U+3000) and the line
      terminators. */
  predicate IsWhitespace(c: char) {
    || c == '\t' || c == '\U{B}' || c == '\U{C}' || c == ' '
    || c == '\U{A0}' || c == '\U{FEFF}' || c == '\U{1680}'
    || ('\U{2000}' <= c <= '\U{200A}')
    || c == '\U{202F}' || c == '\U{205F}' || c == '\U{3000}'
    || IsLineTerminator(c)
  }

  /** `lit` occurs in `s` starting at index `i`. */
  predicate StartsWithAt(s: string, i: nat, lit: string) {
    i + |lit| <= |s| && s[i..i + |lit|] == lit
  }

  /** `String.prototype.startsWith`. */
  predicate StartsWith(s: string, lit: string) {
    StartsWithAt(s, 0, lit)
  }
}
