/**
 * Character classes used by both lexers. The source calls the C library's
 * `isspace` and `isalnum`; in the C locale these are the ASCII classes below,
 * and the source's `isAlphanumeric` adds the underscore.
 */
module Chars {

  /** `isspace` in the C locale: space, tab, newline, vertical tab, form feed, carriage return. */
  predicate IsSpace(c: char) {
    c == ' ' || c == '\t' || c == '\n' || c == '\U{0B}' || c == '\U{0C}' || c == '\r'
  }

  predicate IsDigit(c: char) {
    '0' <= c <= '9'
  }

  predicate IsLetter(c: char) {
    ('a' <= c <= 'z') || ('A' <= c <= 'Z')
  }

  /** `isalnum(c) != 0 || c == "_"` */
  predicate IsAlphanumeric(c: char) {
    IsLetter(c) || IsDigit(c) || c == '_'
  }
}
