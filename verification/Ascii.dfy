/** Character classes. */
module Ascii {
  predicate IsDigit(c: char) {
    '0' <= c <= '9'
  }
}
