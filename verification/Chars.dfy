/** The blanks of C: what isspace accepts. */
module Chars {

  predicate IsSpace(c: char) {
    c == ' ' || (9 as char <= c <= 13 as char)
  }
}
