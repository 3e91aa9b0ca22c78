/** The character classes of `util::detail`. A `char` stands for one byte; all bytes from 0x7f on
    are in the same classes whether or not the compiler's `char` is signed. */
module UriChars {

  predicate IsDigit(c: char) { '0' <= c <= '9' }

  predicate IsAlpha(c: char) { 'a' <= c <= 'z' || 'A' <= c <= 'Z' }

  predicate IsUnreserved(c: char) {
    IsAlpha(c) || IsDigit(c) || c == '-' || c == '.' || c == '_' || c == '~' || c as int <= 0x20 || 0x7f <= c as int
  }

  predicate IsUchar(c: char) {
    IsUnreserved(c) || c == ';' || c == '?' || c == '&' || c == '='
  }

  predicate IsHsegment(c: char) {
    IsUchar(c) || c == ';' || c == ':' || c == '@' || c == '&' || c == '='
  }

  predicate IsSubdelim(c: char) {
    c == '!' || c == '$' || c == '\'' || c == '(' || c == ')' || c == '*' || c == '+' || c == ',' || c == '='
  }

  predicate IsReserved(c: char) {
    c == ';' || c == '/' || c == '?' || c == ':' || c == '@' || c == '&' || c == '=' || c == '+' || c == '$' || c == ','
  }

  predicate IsMark(c: char) {
    c == '-' || c == '_' || c == '.' || c == '!' || c == '~' || c == '*' || c == '\'' || c == '(' || c == ')'
  }
}
