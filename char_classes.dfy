/** The character classes of JavaScript regular expressions (without the `u` flag). */
module CharClasses {

  /** `\w`: ASCII letters, digits and the underscore. */
  predicate IsWordChar(c: char) {
    'a' <= c <= 'z' || 'A' <= c <= 'Z' || '0' <= c <= '9' || c == '_'
  }

  /** `\s`: the white space and line terminator characters. */
  predicate IsSpace(c: char) {
    (9 <= c as int <= 13) || c == ' ' || c as int == 0xA0 || c as int == 0x1680
      || (0x2000 <= c as int <= 0x200A) || c as int == 0x2028 || c as int == 0x2029
      || c as int == 0x202F || c as int == 0x205F || c as int == 0x3000 || c as int == 0xFEFF
  }

  /** `[0-9]`. */
  predicate IsDigit(c: char) {
    '0' <= c <= '9'
  }
}
