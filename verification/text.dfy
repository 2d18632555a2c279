/** String helpers with Java's meaning. */
module Text {
  /** `String.startsWith`: a character-by-character prefix test. */
  predicate StartsWith(s: string, prefix: string) {
    |prefix| <= |s| && s[..|prefix|] == prefix
  }
}
