/** The characters of placeholder names, as the blueprint validator, the renderer and the port dictionary use them. */
module TokenNames {
  predicate IsUpper(c: char) {
    'A' <= c <= 'Z'
  }

  predicate IsDigit(c: char) {
    '0' <= c <= '9'
  }

  predicate IsTokenChar(c: char) {
    IsUpper(c) || IsDigit(c) || c == '_'
  }

  /** `[A-Z][A-Z0-9_]*` */
  predicate IsName(t: string) {
    t != "" && IsUpper(t[0]) && forall k | 0 <= k < |t| :: IsTokenChar(t[k])
  }
}
