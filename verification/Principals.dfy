/** The alphabet of tenant and user ids (kernel-data/src/auth_context.rs). */
module Principals {
  predicate PrincipalChar(c: char) {
    'a' <= c <= 'z' || 'A' <= c <= 'Z' || '0' <= c <= '9' || c == '-' || c == '_' || c == '.'
  }

  predicate ValidPrincipal(s: string) {
    0 < |s| <= 128 && forall c :: c in s ==> PrincipalChar(c)
  }
}
