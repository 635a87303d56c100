/** The registered JWT claims the core reads (section 4.1 of RFC 7519) and
    the unverified parse the core performs with `SignedJWT.parse`. */
module JwtClaims {
  import opened Common

  /** `iss`, `aud`, `exp` and `nbf`; times are in seconds since the epoch. */
  datatype Claims = Claims(
    iss: Option<string>,
    aud: Option<seq<string>>,
    exp: Option<int>,
    nbf: Option<int>)

  /** `SignedJWT.parse(token).getJWTClaimsSet()`: the claims, or the message
      of the `ParseException`. No signature is checked. */
  type JwtParser = string -> Result<Claims, string>
}
