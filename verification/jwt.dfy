/** The two token-extraction helpers of the JWT utility: reading the token
    from an `Authorization: Bearer` header and reading a cookie's value. A
    Java null is `None`. Signing, parsing and validation are not modelled. */
module Jwt {
  import opened Wrappers
  import opened Text

  const BearerPrefix: string := "Bearer "

  /** The length the code strips, kept as its own constant as in the source. */
  const BearerPrefixLength: nat := 7

  datatype Cookie = Cookie(name: string, value: string)

  /** The stripped length is exactly the prefix's length. */
  lemma PrefixLengthAgrees()
    ensures |BearerPrefix| == BearerPrefixLength
  {
  }

  /** `extractJwtFromBearerToken`: the header minus its prefix when it
      starts with the exact, case-sensitive "Bearer " (space included). */
  function ExtractJwtFromBearer(header: Option<string>): (r: Option<string>)
    ensures r.Some? <==> header.Some? && StartsWith(header.value, BearerPrefix)
    ensures r.Some? ==> header.value == BearerPrefix + r.value
  {
    if header.Some? && StartsWith(header.value, BearerPrefix) then
      assert header.value == header.value[..BearerPrefixLength] + header.value[BearerPrefixLength..];
      Some(header.value[BearerPrefixLength..])
    else None
  }

  /** Round trip: any token behind the prefix comes back unchanged. */
  lemma BearerRoundTrip(token: string)
    ensures ExtractJwtFromBearer(Some(BearerPrefix + token)) == Some(token)
  {
  }

  /** A header in another case, or without the space, carries no token;
      the exact prefix with nothing after it carries the empty token. */
  lemma BearerIsCaseSensitive()
    ensures ExtractJwtFromBearer(Some("bearer abc")) == None
    ensures ExtractJwtFromBearer(Some("BEARER abc")) == None
    ensures ExtractJwtFromBearer(Some("Bearerabc")) == None
    ensures ExtractJwtFromBearer(Some("Bearer")) == None
    ensures ExtractJwtFromBearer(None) == None
    ensures ExtractJwtFromBearer(Some("Bearer ")) == Some("")
  {
    assert "bearer abc"[0] != BearerPrefix[0];
    assert "BEARER abc"[1] != BearerPrefix[1];
    assert "Bearerabc"[6] != BearerPrefix[6];
  }

  /** `extractCookieValue`. */
  function ExtractCookieValue(cookie: Option<Cookie>): (r: Option<string>)
    ensures r.Some? <==> cookie.Some?
    ensures r.Some? ==> r.value == cookie.value.value
  {
    if cookie.Some? then Some(cookie.value.value) else None
  }
}
