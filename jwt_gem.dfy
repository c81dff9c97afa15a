/**
 * The two entry points of the `jwt` gem that the filter calls, JWT.encode
 * and JWT.decode, taken as parameters: their base64url, JSON and HMAC work
 * is not modelled. What the gem promises about them is stated as
 * predicates that lemmas take as hypotheses.
 */
module JwtGem {
  import opened Wrappers
  import opened RubyData

  /** The HMAC algorithms the filter signs with (`supported_hmacs`). */
  datatype Hmac = HS256 | HS384 | HS512

  /** How a call `JWT.decode(token, key, verify)` ends. */
  datatype Decoding =
    | Decoded(payload: Value)  // it returns `[payload, header]`; the filter only uses the payload
    | VerificationFailed       // it raises JWT::VerificationError
    | DecodeFailed             // it raises any other StandardError (malformed token, bad JSON, expired claim, ...)

  /**
   * The gem as the filter sees it. `encode(payload, key, alg)` is None
   * when JWT.encode raises a StandardError.
   */
  datatype Codec = Codec(
    encode: (Value, Option<string>, Hmac) -> Option<string>,
    decode: (Value, Option<string>, bool) -> Decoding)

  /** With `verify` false the gem checks no signature, so it never raises JWT::VerificationError. */
  ghost predicate SkipsVerification(codec: Codec) {
    forall token, key :: codec.decode(token, key, false) != VerificationFailed
  }

  /**
   * A token the gem produced from a Hash payload decodes without
   * verification to that payload: no signature or claim is checked then.
   * (A falsy payload such as `nil` or `false` is rejected by the decode as
   * having too few segments, so only Hash payloads are promised.)
   */
  ghost predicate UnverifiedRoundTrips(codec: Codec) {
    forall payload: Value, key, alg ::
      payload.Hash? && codec.encode(payload, key, alg).Some? ==>
        codec.decode(Str(codec.encode(payload, key, alg).value), key, false) == Decoded(payload)
  }

  /**
   * The verifying decode accepts the token made from this one payload under
   * `key`: its signature matches and its registered claims (`exp`, `nbf`,
   * ...) pass, which for time claims depends on the clock at decoding.
   */
  ghost predicate VerifiedDecodeAccepts(codec: Codec, payload: Value, key: Option<string>, alg: Hmac) {
    codec.encode(payload, key, alg).Some? ==>
      codec.decode(Str(codec.encode(payload, key, alg).value), key, true) == Decoded(payload)
  }
}
