/** Session tokens: what `generateToken` signs and what verification
    accepts. Signing is idealised. A signed token records the key that
    signed it, and the compact string form is an abstract codec. Times are
    in seconds, as in the `iat` and `exp` claims of RFC 7519. */
module Token {
  import opened Common

  /** The private claims `generateToken` embeds. */
  datatype Claims = Claims(userId: nat, username: string, role: string)

  /** The claim set: the private claims plus the issued-at and expiry
      times of section 4.1.6 and section 4.1.4 of RFC 7519. */
  datatype Payload = Payload(claims: Claims, iat: int, exp: int)

  /** A signed token: its payload and the key that signed it. */
  datatype Jws = Jws(payload: Payload, key: string)

  /** The compact serialisation: a token's string form and its parser. */
  datatype Codec = Codec(encode: Jws -> string, decode: string -> Option<Jws>)

  /** A faithful compact form: parsing what was encoded gives it back, and
      an encoded token is non-empty and holds no space (the JWS compact
      serialisation of section 7.1 of RFC 7515 uses only base64url
      characters and dots). */
  ghost predicate Compact(codec: Codec) {
    forall t :: codec.decode(codec.encode(t)) == Some(t)
                && codec.encode(t) != "" && ' ' !in codec.encode(t)
  }

  /** `expiresIn: "24h"`, in seconds. */
  const Lifetime: int := 24 * 60 * 60

  const DefaultSecret := "your-secret-key"

  /** The signing key: the `JWT_SECRET` setting when it is non-empty,
      otherwise the built-in default. Both signing and verification use it. */
  function Secret(setting: Option<string>): (key: string)
    ensures key != ""
    ensures setting.Some? && setting.value != "" ==> key == setting.value
    ensures setting.None? || setting.value == "" ==> key == DefaultSecret
  {
    if setting.Some? && setting.value != "" then setting.value else DefaultSecret
  }

  /** `generateToken(userId, username, role)` at time `now`. */
  function Issue(claims: Claims, key: string, now: int): (t: Jws)
    ensures t.payload.claims == claims && t.key == key
    ensures t.payload.iat == now && t.payload.exp - t.payload.iat == Lifetime
  {
    Jws(Payload(claims, now, now + Lifetime), key)
  }

  /** What `jwt.verify` reports. */
  datatype Verdict = Verified(claims: Claims) | Invalid | Expired

  /** `jwt.verify(token, key)` at time `now`: a token that does not parse or
      was signed with another key is invalid; one whose expiry time has been
      reached is expired; otherwise its claims are returned. */
  function Verify(codec: Codec, token: string, key: string, now: int): (v: Verdict)
    ensures v.Verified? <==>
      codec.decode(token).Some? && codec.decode(token).value.key == key
      && now < codec.decode(token).value.payload.exp
    ensures v.Verified? ==> v.claims == codec.decode(token).value.payload.claims
    ensures v.Expired? <==>
      codec.decode(token).Some? && codec.decode(token).value.key == key
      && now >= codec.decode(token).value.payload.exp
    ensures codec.decode(token).None? ==> v == Invalid
  {
    match codec.decode(token)
    case None => Invalid
    case Some(t) =>
      if t.key != key then Invalid
      else if now >= t.payload.exp then Expired
      else Verified(t.payload.claims)
  }

  /** A token issued at `issued` verifies under the same key, giving back
      exactly the claims it was issued with, from then until 24 hours have
      passed; it is expired from then on, and invalid under any other key. */
  lemma IssueThenVerify(codec: Codec, claims: Claims, key: string, issued: int, key': string, now: int)
    requires Compact(codec)
    ensures key' != key ==> Verify(codec, codec.encode(Issue(claims, key, issued)), key', now) == Invalid
    ensures key' == key && now < issued + Lifetime
            ==> Verify(codec, codec.encode(Issue(claims, key, issued)), key', now) == Verified(claims)
    ensures key' == key && now >= issued + Lifetime
            ==> Verify(codec, codec.encode(Issue(claims, key, issued)), key', now) == Expired
  {
    var t := Issue(claims, key, issued);
    assert codec.decode(codec.encode(t)) == Some(t);
  }
}
