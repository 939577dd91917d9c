/**
 * The token service (logic/services/jwt_token_service.py): issues access
 * and refresh tokens as JSON Web Tokens (RFC 7519) signed with HMAC SHA-256
 * (section 3.2 of RFC 7518), verifies them by their `type` claim, keeps an
 * in-memory set of revoked refresh tokens, and rotates refresh tokens.
 *
 * Signing is abstracted: a token is either the encoding of a payload under a
 * key and an algorithm, and then it determines all three (the encoding is
 * injective), or it is any other text. Decoding succeeds only under the same
 * key and an allowed algorithm, and only strictly before the `exp` claim.
 * Clock readings are integer seconds since the epoch, passed in as
 * parameters; every `datetime.now` call of the source is a separate one.
 */
module TokenService {
  import opened Wrappers
  import opened Models

  /** The claims this service writes: `sub`, `apps`, `email`, `type`, `exp`, `iat`. */
  datatype Payload = Payload(
    sub: string,
    apps: seq<string>,
    email: string,
    tokenType: string,
    exp: int,
    iat: int)

  /** A token string as `jwt.decode` sees it. */
  datatype Token =
    | Signed(payload: Payload, key: string, algorithm: string)
    | Unsigned(text: string)

  /** `jwt.encode(payload, key, algorithm)`. */
  function Encode(payload: Payload, key: string, algorithm: string): (t: Token)
    ensures t.Signed? && t.payload == payload && t.key == key && t.algorithm == algorithm
  {
    Signed(payload, key, algorithm)
  }

  /** What `jwt.decode` does: a payload, or one of its two kinds of exception. */
  datatype Decoded = Valid(payload: Payload) | ExpiredSignature | InvalidToken

  /**
   * `jwt.decode(token, key, algorithms)` at clock `now`: the signature must
   * check under `key` with an allowed algorithm, and the token is expired
   * once `exp <= now` (section 4.1.4 of RFC 7519, no leeway).
   */
  function Decode(token: Token, key: string, algorithms: seq<string>, now: int): Decoded
  {
    if !token.Signed? || token.key != key || token.algorithm !in algorithms then InvalidToken
    else if token.payload.exp <= now then ExpiredSignature
    else Valid(token.payload)
  }

  /** Decoding inverts encoding under the same key, before expiry. */
  lemma DecodeEncode(p: Payload, key: string, alg: string, now: int, key': string)
    ensures Decode(Encode(p, key, alg), key, [alg], now) == if now < p.exp then Valid(p) else ExpiredSignature
    ensures key' != key ==> Decode(Encode(p, key, alg), key', [alg], now) == InvalidToken
  {
  }

  class JwtTokenService {
    const secretKey: string
    /** Lifetime of an access token, in minutes (15 by default). */
    const accessExp: int
    /** Lifetime of a refresh token, in days (7 by default). */
    const refreshExp: int
    /** Signing algorithm ("HS256" by default). */
    const algorithm: string
    /** `self.revoked_tokens`. */
    var revokedTokens: set<Token>

    /** `__init__`: a store that is None or empty is replaced by a new empty set. */
    constructor (secretKey: string, accessExp: int, refreshExp: int, algorithm: string,
                 revokedTokensStore: Option<set<Token>>)
      ensures this.secretKey == secretKey && this.accessExp == accessExp
      ensures this.refreshExp == refreshExp && this.algorithm == algorithm
      ensures revokedTokens == if revokedTokensStore.Some? then revokedTokensStore.value else {}
    {
      this.secretKey := secretKey;
      this.accessExp := accessExp;
      this.refreshExp := refreshExp;
      this.algorithm := algorithm;
      revokedTokens := if revokedTokensStore.Some? && revokedTokensStore.value != {}
                       then revokedTokensStore.value else {};
    }

    /**
     * `generate_access_token`: `expClock` and `iatClock` are the two clock
     * readings taken for `exp` and `iat`. The token verifies as an access
     * token, with the user's id, apps and email, for exactly as long as the
     * clock is before `expClock` plus the access lifetime.
     */
    function GenerateAccessToken(user: User, expClock: int, iatClock: int): (t: Token)
      ensures forall now :: (VerifyAccessToken(t, now) ==
        if now < expClock + 60 * accessExp
        then Some(Payload(user.id, user.apps, user.email, "access", expClock + 60 * accessExp, iatClock))
        else None)
    {
      Encode(Payload(user.id, user.apps, user.email, "access", expClock + 60 * accessExp, iatClock),
             secretKey, algorithm)
    }

    /**
     * `generate_refresh_token`: a token that verifies as a refresh token,
     * with the user's id, apps and email, while it is unrevoked and the clock
     * is before `expClock` plus the refresh lifetime.
     */
    function GenerateRefreshToken(user: User, expClock: int, iatClock: int): (t: Token)
      ensures forall revoked: set<Token>, now :: (VerifyRefreshTokenAgainst(revoked, t, now) ==
        if t !in revoked && now < expClock + 86400 * refreshExp
        then Some(Payload(user.id, user.apps, user.email, "refresh", expClock + 86400 * refreshExp, iatClock))
        else None)
    {
      Encode(Payload(user.id, user.apps, user.email, "refresh", expClock + 86400 * refreshExp, iatClock),
             secretKey, algorithm)
    }

    /**
     * `verify_access_token`: the payload when the token decodes under the
     * service's key and algorithm and is typed "access"; None otherwise,
     * never an exception. It does not look at the revocation set.
     */
    function VerifyAccessToken(token: Token, now: int): (r: Option<Payload>)
      ensures r.Some? <==> token.Signed? && token.key == secretKey && token.algorithm == algorithm &&
                           now < token.payload.exp && token.payload.tokenType == "access"
      ensures r.Some? ==> token == Encode(r.value, secretKey, algorithm) && r.value.tokenType == "access"
    {
      match Decode(token, secretKey, [algorithm], now)
      case Valid(p) => if p.tokenType != "access" then None else Some(p)
      case ExpiredSignature => None
      case InvalidToken => None
    }

    /**
     * `verify_refresh_token` against the revocation set `revoked`: a revoked
     * token is rejected before it is decoded; otherwise the payload when the
     * token decodes and is typed "refresh"; None otherwise, never an exception.
     */
    function VerifyRefreshTokenAgainst(revoked: set<Token>, token: Token, now: int): (r: Option<Payload>)
      ensures token in revoked ==> r.None?
      ensures r.Some? <==> token !in revoked && token.Signed? && token.key == secretKey &&
                           token.algorithm == algorithm && now < token.payload.exp &&
                           token.payload.tokenType == "refresh"
      ensures r.Some? ==> token == Encode(r.value, secretKey, algorithm) && r.value.tokenType == "refresh"
    {
      if token in revoked then None
      else
        match Decode(token, secretKey, [algorithm], now)
        case Valid(p) => if p.tokenType != "refresh" then None else Some(p)
        case ExpiredSignature => None
        case InvalidToken => None
    }

    /** `verify_refresh_token` against the service's own revocation set. */
    function VerifyRefreshToken(token: Token, now: int): (r: Option<Payload>)
      reads this
      ensures token in revokedTokens ==> r.None?
      ensures r.Some? <==> token !in revokedTokens && token.Signed? && token.key == secretKey &&
                           token.algorithm == algorithm && now < token.payload.exp &&
                           token.payload.tokenType == "refresh"
      ensures r.Some? ==> token == Encode(r.value, secretKey, algorithm) && r.value.tokenType == "refresh"
    {
      VerifyRefreshTokenAgainst(revokedTokens, token, now)
    }

    /**
     * `revoke_refresh_token`: the token is added whatever its validity; the
     * code verifies it first but discards the result; revoking a token
     * already revoked changes nothing.
     */
    method RevokeRefreshToken(token: Token)
      modifies this
      ensures revokedTokens == old(revokedTokens) + {token}
      ensures old(revokedTokens) <= revokedTokens
      ensures token in old(revokedTokens) ==> revokedTokens == old(revokedTokens)
    {
      revokedTokens := revokedTokens + {token};
    }

    /**
     * `rotate_refresh_token`: `verifyClock` is the reading used to verify the
     * old token, `expClock` and `iatClock` those used to issue the new one. A
     * token that fails refresh verification yields None and changes nothing;
     * otherwise the old token is revoked and a refresh token for the old
     * payload's `sub`, `email` and `apps` is returned.
     */
    method RotateRefreshToken(oldToken: Token, verifyClock: int, expClock: int, iatClock: int)
      returns (r: Option<Token>)
      modifies this
      ensures old(VerifyRefreshToken(oldToken, verifyClock)).None? ==>
                r.None? && revokedTokens == old(revokedTokens)
      ensures old(VerifyRefreshToken(oldToken, verifyClock)).Some? ==>
                var p := old(VerifyRefreshToken(oldToken, verifyClock)).value;
                r == Some(GenerateRefreshToken(RotationUser(p), expClock, iatClock)) &&
                revokedTokens == old(revokedTokens) + {oldToken}
    {
      var payload := VerifyRefreshToken(oldToken, verifyClock);
      if payload.None? {
        return None;
      }
      RevokeRefreshToken(oldToken);
      var user := RotationUser(payload.value);
      r := Some(GenerateRefreshToken(user, expClock, iatClock));
    }

    /**
     * The placeholder user `rotate_refresh_token` builds from a verified
     * payload: its `sub`, `email` and `apps`, no name and an empty hash.
     */
    function RotationUser(p: Payload): (u: User)
      ensures u.id == p.sub && u.email == p.email && u.apps == p.apps
      ensures u.name == None && u.passwordHash == ""
    {
      User(p.sub, None, p.email, "", "", "", p.apps)
    }

    /** A token never verifies both as an access token and as a refresh token. */
    lemma KindsAreExclusive(revoked: set<Token>, token: Token, now: int, later: int)
      ensures !(VerifyAccessToken(token, now).Some? && VerifyRefreshTokenAgainst(revoked, token, later).Some?)
    {
    }

    /**
     * After a successful rotation the old token is in the revocation set, so
     * verifying it again, or rotating it again, fails at any later clock.
     */
    lemma RotationIsSingleUse(revoked: set<Token>, oldToken: Token, verifyClock: int, later: int)
      requires VerifyRefreshTokenAgainst(revoked, oldToken, verifyClock).Some?
      ensures VerifyRefreshTokenAgainst(revoked + {oldToken}, oldToken, later).None?
    {
    }

    /**
     * The payload of a rotated token keeps `sub`, `email` and `apps`. It is
     * the old token again exactly when both clock readings give the old
     * `exp` and `iat`; in that case it is already revoked, and otherwise it
     * verifies until its own expiry.
     */
    lemma RotatedToken(revoked: set<Token>, oldToken: Token, verifyClock: int,
                       expClock: int, iatClock: int, now: int)
      requires VerifyRefreshTokenAgainst(revoked, oldToken, verifyClock).Some?
      ensures var p := oldToken.payload;
              var t := GenerateRefreshToken(RotationUser(p), expClock, iatClock);
              && t.payload.sub == p.sub && t.payload.email == p.email && t.payload.apps == p.apps
              && t.payload.tokenType == "refresh"
              && (t == oldToken <==> expClock + 86400 * refreshExp == p.exp && iatClock == p.iat)
              && (VerifyRefreshTokenAgainst(revoked + {oldToken}, t, now).Some? <==>
                    t != oldToken && t !in revoked && now < expClock + 86400 * refreshExp)
    {
    }

    /** When both clock readings fall in the same second, an access token's `exp` is `iat` plus the lifetime. */
    lemma AccessLifetime(user: User, clock: int, now: int)
      requires now < clock + 60 * accessExp
      ensures VerifyAccessToken(GenerateAccessToken(user, clock, clock), now).Some?
      ensures var p := VerifyAccessToken(GenerateAccessToken(user, clock, clock), now).value;
              p.exp == p.iat + 60 * accessExp && p.sub == user.id
    {
    }
  }
}
