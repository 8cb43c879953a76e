/** `generateToken` (backend/src/lib/utils.js): sign a session token for a
    user and set it as the `jwt` cookie. */
module Tokens {
  import opened Common
  import opened Http
  import JsText
  import SocketAuth

  /** The configuration values the handlers read from `ENV`. */
  datatype Env = Env(jwtSecret: Option<string>, nodeEnv: Option<string>, clientUrl: Option<string>)

  /** `jwt.sign({ userId }, secret, { expiresIn })`, with the lifetime in seconds. */
  type Signer = (UserId, string, nat) -> string

  const CookieName: string := "jwt"
  /** `expiresIn: "7d"`. */
  const TokenLifetimeSeconds: nat := 7 * 24 * 60 * 60
  /** `maxAge: 7*24*60*60*1000`. */
  const CookieMaxAgeMs: nat := 7 * 24 * 60 * 60 * 1000
  const SecretMissingMessage: string := "JWT_SECRET is not configured"

  /** `generateToken` either throws or returns the token it placed in the cookie. */
  datatype TokenResult = SecretMissing(message: string) | Issued(token: string, cookie: SetCookie)

  /** The options of the session cookie. */
  function SessionCookieOptions(env: Env): (o: CookieOptions)
    ensures o.httpOnly && o.sameSite == Some("strict")
    ensures o.secure <==> env.nodeEnv == Some("production")
    ensures o.maxAge == TokenLifetimeSeconds * 1000 == 604800000
  {
    CookieOptions(CookieMaxAgeMs, true, Some("strict"), env.nodeEnv == Some("production"))
  }

  /** `generateToken(userId, res)`. */
  function GenerateToken(userId: UserId, env: Env, sign: Signer): (r: TokenResult)
    ensures r.Issued? <==> Truthy(env.jwtSecret)
    ensures r.SecretMissing? ==> r.message == SecretMissingMessage
    ensures r.Issued? ==> r.token == sign(userId, env.jwtSecret.value, TokenLifetimeSeconds)
    ensures r.Issued? ==> r.cookie == SetCookie(CookieName, r.token, SessionCookieOptions(env))
  {
    if !Truthy(env.jwtSecret) then SecretMissing(SecretMissingMessage)
    else
      var token := sign(userId, env.jwtSecret.value, TokenLifetimeSeconds);
      Issued(token, SetCookie(CookieName, token, SessionCookieOptions(env)))
  }

  /** A character of a compact JWS (base64url segments joined by dots). */
  predicate IsCompactJwsChar(c: char)
  {
    ('A' <= c <= 'Z') || ('a' <= c <= 'z') || ('0' <= c <= '9') || c == '-' || c == '_' || c == '.'
  }

  predicate IsCompactJws(t: string)
  {
    forall k :: 0 <= k < |t| ==> IsCompactJwsChar(t[k])
  }

  /** The cookie a browser sends back, `name=value`. */
  function CookiePair(c: SetCookie): string
  {
    c.name + "=" + c.value
  }

  /** The socket gate reads back the token `generateToken` issued: in a `Cookie`
      header of well-formed entries where the session cookie is the first
      `jwt=` entry, the extracted token is the signed one. */
  lemma IssuedTokenReachesSocketGate(userId: UserId, env: Env, sign: Signer,
                                     before: seq<string>, after: seq<string>)
    requires Truthy(env.jwtSecret)
    requires IsCompactJws(sign(userId, env.jwtSecret.value, TokenLifetimeSeconds))
    requires forall k :: 0 <= k < |before| ==> ';' !in before[k] && !JsText.StartsWith(before[k], SocketAuth.TokenPrefix)
    requires forall k :: 0 <= k < |after| ==> ';' !in after[k]
    ensures var r := GenerateToken(userId, env, sign);
      SocketAuth.ExtractToken(Some(JsText.Join(before + [CookiePair(r.cookie)] + after, SocketAuth.CookieSeparator)))
        == Some(r.token)
  {
    var r := GenerateToken(userId, env, sign);
    var t := r.token;
    assert ';' !in t && '=' !in t;
    assert CookiePair(r.cookie) == SocketAuth.TokenPrefix + t;
    SocketAuth.TokenRoundTrip(before, t, after);
  }
}
