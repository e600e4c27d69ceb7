/** The X bearer-token function: a token is kept in a module-level cache
    and reused while its recorded expiry lies in the future; otherwise a new
    one is requested and cached to lapse an hour before X says it expires. */
module XAuth {
  import opened Wrappers

  const TokenError: string := "Failed to get X access token"
  const ExpiryMarginSeconds: int := 3600

  datatype CachedToken = CachedToken(token: string, expires: int)

  /** The token endpoint's answer: whether it was `ok`, and the parsed
      `access_token` and `expires_in` (seconds). */
  datatype TokenResponse = TokenResponse(ok: bool, accessToken: string, expiresIn: int)

  /** `cachedToken && cachedToken.expires > Date.now()`. */
  predicate Fresh(cached: Option<CachedToken>, now: int) {
    cached.Some? && cached.value.expires > now
  }

  /** The expiry recorded for a token obtained at `now`. */
  function ExpiryFor(now: int, expiresIn: int): (e: int)
    ensures e - now == (expiresIn - ExpiryMarginSeconds) * 1000
  {
    now + (expiresIn - ExpiryMarginSeconds) * 1000
  }

  /** A token X grants for at most an hour is stale as soon as it is cached,
      so it is requested again on the next call, however soon. */
  lemma ShortTokenNeverReused(now: int, later: int, token: string, expiresIn: int)
    requires later >= now && expiresIn <= ExpiryMarginSeconds
    ensures !Fresh(Some(CachedToken(token, ExpiryFor(now, expiresIn))), later)
  {
  }

  /** A token granted for longer stays in use for the grant less the margin. */
  lemma LongTokenReused(now: int, later: int, token: string, expiresIn: int)
    requires expiresIn > ExpiryMarginSeconds && now <= later < now + (expiresIn - ExpiryMarginSeconds) * 1000
    ensures Fresh(Some(CachedToken(token, ExpiryFor(now, expiresIn))), later)
  {
  }

  class TokenCache {
    var cached: Option<CachedToken>

    constructor ()
      ensures cached.None?
    {
      cached := None;
    }

    /** `getXAccessToken`; `response` is what the token request gives, and
        is only consulted on a cache miss. */
    method GetToken(now: int, response: Result<TokenResponse>) returns (r: Result<string>)
      modifies this
      ensures Fresh(old(cached), now) ==> r == Ok(old(cached).value.token) && cached == old(cached)
      ensures !Fresh(old(cached), now) && response.Err? ==> r == Err(response.message) && cached == old(cached)
      ensures !Fresh(old(cached), now) && response.Ok? && !response.value.ok ==> r == Err(TokenError) && cached == old(cached)
      ensures !Fresh(old(cached), now) && response.Ok? && response.value.ok ==>
        r == Ok(response.value.accessToken)
        && cached == Some(CachedToken(response.value.accessToken, ExpiryFor(now, response.value.expiresIn)))
    {
      if cached.Some? && cached.value.expires > now {
        return Ok(cached.value.token);
      }
      if response.Err? {
        return Err(response.message);
      }
      if !response.value.ok {
        return Err(TokenError);
      }
      cached := Some(CachedToken(response.value.accessToken, ExpiryFor(now, response.value.expiresIn)));
      return Ok(response.value.accessToken);
    }
  }

  datatype Body = TokenBody(token: string) | ErrorBody(error: string)

  datatype Response = Response(status: nat, body: Body)

  /** The handler's answer for the outcome of `getXAccessToken`. */
  function Respond(r: Result<string>): (resp: Response)
    ensures r.Ok? <==> resp.status == 200
    ensures r.Ok? ==> resp.body == TokenBody(r.value)
    ensures r.Err? ==> resp == Response(500, ErrorBody(r.message))
  {
    match r
    case Ok(token) => Response(200, TokenBody(token))
    case Err(message) => Response(500, ErrorBody(message))
  }

  /** The request handler over the shared cache. */
  method Handle(cache: TokenCache, now: int, response: Result<TokenResponse>) returns (resp: Response)
    modifies cache
    ensures Fresh(old(cache.cached), now) ==> resp == Response(200, TokenBody(old(cache.cached).value.token))
    ensures !Fresh(old(cache.cached), now) && response.Err? ==>
      resp == Response(500, ErrorBody(response.message)) && cache.cached == old(cache.cached)
    ensures !Fresh(old(cache.cached), now) && response.Ok? && !response.value.ok ==>
      resp == Response(500, ErrorBody(TokenError)) && cache.cached == old(cache.cached)
    ensures !Fresh(old(cache.cached), now) && response.Ok? && response.value.ok ==>
      resp == Response(200, TokenBody(response.value.accessToken))
      && cache.cached == Some(CachedToken(response.value.accessToken, ExpiryFor(now, response.value.expiresIn)))
    ensures Fresh(old(cache.cached), now) ==> cache.cached == old(cache.cached)
  {
    var r := cache.GetToken(now, response);
    resp := Respond(r);
  }
}
