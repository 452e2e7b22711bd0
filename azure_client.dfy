/** The scope-keyed access-token cache of azureAuth/AzureClient.kt. Tokens come from the
    OAuth 2.0 client-credentials grant (section 4.4 of RFC 6749); the cache keeps one token per
    scope and reuses it until it has expired. */
module AzureAuth {
  import opened Wrappers
  import opened Primitives

  /** `marginSeconds` of `hasExpired`. */
  const MarginSeconds: int := 1

  /** `AccessToken`: a token and the local time it expires. */
  datatype AccessToken = AccessToken(scope: string, token: string, expires: Timestamp)

  /** The two fields read from the token endpoint's answer: `access_token`, `expires_in`. */
  datatype TokenResponse = TokenResponse(accessToken: string, expiresIn: int)

  /** The exception the token request threw (network failure, error status, unreadable body). */
  datatype FetchError = FetchError(message: Option<string>)

  type TokenMap = map<string, AccessToken>

  /** `LocalDateTime.plusSeconds`. */
  function PlusSeconds(t: Timestamp, seconds: int): Timestamp
  {
    t + seconds * NanosPerSecond
  }

  /** `AccessToken.hasExpired`, with the clock reading `now` as a parameter: the current time
      is strictly after the expiry plus the margin. */
  predicate HasExpired(a: AccessToken, now: Timestamp)
  {
    now > PlusSeconds(a.expires, MarginSeconds)
  }

  /** A token is still served up to and including one second past its expiry, and is
      refetched from then on. */
  lemma ServedUntilOneSecondPastExpiry(a: AccessToken, now: Timestamp)
    ensures !HasExpired(a, now) <==> now <= a.expires + NanosPerSecond
    ensures a.expires < now <= a.expires + NanosPerSecond ==> !HasExpired(a, now)
  {
  }

  /** The token `getAccessToken` answers without a request: the cached one, if present and
      not expired. */
  function Reusable(tokens: TokenMap, scope: string, now: Timestamp): (r: Option<string>)
    ensures r.Some? <==> scope in tokens && now <= tokens[scope].expires + NanosPerSecond
    ensures r.Some? ==> r.value == tokens[scope].token
    ensures scope !in tokens ==> r.None?
  {
    if scope in tokens && !HasExpired(tokens[scope], now) then Some(tokens[scope].token) else None
  }

  /** The token `fetchAndStoreAccessToken` builds from an answer received at `receivedAt`. */
  function Fetched(scope: string, response: TokenResponse, receivedAt: Timestamp): (a: AccessToken)
    ensures a.scope == scope && a.token == response.accessToken
    ensures forall now :: !HasExpired(a, now) <==>
              now <= receivedAt + (response.expiresIn + MarginSeconds) * NanosPerSecond
  {
    AccessToken(scope, response.accessToken, PlusSeconds(receivedAt, response.expiresIn))
  }

  /** A token fetched at `receivedAt` is reused exactly while `now` is at most `expires_in`
      seconds plus the margin later. */
  lemma FetchedTokenReusedUntilExpiry(tokens: TokenMap, scope: string, response: TokenResponse,
                                      receivedAt: Timestamp, now: Timestamp)
    ensures Reusable(tokens[scope := Fetched(scope, response, receivedAt)], scope, now) ==
            if now <= receivedAt + (response.expiresIn + MarginSeconds) * NanosPerSecond
            then Some(response.accessToken) else None
  {
  }

  /** Storing a token for one scope does not change what is served for another scope. */
  lemma StoreLeavesOtherScopes(tokens: TokenMap, scope: string, other: string, a: AccessToken, now: Timestamp)
    requires other != scope
    ensures Reusable(tokens[scope := a], other, now) == Reusable(tokens, other, now)
  {
  }

  /** The token endpoint: it records the scopes it is asked for and answers a request for a
      scope as `answer` says, given the request's position among all requests so far
      (counting from 0). */
  class TokenEndpoint {
    var requests: seq<string>
    const answer: (string, nat) -> Result<TokenResponse, FetchError>

    constructor (answer: (string, nat) -> Result<TokenResponse, FetchError>)
      ensures requests == [] && this.answer == answer
    {
      requests := [];
      this.answer := answer;
    }

    /** One client-credentials token request for `scope`. */
    method Post(scope: string) returns (r: Result<TokenResponse, FetchError>)
      modifies this
      ensures requests == old(requests) + [scope]
      ensures r == answer(scope, |old(requests)|)
    {
      r := answer(scope, |requests|);
      requests := requests + [scope];
    }
  }

  /** `AzureClient`: the mutable map `accessTokens` and the endpoint it asks. */
  class AzureClient {
    var accessTokens: TokenMap
    const endpoint: TokenEndpoint

    /** Every token is stored under its own scope. */
    ghost predicate Valid()
      reads this
    {
      forall s :: s in accessTokens ==> accessTokens[s].scope == s
    }

    constructor (endpoint: TokenEndpoint)
      ensures Valid() && accessTokens == map[] && this.endpoint == endpoint
    {
      accessTokens := map[];
      this.endpoint := endpoint;
    }

    /** `fetchAndStoreAccessToken`: one request; on an answer, store the token under its
        scope with expiry `receivedAt + expires_in` (the clock read after the answer). A failed
        request rethrows and leaves the map as it was. */
    method FetchAndStoreAccessToken(scope: string, receivedAt: Timestamp) returns (r: Result<AccessToken, FetchError>)
      requires Valid()
      modifies this, endpoint
      ensures Valid()
      ensures endpoint.requests == old(endpoint.requests) + [scope]
      ensures var answer := endpoint.answer(scope, |old(endpoint.requests)|);
              (answer.Ok? ==> r == Ok(Fetched(scope, answer.value, receivedAt)) &&
                              accessTokens == old(accessTokens)[scope := r.value]) &&
              (answer.Err? ==> r == Err(answer.error) && accessTokens == old(accessTokens))
    {
      var response := endpoint.Post(scope);
      match response
      case Err(e) =>
        r := Err(e);
      case Ok(tokenResponse) =>
        var accessToken := AccessToken(scope, tokenResponse.accessToken, PlusSeconds(receivedAt, tokenResponse.expiresIn));
        accessTokens := accessTokens[scope := accessToken];
        r := Ok(accessToken);
    }

    /** `getAccessToken`: serve the cached token while it has not expired at `now`, without a
        request (by `Valid`, that token was fetched for this scope); otherwise fetch, store and
        serve the new one. */
    method GetAccessToken(scope: string, now: Timestamp, receivedAt: Timestamp) returns (r: Result<string, FetchError>)
      requires Valid()
      modifies this, endpoint
      ensures Valid()
      ensures Reusable(old(accessTokens), scope, now).Some? ==>
                old(accessTokens)[scope].scope == scope &&
                r == Ok(Reusable(old(accessTokens), scope, now).value) &&
                accessTokens == old(accessTokens) && endpoint.requests == old(endpoint.requests)
      ensures Reusable(old(accessTokens), scope, now).None? ==>
                endpoint.requests == old(endpoint.requests) + [scope] &&
                var answer := endpoint.answer(scope, |old(endpoint.requests)|);
                (answer.Ok? ==> r == Ok(answer.value.accessToken) &&
                                accessTokens == old(accessTokens)[scope := Fetched(scope, answer.value, receivedAt)]) &&
                (answer.Err? ==> r == Err(answer.error) && accessTokens == old(accessTokens))
    {
      if scope !in accessTokens || HasExpired(accessTokens[scope], now) {
        var fetched := FetchAndStoreAccessToken(scope, receivedAt);
        match fetched
        case Ok(a) => r := Ok(a.token);
        case Err(e) => r := Err(e);
      } else {
        r := Ok(accessTokens[scope].token);
      }
    }
  }

  /** A client: two calls for one scope within the token's lifetime make one request; a
      call after the margin makes a second one. */
  method ReuseScenario(scope: string, t0: Timestamp)
  {
    var endpoint := new TokenEndpoint((s: string, n: nat) => Ok(TokenResponse("token-" + s, 60)));
    var client := new AzureClient(endpoint);
    var first := client.GetAccessToken(scope, t0, t0);
    assert first == Ok("token-" + scope) && |endpoint.requests| == 1;
    var second := client.GetAccessToken(scope, PlusSeconds(t0, 61), PlusSeconds(t0, 61));
    assert second == first && |endpoint.requests| == 1;
    var third := client.GetAccessToken(scope, PlusSeconds(t0, 61) + 1, PlusSeconds(t0, 61) + 1);
    assert |endpoint.requests| == 2;
  }
}
