/** Whole interactions with one client, each over a fresh jar holding the
    cookies the request arrived with: a sign-in from the authorization
    redirect to the token request, a replayed callback, and a forged one. */
module OAuthFlows {
  import opened Wrappers
  import opened FormUrlEncoded
  import opened SearchParams
  import opened Cookies
  import opened OAuthTypes
  import opened OAuthSpec
  import opened OAuth

  /** A sign-in: `generateAuthorizeUrl` on the first request; the provider
      sends the user back to the redirect URI with a code and the state it
      found in the authorization URL; `exchangeCodeForToken` on that callback,
      with the cookies the first request set. When the client's extra
      parameters do not override `state` (or `code_challenge`), the provider
      sees the generated state (and the challenge of the generated verifier),
      and the token request carries the returned code and, with PKCE, the
      stored verifier. */
  method SignIn(client: OAuthClient, cookies: map<string, Cookie>, state: string, verifier: string, code: string,
                production: bool, mapDelimiter: Option<Delimiter> -> string,
                generateCodeChallenge: string -> string)
    returns (authorizeUrl: string, request: Result<TokenRequest, OAuthError>)
    requires ClientExtras(client).Success?
    requires '?' !in client.authorizeUrl && '?' !in client.redirectUri
    requires state != "" && code != ""
    requires LastValue(ClientExtras(client).value, "state").None?
    requires PkceEnabled(client) ==> verifier != ""
    ensures GetParam(QueryParams(authorizeUrl), "state") == Some(state)
    ensures PkceEnabled(client) && LastValue(ClientExtras(client).value, "code_challenge").None? ==>
              GetParam(QueryParams(authorizeUrl), "code_challenge") == Some(generateCodeChallenge(verifier))
    ensures request == Success(TokenRequestFor(client, code, if PkceEnabled(client) then Some(verifier) else None))
  {
    var jar := new CookieJar(cookies);
    var instance := new OAuthInstance(client);
    var url := instance.GenerateAuthorizeUrl(jar, state, verifier, production, mapDelimiter, generateCodeChallenge);
    AuthorizeUrlEchoes(client, state, generateCodeChallenge(verifier), mapDelimiter(client.scopes.delimiter));
    authorizeUrl := url.value;

    var echoed := GetParam(QueryParams(authorizeUrl), "state").value;
    var callback := client.redirectUri + "?" + Serialize([Pair("code", code), Pair("state", echoed)]);
    CallbackOfEcho(client.redirectUri, state, code);
    AuthorizeCookiesVerify(cookies, state, verifier, PkceEnabled(client), production);
    request := instance.ExchangeCodeForToken(jar, callback);
  }

  /** The authorization URL carries the generated state, and with PKCE the
      generated challenge, unless an extra parameter overrides them. */
  lemma AuthorizeUrlEchoes(client: OAuthClient, state: string, challenge: string, separator: string)
    requires ClientExtras(client).Success?
    requires '?' !in client.authorizeUrl
    ensures AuthorizeUrl(client, state, challenge, separator).Success?
    ensures var query := QueryParams(AuthorizeUrl(client, state, challenge, separator).value);
            var extras := ClientExtras(client).value;
            && (state != "" && LastValue(extras, "state").None? ==> GetParam(query, "state") == Some(state))
            && (PkceEnabled(client) && LastValue(extras, "code_challenge").None? ==>
                  GetParam(query, "code_challenge") == Some(challenge))
  {
    AuthorizeParamsContents(client, state, challenge, separator);
    var query := AuthorizeParams(client, state, challenge, separator).value;
    QueryParamsOfRedirect(client.authorizeUrl, query);
    assert AuthorizeUrl(client, state, challenge, separator) == Success(client.authorizeUrl + "?" + Serialize(query));
  }

  /** The provider's redirect back, with the code and the echoed state, is a
      valid callback for exactly those two values. */
  lemma CallbackOfEcho(redirectUri: string, state: string, code: string)
    requires '?' !in redirectUri
    requires state != "" && code != ""
    ensures ExtractCallback(redirectUri + "?" + Serialize([Pair("code", code), Pair("state", state)]))
         == Success(Callback(state, code))
  {
    var returned := [Pair("code", code), Pair("state", state)];
    assert GetParam(returned, "code") == Some(code);
    assert GetParam(returned, "state") == Some(state);
    ExtractCallbackOfRedirect(redirectUri, returned, state, code);
  }

  /** The cookies `generateAuthorizeUrl` sets are the ones the exchange
      accepts: the stored state verifies the generated one, and with PKCE the
      stored verifier is the generated one. */
  lemma AuthorizeCookiesVerify(cookies: map<string, Cookie>, state: string, verifier: string, pkce: bool, production: bool)
    requires state != ""
    requires pkce ==> verifier != ""
    ensures StateVerified(AuthorizeCookies(cookies, state, verifier, pkce, production), state)
    ensures pkce ==> StoredVerifier(AuthorizeCookies(cookies, state, verifier, pkce, production)) == Success(verifier)
  {
    AuthorizeCookiesEntries(cookies, state, verifier, pkce, production);
  }

  /** A callback replayed on the same jar: whatever the first exchange did,
      the state cookie is gone afterwards, so a second exchange of a valid
      callback is a CSRF mismatch; an invalid callback is rejected both
      times. */
  method RedeemTwice(client: OAuthClient, cookies: map<string, Cookie>, url: string)
    returns (first: Result<TokenRequest, OAuthError>, second: Result<TokenRequest, OAuthError>)
    ensures ExtractCallback(url).Success? ==> second == Failure(CsrfMismatch)
    ensures ExtractCallback(url).Failure? ==> first == Failure(InvalidCallback) && second == Failure(InvalidCallback)
  {
    var jar := new CookieJar(cookies);
    var instance := new OAuthInstance(client);
    first := instance.ExchangeCodeForToken(jar, url);
    second := instance.ExchangeCodeForToken(jar, url);
  }

  /** A callback whose state does not match the stored one: rejected as a
      CSRF mismatch, the state cookie consumed, and every other cookie,
      the verifier cookie included, left as it was. */
  method ForgedCallback(client: OAuthClient, cookies: map<string, Cookie>, url: string)
    returns (r: Result<TokenRequest, OAuthError>, remaining: map<string, Cookie>)
    requires ExtractCallback(url).Success?
    requires !StateVerified(cookies, ExtractCallback(url).value.state)
    ensures r == Failure(CsrfMismatch)
    ensures Entry(remaining, StateCookie) == None
    ensures forall name | name != StateCookie :: Entry(remaining, name) == Entry(cookies, name)
  {
    var jar := new CookieJar(cookies);
    var instance := new OAuthInstance(client);
    r := instance.ExchangeCodeForToken(jar, url);
    remaining := jar.cookies;
  }

  /** With PKCE, a verified callback arriving without its verifier cookie
      (or with an empty one) is refused, after both flow cookies have been
      deleted. */
  method LostVerifier(client: OAuthClient, cookies: map<string, Cookie>, url: string)
    returns (r: Result<TokenRequest, OAuthError>, remaining: map<string, Cookie>)
    requires PkceEnabled(client)
    requires ExtractCallback(url).Success? && StateVerified(cookies, ExtractCallback(url).value.state)
    requires Entry(cookies, VerifierCookie).None? || Entry(cookies, VerifierCookie).value.value == ""
    ensures r == Failure(MissingVerifier)
    ensures Entry(remaining, StateCookie) == None && Entry(remaining, VerifierCookie) == None
  {
    var jar := new CookieJar(cookies);
    var instance := new OAuthInstance(client);
    r := instance.ExchangeCodeForToken(jar, url);
    remaining := jar.cookies;
  }
}
