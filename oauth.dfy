/** `OAuthInstance` and `OAuthHandler`: the authorization-code flow over a
    request's cookie jar, up to the request handed to `fetch`. The random
    state and verifier, the code challenge (SHA-256, base64url) and the scope
    delimiter mapping come from outside and are parameters. */
module OAuth {
  import opened Wrappers
  import opened FormUrlEncoded
  import opened SearchParams
  import opened Cookies
  import opened OAuthTypes
  import opened OAuthSpec

  /** One configured client. Its configuration is fixed at construction. */
  class OAuthInstance {
    const client: OAuthClient

    constructor (client: OAuthClient)
      ensures this.client == client
    {
      this.client := client;
    }

    /** `generateAuthorizeUrl`: writes the state cookie (when the generated
        state is non-empty) and the verifier cookie (when PKCE is on), and
        returns the authorization URL. No other cookie is touched. A record of
        extra parameters without an entry throws after the cookies are set. */
    method GenerateAuthorizeUrl(jar: CookieJar, state: string, verifier: string, production: bool,
                                mapDelimiter: Option<Delimiter> -> string,
                                generateCodeChallenge: string -> string)
      returns (url: Result<string, OAuthError>)
      modifies jar
      ensures url == AuthorizeUrl(client, state, generateCodeChallenge(verifier), mapDelimiter(client.scopes.delimiter))
      ensures jar.cookies == AuthorizeCookies(old(jar.cookies), state, verifier, PkceEnabled(client), production)
      ensures jar.trace == old(jar.trace) + AuthorizeWrites(state, verifier, PkceEnabled(client))
    {
      var separator := mapDelimiter(client.scopes.delimiter);
      var params := new URLSearchParams(BaseAuthorizeParams(client, separator));
      StoreFlowSecrets(jar, params, state, verifier, generateCodeChallenge, PkceEnabled(client), production);

      var records := if client.params.Some? then client.params.value else [];
      var extras := AddExtraParams(params, records);
      if extras.Failure? {
        return Failure(MalformedParam(extras.error));
      }

      url := Success(client.authorizeUrl + "?" + params.ToString());
    }

    /** The two conditional blocks of `generateAuthorizeUrl`: a non-empty
        state goes into its cookie and the query; with PKCE the verifier goes
        into its cookie and the challenge with its method into the query. */
    static method StoreFlowSecrets(jar: CookieJar, params: URLSearchParams, state: string, verifier: string,
                                   generateCodeChallenge: string -> string, pkce: bool, production: bool)
      modifies jar, params
      ensures params.list == WithFlowParams(old(params.list), state, generateCodeChallenge(verifier), pkce)
      ensures jar.cookies == AuthorizeCookies(old(jar.cookies), state, verifier, pkce, production)
      ensures jar.trace == old(jar.trace) + AuthorizeWrites(state, verifier, pkce)
    {
      ghost var writes: seq<Access> := [];

      if state != "" {
        jar.Set(StateCookie, state, FlowCookieOptions(production));
        params.Set("state", state);
        writes := [Write(StateCookie, state)];
      }
      assert jar.trace == old(jar.trace) + writes;

      if pkce {
        var codeChallenge := generateCodeChallenge(verifier);
        jar.Set(VerifierCookie, verifier, FlowCookieOptions(production));
        params.Set("code_challenge", codeChallenge);
        params.Set("code_challenge_method", "S256");
        assert old(jar.trace) + writes + [Write(VerifierCookie, verifier)]
            == old(jar.trace) + (writes + [Write(VerifierCookie, verifier)]);
        writes := writes + [Write(VerifierCookie, verifier)];
      }
      assert jar.trace == old(jar.trace) + writes;
      assert writes == AuthorizeWrites(state, verifier, pkce);
    }

    /** The loop over `client.params` in `generateAuthorizeUrl`: each record
        contributes its first entry through `set`; a record without one throws
        (reported with its index). */
    static method AddExtraParams(params: URLSearchParams, records: seq<seq<Pair>>) returns (r: Result<(), nat>)
      modifies params
      ensures r.Failure? <==> ExtraEntries(records).Failure?
      ensures r.Failure? ==> r.error == ExtraEntries(records).error
      ensures r.Success? ==> params.list == SetAll(old(params.list), ExtraEntries(records).value)
    {
      var i := 0;
      while i < |records|
        invariant 0 <= i <= |records|
        invariant ExtraEntries(records[..i]).Success?
        invariant params.list == SetAll(old(params.list), ExtraEntries(records[..i]).value)
      {
        if records[i] == [] {
          ExtraEntriesFirstEmpty(records, i);
          return Failure(i);
        }
        var entry := records[i][0];
        ghost var done := ExtraEntries(records[..i]).value;
        assert records[..i + 1][..i] == records[..i];
        assert (done + [entry])[..|done|] == done;
        params.Set(entry.name, entry.value);
        i := i + 1;
      }
      assert records[..i] == records;
      return Success(());
    }

    /** `#verifyState`: reads the stored state, deletes it on every path, and
        accepts only a stored state that is present, non-empty and exactly the
        returned one. */
    method VerifyState(jar: CookieJar, returnedState: string) returns (r: Result<bool, OAuthError>)
      modifies jar
      ensures r == if StateVerified(old(jar.cookies), returnedState) then Success(true) else Failure(CsrfMismatch)
      ensures jar.cookies == old(jar.cookies) - {StateCookie}
      ensures jar.trace == old(jar.trace) + [Read(StateCookie), Remove(StateCookie)]
    {
      var storedState := jar.Get(StateCookie);
      jar.Delete(StateCookie);
      if storedState.None? || storedState.value == "" || storedState.value != returnedState {
        return Failure(CsrfMismatch);
      }
      return Success(true);
    }

    /** `#parseCallbackUrl`: an invalid callback is rejected before the jar is
        touched; otherwise the state is verified (and consumed) and the code
        is returned only if it matched. */
    method ParseCallbackUrl(url: string, jar: CookieJar) returns (r: Result<string, OAuthError>)
      modifies jar
      ensures ExtractCallback(url).Failure? ==>
                && r == Failure(InvalidCallback)
                && jar.cookies == old(jar.cookies) && jar.trace == old(jar.trace)
      ensures ExtractCallback(url).Success? ==>
                var callback := ExtractCallback(url).value;
                && r == (if StateVerified(old(jar.cookies), callback.state) then Success(callback.code)
                         else Failure(CsrfMismatch))
                && jar.cookies == old(jar.cookies) - {StateCookie}
                && jar.trace == old(jar.trace) + [Read(StateCookie), Remove(StateCookie)]
    {
      var extracted := ExtractCallback(url);
      if extracted.Failure? {
        return Failure(extracted.error);
      }
      var verified := VerifyState(jar, extracted.value.state);
      if verified.Failure? {
        return Failure(verified.error);
      }
      return Success(extracted.value.code);
    }

    /** `exchangeCodeForToken` up to the `fetch`: verifies the callback first;
        only then, with PKCE, reads and deletes the verifier cookie (deleted
        even when absent; absent or empty is an error); returns the token
        request. The trace shows the state cookie consumed before the
        verifier cookie is looked at. */
    method ExchangeCodeForToken(jar: CookieJar, url: string) returns (r: Result<TokenRequest, OAuthError>)
      modifies jar
      ensures r.Success? ==>
                && ExtractCallback(url).Success?
                && StateVerified(old(jar.cookies), ExtractCallback(url).value.state)
                && StateCookie !in jar.cookies
      ensures ExtractCallback(url).Failure? ==>
                && r == Failure(InvalidCallback)
                && jar.cookies == old(jar.cookies) && jar.trace == old(jar.trace)
      ensures ExtractCallback(url).Success? && !StateVerified(old(jar.cookies), ExtractCallback(url).value.state) ==>
                && r == Failure(CsrfMismatch)
                && jar.cookies == old(jar.cookies) - {StateCookie}
                && jar.trace == old(jar.trace) + [Read(StateCookie), Remove(StateCookie)]
      ensures ExtractCallback(url).Success? && StateVerified(old(jar.cookies), ExtractCallback(url).value.state)
              && !PkceEnabled(client) ==>
                && r == Success(TokenRequestFor(client, ExtractCallback(url).value.code, None))
                && jar.cookies == old(jar.cookies) - {StateCookie}
                && jar.trace == old(jar.trace) + [Read(StateCookie), Remove(StateCookie)]
      ensures ExtractCallback(url).Success? && StateVerified(old(jar.cookies), ExtractCallback(url).value.state)
              && PkceEnabled(client) ==>
                && r == (match StoredVerifier(old(jar.cookies))
                         case Success(verifier) =>
                           Success(TokenRequestFor(client, ExtractCallback(url).value.code, Some(verifier)))
                         case Failure(e) => Failure(e))
                && jar.cookies == old(jar.cookies) - {StateCookie, VerifierCookie}
                && jar.trace == old(jar.trace)
                              + [Read(StateCookie), Remove(StateCookie), Read(VerifierCookie), Remove(VerifierCookie)]
    {
      var code := ParseCallbackUrl(url, jar);
      if code.Failure? {
        return Failure(code.error);
      }
      ghost var verified := jar.cookies;
      r := RequestToken(jar, code.value);
      if PkceEnabled(client) {
        assert StoredVerifier(verified) == StoredVerifier(old(jar.cookies)) by {
          FlowCookiesDistinct();
        }
        MinusTwo(old(jar.cookies), StateCookie, VerifierCookie);
        AppendTwo(old(jar.trace), [Read(StateCookie), Remove(StateCookie)], [Read(VerifierCookie), Remove(VerifierCookie)]);
      }
    }

    /** The part of `exchangeCodeForToken` after the callback is accepted: the
        token request body, with the verifier taken from its cookie when PKCE
        is on. */
    method RequestToken(jar: CookieJar, code: string) returns (r: Result<TokenRequest, OAuthError>)
      modifies jar
      ensures !PkceEnabled(client) ==>
                && r == Success(TokenRequestFor(client, code, None))
                && jar.cookies == old(jar.cookies) && jar.trace == old(jar.trace)
      ensures PkceEnabled(client) ==>
                && r == (match StoredVerifier(old(jar.cookies))
                         case Success(verifier) => Success(TokenRequestFor(client, code, Some(verifier)))
                         case Failure(e) => Failure(e))
                && jar.cookies == old(jar.cookies) - {VerifierCookie}
                && jar.trace == old(jar.trace) + [Read(VerifierCookie), Remove(VerifierCookie)]
    {
      var params := new URLSearchParams(TokenBaseParams(client, code));
      ghost var verifier: Option<string> := None;

      if PkceEnabled(client) {
        var codeVerifier := TakeVerifier(jar);
        if codeVerifier.Failure? {
          return Failure(codeVerifier.error);
        }
        params.Set("code_verifier", codeVerifier.value);
        verifier := Some(codeVerifier.value);
      }
      assert params.list == TokenParams(client, code, verifier);

      r := Success(TokenRequest(client.tokenUrl, "POST", TokenHeaders, params.ToString()));
    }

    /** The verifier block of `exchangeCodeForToken`: read the verifier cookie,
        delete it whatever it held, and fail when it was absent or empty. */
    static method TakeVerifier(jar: CookieJar) returns (r: Result<string, OAuthError>)
      modifies jar
      ensures r == StoredVerifier(old(jar.cookies))
      ensures jar.cookies == old(jar.cookies) - {VerifierCookie}
      ensures jar.trace == old(jar.trace) + [Read(VerifierCookie), Remove(VerifierCookie)]
    {
      var codeVerifier := jar.Get(VerifierCookie);
      jar.Delete(VerifierCookie);
      if codeVerifier.None? || codeVerifier.value == "" {
        return Failure(MissingVerifier);
      }
      return Success(codeVerifier.value);
    }
  }

  /** The registry of configured clients, built once and never changed. */
  class OAuthHandler {
    const clients: map<string, OAuthClient>

    /** `new OAuthHandler(configs)`: one entry per property of the record. */
    constructor (configs: map<string, OAuthClient>)
      ensures clients == configs
    {
      clients := configs;
    }

    /** `get(clientName)`: an instance bound to exactly the registered
        configuration, or `ClientNotFound` for an unknown name. */
    method Get(clientName: string) returns (r: Result<OAuthInstance, OAuthError>)
      ensures r.Success? <==> clientName in clients
      ensures r.Success? ==> fresh(r.value) && r.value.client == clients[clientName]
      ensures r.Failure? ==> r.error == ClientNotFound(clientName)
    {
      if clientName !in clients {
        return Failure(ClientNotFound(clientName));
      }
      var instance := new OAuthInstance(clients[clientName]);
      return Success(instance);
    }
  }

  /** Removing two keys one after the other removes both. */
  lemma MinusTwo<K, V>(m: map<K, V>, a: K, b: K)
    ensures m - {a} - {b} == m - {a, b}
  {
  }

  /** Appending two pieces one after the other appends their concatenation. */
  lemma AppendTwo<T>(s: seq<T>, a: seq<T>, b: seq<T>)
    ensures s + a + b == s + (a + b)
  {
  }
}
