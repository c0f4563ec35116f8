/** What the OAuth authorization-code flow with PKCE sends and checks, as
    functions of the client configuration and of the values that come from
    outside (the random state and verifier, the code challenge, the scope
    delimiter). The imperative flow in module OAuth is proved against these. */
module OAuthSpec {
  import opened Wrappers
  import opened FormUrlEncoded
  import opened SearchParams
  import opened Cookies
  import opened OAuthTypes

  /** The cookie holding the anti-CSRF `state` (RFC 6749, section 10.12). */
  const StateCookie: string := "oauth_state"

  /** The cookie holding the PKCE code verifier (RFC 7636, section 4.1). */
  const VerifierCookie: string := "oauth_code_verifier"

  /** The two cookies of the flow never overwrite each other. */
  lemma FlowCookiesDistinct()
    ensures StateCookie != VerifierCookie
  {
    assert |StateCookie| != |VerifierCookie|;
  }

  /** Both flow cookies: http-only, secure in production, same-site lax,
      ten minutes, whole site. */
  function FlowCookieOptions(production: bool): (o: CookieOptions)
    ensures o.httpOnly && o.secure == production && o.sameSite == Lax && o.maxAge == 600 && o.path == "/"
  {
    CookieOptions(true, production, Lax, 10 * 60, "/")
  }

  /** The jar after `generateAuthorizeUrl` has set its cookies: the state
      cookie when a state was generated, then the verifier cookie with PKCE. */
  function AuthorizeCookies(cookies: map<string, Cookie>, state: string, verifier: string, pkce: bool, production: bool)
    : (r: map<string, Cookie>)
  {
    var withState := if state != "" then cookies[StateCookie := Cookie(state, FlowCookieOptions(production))] else cookies;
    if pkce then withState[VerifierCookie := Cookie(verifier, FlowCookieOptions(production))] else withState
  }

  /** The cookie writes of `generateAuthorizeUrl`, in order. */
  function AuthorizeWrites(state: string, verifier: string, pkce: bool): (w: seq<Access>)
    ensures |w| <= 2
  {
    (if state != "" then [Write(StateCookie, state)] else [])
    + (if pkce then [Write(VerifierCookie, verifier)] else [])
  }

  /** Each flow cookie holds its value with the flow options exactly when it
      was written, and every other cookie keeps its entry. */
  lemma AuthorizeCookiesEntries(cookies: map<string, Cookie>, state: string, verifier: string, pkce: bool, production: bool)
    ensures var r := AuthorizeCookies(cookies, state, verifier, pkce, production);
            && Entry(r, StateCookie) == (if state != "" then Some(Cookie(state, FlowCookieOptions(production)))
                                         else Entry(cookies, StateCookie))
            && Entry(r, VerifierCookie) == (if pkce then Some(Cookie(verifier, FlowCookieOptions(production)))
                                            else Entry(cookies, VerifierCookie))
            && forall name | name != StateCookie && name != VerifierCookie :: Entry(r, name) == Entry(cookies, name)
  {
    FlowCookiesDistinct();
  }

  /** `Array.prototype.join`: the values with the separator between each two. */
  function Join(values: seq<string>, separator: string): (s: string) {
    if values == [] then ""
    else if |values| == 1 then values[0]
    else values[0] + separator + Join(values[1..], separator)
  }

  // ---------------------------------------------------------------------
  // Authorization request (RFC 6749, section 4.1.1; RFC 7636, section 4.3)
  // ---------------------------------------------------------------------

  /** The record the query starts from, in property order. `scope` is there
      even when the scope list is empty. */
  function BaseAuthorizeParams(client: OAuthClient, separator: string): seq<Pair> {
    [Pair("client_id", client.clientId),
     Pair("redirect_uri", client.redirectUri),
     Pair("scope", Join(client.scopes.values, separator)),
     Pair("response_type", "code")]
  }

  /** The query before the extra parameters: the base record, then `state`
      when the generated state is non-empty, then the PKCE challenge and its
      method when PKCE is on. */
  function GeneratedAuthorizeParams(client: OAuthClient, state: string, challenge: string, separator: string)
    : seq<Pair>
  {
    WithFlowParams(BaseAuthorizeParams(client, separator), state, challenge, PkceEnabled(client))
  }

  /** The keys `generateAuthorizeUrl` sets on top of the base parameters:
      `state` when one was generated, then the challenge and its method. */
  function WithFlowParams(ps: seq<Pair>, state: string, challenge: string, pkce: bool): seq<Pair> {
    var withState := if state != "" then SetParam(ps, "state", state) else ps;
    if pkce then SetParam(SetParam(withState, "code_challenge", challenge), "code_challenge_method", "S256")
    else withState
  }

  /** The first entry of every record of extra parameters (`const [[key,
      value]] = Object.entries(param)`); the index of the first record that has
      no entry, which makes the destructuring throw. */
  function ExtraEntries(records: seq<seq<Pair>>): (r: Result<seq<Pair>, nat>)
    ensures r.Success? ==> |r.value| == |records|
    ensures r.Failure? ==> r.error < |records|
    decreases |records|
  {
    if records == [] then Success([])
    else
      var last := records[|records| - 1];
      match ExtraEntries(records[..|records| - 1])
      case Failure(i) => Failure(i)
      case Success(entries) => if last == [] then Failure(|records| - 1) else Success(entries + [last[0]])
  }

  /** Success takes the first entry of every record; failure names the first
      record without one. */
  lemma {:induction false} ExtraEntriesShape(records: seq<seq<Pair>>)
    ensures var r := ExtraEntries(records);
            && (r.Success? ==> forall i | 0 <= i < |records| :: records[i] != [] && r.value[i] == records[i][0])
            && (r.Failure? ==> records[r.error] == [] && forall i | 0 <= i < r.error :: records[i] != [])
    decreases |records|
  {
    if records != [] {
      var init := records[..|records| - 1];
      ExtraEntriesShape(init);
      assert forall i | 0 <= i < |init| :: init[i] == records[i];
    }
  }

  /** The first record without an entry decides the failure, whatever follows it. */
  lemma {:induction false} ExtraEntriesFirstEmpty(records: seq<seq<Pair>>, i: nat)
    requires i < |records| && records[i] == []
    requires ExtraEntries(records[..i]).Success?
    ensures ExtraEntries(records) == Failure(i)
    decreases |records|
  {
    var init := records[..|records| - 1];
    if |records| == i + 1 {
      assert init == records[..i];
    } else {
      assert init[..i] == records[..i];
      ExtraEntriesFirstEmpty(init, i);
    }
  }

  /** The extra parameters of a client (none when `params` is absent). */
  function ClientExtras(client: OAuthClient): Result<seq<Pair>, nat> {
    if client.params.Some? then ExtraEntries(client.params.value) else Success([])
  }

  /** The full query: every extra entry `set` after the generated keys. */
  function AuthorizeParams(client: OAuthClient, state: string, challenge: string, separator: string)
    : (r: Result<seq<Pair>, OAuthError>)
  {
    match ClientExtras(client)
    case Failure(i) => Failure(MalformedParam(i))
    case Success(extras) => Success(SetAll(GeneratedAuthorizeParams(client, state, challenge, separator), extras))
  }

  /** The URL the user agent is redirected to. */
  function AuthorizeUrl(client: OAuthClient, state: string, challenge: string, separator: string)
    : (r: Result<string, OAuthError>)
  {
    match AuthorizeParams(client, state, challenge, separator)
    case Failure(e) => Failure(e)
    case Success(ps) => Success(client.authorizeUrl + "?" + Serialize(ps))
  }

  /** The generated part of the query is the base record followed by the
      optional `state` and the optional PKCE pair, each name once. */
  lemma GeneratedLayout(client: OAuthClient, state: string, challenge: string, separator: string)
    ensures GeneratedAuthorizeParams(client, state, challenge, separator)
         == BaseAuthorizeParams(client, separator)
          + (if state != "" then [Pair("state", state)] else [])
          + (if PkceEnabled(client)
             then [Pair("code_challenge", challenge), Pair("code_challenge_method", "S256")] else [])
    ensures UniqueNames(GeneratedAuthorizeParams(client, state, challenge, separator))
  {
    var base := BaseAuthorizeParams(client, separator);
    BaseUnique(client, separator);
    var withState := base + (if state != "" then [Pair("state", state)] else []);
    StateLayout(base, state);
    if PkceEnabled(client) {
      PkceLayout(withState, challenge);
    } else {
      assert withState + [] == withState;
    }
  }

  lemma StateLayout(base: seq<Pair>, state: string)
    requires UniqueNames(base) && |base| == 4
    requires base[0].name == "client_id" && base[1].name == "redirect_uri"
    requires base[2].name == "scope" && base[3].name == "response_type"
    ensures var withState := base + (if state != "" then [Pair("state", state)] else []);
            && (if state != "" then SetParam(base, "state", state) else base) == withState
            && UniqueNames(withState)
            && forall k | 0 <= k < |withState| ::
                 withState[k].name != "code_challenge" && withState[k].name != "code_challenge_method"
  {
    if state != "" {
      SetFresh(base, "state", state);
    } else {
      assert base + [] == base;
    }
  }

  lemma PkceLayout(withState: seq<Pair>, challenge: string)
    requires UniqueNames(withState)
    requires forall k | 0 <= k < |withState| ::
               withState[k].name != "code_challenge" && withState[k].name != "code_challenge_method"
    ensures SetParam(SetParam(withState, "code_challenge", challenge), "code_challenge_method", "S256")
         == withState + [Pair("code_challenge", challenge), Pair("code_challenge_method", "S256")]
    ensures UniqueNames(withState + [Pair("code_challenge", challenge), Pair("code_challenge_method", "S256")])
  {
    var cc, ccm := Pair("code_challenge", challenge), Pair("code_challenge_method", "S256");
    SetFresh(withState, cc.name, cc.value);
    var withChallenge := withState + [cc];
    SetFresh(withChallenge, ccm.name, ccm.value);
    assert withChallenge + [ccm] == withState + [cc, ccm];
  }

  lemma BaseUnique(client: OAuthClient, separator: string)
    ensures UniqueNames(BaseAuthorizeParams(client, separator))
  {
    var b := BaseAuthorizeParams(client, separator);
    assert b[0].name == "client_id" && b[1].name == "redirect_uri" && b[2].name == "scope" && b[3].name == "response_type";
  }

  /** A name's value after the extras: the last extra of that name, if any,
      otherwise the generated one. */
  function Applied(extras: seq<Pair>, name: string, generated: Option<string>): Option<string> {
    if LastValue(extras, name).Some? then LastValue(extras, name) else generated
  }

  /** What the provider finds in the query: each name once; the generated
      names first and in their order (an extra that overrides one keeps its
      place); every generated value unless an extra of the same name came
      later, in which case the last such extra wins; any other name only if an
      extra brought it. */
  lemma AuthorizeParamsContents(client: OAuthClient, state: string, challenge: string, separator: string)
    requires AuthorizeParams(client, state, challenge, separator).Success?
    ensures var r := AuthorizeParams(client, state, challenge, separator).value;
            var g := GeneratedAuthorizeParams(client, state, challenge, separator);
            var extras := ClientExtras(client).value;
            && UniqueNames(r)
            && |r| >= |g| >= 4
            && (forall k | 0 <= k < |g| :: r[k].name == g[k].name)
            && r[0].name == "client_id" && r[1].name == "redirect_uri"
            && r[2].name == "scope" && r[3].name == "response_type"
            && GetParam(r, "client_id") == Applied(extras, "client_id", Some(client.clientId))
            && GetParam(r, "redirect_uri") == Applied(extras, "redirect_uri", Some(client.redirectUri))
            && GetParam(r, "scope") == Applied(extras, "scope", Some(Join(client.scopes.values, separator)))
            && GetParam(r, "response_type") == Applied(extras, "response_type", Some("code"))
            && GetParam(r, "state") == Applied(extras, "state", if state != "" then Some(state) else None)
            && GetParam(r, "code_challenge")
               == Applied(extras, "code_challenge", if PkceEnabled(client) then Some(challenge) else None)
            && GetParam(r, "code_challenge_method")
               == Applied(extras, "code_challenge_method", if PkceEnabled(client) then Some("S256") else None)
  {
    AuthorizeParamsLayout(client, state, challenge, separator);
    AuthorizeParamsLookups(client, state, challenge, separator);
  }

  lemma AuthorizeParamsLayout(client: OAuthClient, state: string, challenge: string, separator: string)
    requires AuthorizeParams(client, state, challenge, separator).Success?
    ensures var r := AuthorizeParams(client, state, challenge, separator).value;
            var g := GeneratedAuthorizeParams(client, state, challenge, separator);
            && UniqueNames(r)
            && |r| >= |g| >= 4
            && (forall k | 0 <= k < |g| :: r[k].name == g[k].name)
            && r[0].name == "client_id" && r[1].name == "redirect_uri"
            && r[2].name == "scope" && r[3].name == "response_type"
  {
    var g := GeneratedAuthorizeParams(client, state, challenge, separator);
    GeneratedLayout(client, state, challenge, separator);
    SetAllOnUnique(g, ClientExtras(client).value);
  }

  lemma AuthorizeParamsLookups(client: OAuthClient, state: string, challenge: string, separator: string)
    requires AuthorizeParams(client, state, challenge, separator).Success?
    ensures var r := AuthorizeParams(client, state, challenge, separator).value;
            var extras := ClientExtras(client).value;
            && GetParam(r, "client_id") == Applied(extras, "client_id", Some(client.clientId))
            && GetParam(r, "redirect_uri") == Applied(extras, "redirect_uri", Some(client.redirectUri))
            && GetParam(r, "scope") == Applied(extras, "scope", Some(Join(client.scopes.values, separator)))
            && GetParam(r, "response_type") == Applied(extras, "response_type", Some("code"))
            && GetParam(r, "state") == Applied(extras, "state", if state != "" then Some(state) else None)
            && GetParam(r, "code_challenge")
               == Applied(extras, "code_challenge", if PkceEnabled(client) then Some(challenge) else None)
            && GetParam(r, "code_challenge_method")
               == Applied(extras, "code_challenge_method", if PkceEnabled(client) then Some("S256") else None)
  {
    var g := GeneratedAuthorizeParams(client, state, challenge, separator);
    var extras := ClientExtras(client).value;
    GeneratedLookups(client, state, challenge, separator);
    forall n | n in GeneratedNames
      ensures GetParam(SetAll(g, extras), n) == Applied(extras, n, GetParam(g, n))
    {
      SetAllGet(g, extras, n);
    }
  }

  /** The names the flow itself may put in the query. */
  const GeneratedNames: set<string> :=
    {"client_id", "redirect_uri", "scope", "response_type", "state", "code_challenge", "code_challenge_method"}

  /** Any other name reaches the query only through an extra parameter. */
  lemma AuthorizeParamsOtherNames(client: OAuthClient, state: string, challenge: string, separator: string, name: string)
    requires AuthorizeParams(client, state, challenge, separator).Success?
    requires name !in GeneratedNames
    ensures GetParam(AuthorizeParams(client, state, challenge, separator).value, name)
         == LastValue(ClientExtras(client).value, name)
  {
    var g := GeneratedAuthorizeParams(client, state, challenge, separator);
    GeneratedLayout(client, state, challenge, separator);
    SetAllGet(g, ClientExtras(client).value, name);
    GeneratedOtherNames(client, state, challenge, separator, name);
  }

  lemma GeneratedLookups(client: OAuthClient, state: string, challenge: string, separator: string)
    ensures var g := GeneratedAuthorizeParams(client, state, challenge, separator);
            && GetParam(g, "client_id") == Some(client.clientId)
            && GetParam(g, "redirect_uri") == Some(client.redirectUri)
            && GetParam(g, "scope") == Some(Join(client.scopes.values, separator))
            && GetParam(g, "response_type") == Some("code")
            && GetParam(g, "state") == (if state != "" then Some(state) else None)
            && GetParam(g, "code_challenge") == (if PkceEnabled(client) then Some(challenge) else None)
            && GetParam(g, "code_challenge_method") == (if PkceEnabled(client) then Some("S256") else None)
  {
    GeneratedLayout(client, state, challenge, separator);
    LayoutLookups(client, state, challenge, separator);
  }

  /** The lookups of `GeneratedLookups`, on the generated query laid out as
      the base record, the optional `state` and the optional PKCE pair. */
  lemma LayoutLookups(client: OAuthClient, state: string, challenge: string, separator: string)
    ensures var g := BaseAuthorizeParams(client, separator)
                   + (if state != "" then [Pair("state", state)] else [])
                   + (if PkceEnabled(client)
                      then [Pair("code_challenge", challenge), Pair("code_challenge_method", "S256")] else []);
            && GetParam(g, "client_id") == Some(client.clientId)
            && GetParam(g, "redirect_uri") == Some(client.redirectUri)
            && GetParam(g, "scope") == Some(Join(client.scopes.values, separator))
            && GetParam(g, "response_type") == Some("code")
            && GetParam(g, "state") == (if state != "" then Some(state) else None)
            && GetParam(g, "code_challenge") == (if PkceEnabled(client) then Some(challenge) else None)
            && GetParam(g, "code_challenge_method") == (if PkceEnabled(client) then Some("S256") else None)
  {
    var base := BaseAuthorizeParams(client, separator);
    var st := if state != "" then [Pair("state", state)] else [];
    var pk := if PkceEnabled(client) then [Pair("code_challenge", challenge), Pair("code_challenge_method", "S256")] else [];
    BaseLookups(client, separator);
    GetParamAppend3(base, st, pk, "client_id");
    GetParamAppend3(base, st, pk, "redirect_uri");
    GetParamAppend3(base, st, pk, "scope");
    GetParamAppend3(base, st, pk, "response_type");
    GetParamAppend3(base, st, pk, "state");
    GetParamAppend3(base, st, pk, "code_challenge");
    GetParamAppend3(base, st, pk, "code_challenge_method");
  }

  /** Lookups in the base record: each of its four names, and none of the
      names the flow adds. */
  lemma BaseLookups(client: OAuthClient, separator: string)
    ensures var base := BaseAuthorizeParams(client, separator);
            && GetParam(base, "client_id") == Some(client.clientId)
            && GetParam(base, "redirect_uri") == Some(client.redirectUri)
            && GetParam(base, "scope") == Some(Join(client.scopes.values, separator))
            && GetParam(base, "response_type") == Some("code")
            && GetParam(base, "state") == None
            && GetParam(base, "code_challenge") == None
            && GetParam(base, "code_challenge_method") == None
  {
    var base := BaseAuthorizeParams(client, separator);
    BaseUnique(client, separator);
    GetParamUnique(base, 0);
    GetParamUnique(base, 1);
    GetParamUnique(base, 2);
    GetParamUnique(base, 3);
    AbsentName(base, "state");
    AbsentName(base, "code_challenge");
    AbsentName(base, "code_challenge_method");
  }

  lemma GeneratedOtherNames(client: OAuthClient, state: string, challenge: string, separator: string, name: string)
    requires name !in GeneratedNames
    ensures GetParam(GeneratedAuthorizeParams(client, state, challenge, separator), name) == None
  {
    GeneratedLayout(client, state, challenge, separator);
    AbsentName(GeneratedAuthorizeParams(client, state, challenge, separator), name);
  }

  // ---------------------------------------------------------------------
  // Callback (RFC 6749, sections 4.1.2 and 10.12)
  // ---------------------------------------------------------------------

  /** `new URLSearchParams(url.split('?')[1])`: the text between the first and
      the second `?` (none at all when the URL has no `?`). */
  function QueryParams(url: string): (ps: seq<Pair>) {
    var parts := Split(url, '?');
    if |parts| >= 2 then Parse(parts[1]) else []
  }

  /** A redirect built by appending a serialized query to a `?`-free URL
      yields exactly that query. */
  lemma QueryParamsOfRedirect(base: string, ps: seq<Pair>)
    requires '?' !in base
    ensures QueryParams(base + "?" + Serialize(ps)) == ps
  {
    SplitAt(base, '?', Serialize(ps));
    ParseSerialize(ps);
  }

  datatype Callback = Callback(state: string, code: string)

  /** `state` and `code` from the callback query; a missing or empty one
      makes the callback invalid. */
  function ExtractCallback(url: string): (r: Result<Callback, OAuthError>)
    ensures r.Success? <==>
              var ps := QueryParams(url);
              && GetParam(ps, "state").Some? && GetParam(ps, "state").value != ""
              && GetParam(ps, "code").Some? && GetParam(ps, "code").value != ""
    ensures r.Failure? ==> r.error == InvalidCallback
    ensures r.Success? ==>
              && r.value.state != "" && r.value.code != ""
              && GetParam(QueryParams(url), "state") == Some(r.value.state)
              && GetParam(QueryParams(url), "code") == Some(r.value.code)
  {
    var ps := QueryParams(url);
    var state := GetParam(ps, "state");
    var code := GetParam(ps, "code");
    if state.None? || state.value == "" || code.None? || code.value == "" then Failure(InvalidCallback)
    else Success(Callback(state.value, code.value))
  }

  /** The provider's redirect carries the state and code it was given. */
  lemma ExtractCallbackOfRedirect(base: string, ps: seq<Pair>, state: string, code: string)
    requires '?' !in base
    requires GetParam(ps, "state") == Some(state) && GetParam(ps, "code") == Some(code)
    ensures ExtractCallback(base + "?" + Serialize(ps))
         == if state != "" && code != "" then Success(Callback(state, code)) else Failure(InvalidCallback)
  {
    QueryParamsOfRedirect(base, ps);
  }

  /** The check of `#verifyState`: a stored state that is present, non-empty
      and exactly the returned one. */
  predicate StateVerified(cookies: map<string, Cookie>, returned: string) {
    StateCookie in cookies && cookies[StateCookie].value != "" && cookies[StateCookie].value == returned
  }

  // ---------------------------------------------------------------------
  // Access token request (RFC 6749, section 4.1.3; RFC 7636, section 4.5)
  // ---------------------------------------------------------------------

  /** The verifier stored at authorization time: present and non-empty, or
      `MissingVerifier`. */
  function StoredVerifier(cookies: map<string, Cookie>): (r: Result<string, OAuthError>)
    ensures r.Success? <==> VerifierCookie in cookies && cookies[VerifierCookie].value != ""
    ensures r.Success? ==> r.value == cookies[VerifierCookie].value
    ensures r.Failure? ==> r.error == MissingVerifier
  {
    if VerifierCookie in cookies && cookies[VerifierCookie].value != "" then Success(cookies[VerifierCookie].value)
    else Failure(MissingVerifier)
  }

  /** The record the token request body starts from, in property order. */
  function TokenBaseParams(client: OAuthClient, code: string): seq<Pair> {
    [Pair("client_id", client.clientId),
     Pair("client_secret", client.clientSecret),
     Pair("code", code),
     Pair("redirect_uri", client.redirectUri),
     Pair("grant_type", "authorization_code")]
  }

  /** The token request body: the record, then `code_verifier` when PKCE
      supplied one. */
  function TokenParams(client: OAuthClient, code: string, verifier: Option<string>): (ps: seq<Pair>) {
    var base := TokenBaseParams(client, code);
    if verifier.Some? then SetParam(base, "code_verifier", verifier.value) else base
  }

  lemma TokenBaseUnique(client: OAuthClient, code: string)
    ensures UniqueNames(TokenBaseParams(client, code))
    ensures forall k | 0 <= k < 5 :: TokenBaseParams(client, code)[k].name != "code_verifier"
  {
    var b := TokenBaseParams(client, code);
    assert b[0].name == "client_id" && b[1].name == "client_secret" && b[2].name == "code";
    assert b[3].name == "redirect_uri" && b[4].name == "grant_type";
  }

  const TokenHeaders: seq<Pair> :=
    [Pair("Content-Type", "application/x-www-form-urlencoded"),
     Pair("Accept", "application/json"),
     Pair("Accept-Encoding", "application/json")]

  function TokenRequestFor(client: OAuthClient, code: string, verifier: Option<string>): (r: TokenRequest) {
    TokenRequest(client.tokenUrl, "POST", TokenHeaders, Serialize(TokenParams(client, code, verifier)))
  }

  /** The token endpoint decodes from the body exactly the RFC 6749 fields,
      in order, with `code_verifier` last when present, each name once. */
  lemma TokenBodyDecodes(client: OAuthClient, code: string, verifier: Option<string>)
    ensures Parse(TokenRequestFor(client, code, verifier).body)
         == TokenBaseParams(client, code) + (if verifier.Some? then [Pair("code_verifier", verifier.value)] else [])
    ensures UniqueNames(Parse(TokenRequestFor(client, code, verifier).body))
  {
    var base := TokenBaseParams(client, code);
    TokenBaseUnique(client, code);
    if verifier.Some? {
      SetFresh(base, "code_verifier", verifier.value);
    } else {
      assert base + [] == base;
    }
    ParseSerialize(TokenParams(client, code, verifier));
  }
}
