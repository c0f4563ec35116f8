# svoauth: the authorization-code flow with PKCE, modelled in Dafny

This project models the server-side core of `svoauth`: `OAuthInstance` and
`OAuthHandler` in `src/index.ts`. It covers the OAuth 2.0 authorization-code
flow (RFC 6749, section 4.1) with optional PKCE (RFC 7636) over one request's
cookie jar:

- `generateAuthorizeUrl` stores the state and, with PKCE, the code verifier in
  short-lived cookies. It returns the authorization URL: the base parameters,
  then `state`, then `code_challenge` and `code_challenge_method=S256`, then
  the client's extra parameters, all applied with `URLSearchParams.set`.
- `#parseCallbackUrl` and `#verifyState` take `state` and `code` from the
  callback URL. A callback without both is rejected before any cookie is
  touched. Otherwise the stored state is read and deleted on every path of
  the state check, and a mismatch is rejected as a CSRF attempt.
- `exchangeCodeForToken` runs the callback check first. With PKCE it then
  reads and deletes the verifier cookie. It produces the form-encoded request
  for the token endpoint, which is the value handed to `fetch`.
- `OAuthHandler` is the registry of configured clients.

The model is built in layers:

| file | module | contents |
|---|---|---|
| `wrappers.dfy` | `Wrappers` | `Option`, `Result` |
| `utf8.dfy` | `Utf8` | UTF-8 encoder, and the WHATWG decoder with U+FFFD replacement |
| `form_urlencoded.dfy` | `FormUrlEncoded` | serializer and parser of section 5 of the WHATWG URL Standard (application/x-www-form-urlencoded) |
| `search_params.dfy` | `SearchParams` | `URLSearchParams`: an ordered list of pairs, with `get`, `set` and `toString` |
| `cookies.dfy` | `Cookies` | the request's cookie jar, with a ghost trace of its accesses |
| `oauth_types.dfy` | `OAuthTypes` | client configuration and the errors the flow throws |
| `oauth_spec.dfy` | `OAuthSpec` | the flow as functions of the configuration and the inputs |
| `oauth.dfy` | `OAuth` | the two classes, whose methods are proved against `OAuthSpec` |
| `flows.dfy` | `OAuthFlows` | whole interactions: sign-in, a replayed callback, a forged callback, a lost verifier |

Values the code obtains from outside become parameters:

- the random state and code verifier;
- the SHA-256/base64url code challenge, as a function parameter;
- the delimiter mapping, as a function parameter;
- `process.env.NODE_ENV === 'production'`, as a boolean;
- the request URL.

A thrown `Error` becomes a `Failure` carrying an `OAuthError`.

The model follows the code on these points:

- `scope` is always sent, even for an empty scope list. It comes before `response_type`.
- The state is stored and sent only when the generator returned a non-empty string.
- An extra parameter that shares a name with a generated one replaces it in
  place, because `set` keeps the first occurrence's position. The generated
  order is kept.
- An extra parameter named `state` or `code_challenge` therefore replaces the
  generated value. `OAuthFlows.SignIn` assumes no such override.
- A callback whose `state` or `code` is present but empty is invalid.
- The query is the text between the first and the second `?` of the URL,
  because the code uses `url.split('?')[1]`.
- The verifier cookie is read only after the state check has passed. It is
  deleted before the check that it is present.

## Model

| member | source | states |
|---|---|---|
| Utf8.DecodeEncode | src/index.ts:84-86 | decoding the UTF-8 encoding of any string of Unicode scalar values (a well-formed JavaScript string) gives the string back (the byte layer under `URLSearchParams` parsing and `toString`) |
| FormUrlEncoded.DecodeEncode | src/index.ts:84-86 | percent-decoding with `+` as space inverts the urlencoded byte serializer for every string of Unicode scalar values |
| FormUrlEncoded.Serialize | src/index.ts:69 | the serialized query is empty exactly for an empty list and never contains `?` or `#`, so it cannot end the query early |
| FormUrlEncoded.ParseSerialize | src/index.ts:84-86 | parsing what `toString` produced gives back exactly the same list of pairs, in order, for names and values made of Unicode scalar values |
| SearchParams.GetParam | src/index.ts:85-86 | `get` finds a value exactly when some pair has the name, and returns the first such pair's value |
| SearchParams.SetParamSpec | src/index.ts:41 | after `set`, exactly one pair has the name. It holds the new value at the position of the old first occurrence (or at the end), and the list without that name is unchanged |
| SearchParams.SetParamKeepsOthers | src/index.ts:57-58 | `set` does not change the value `get` returns for any other name |
| SearchParams.SetParamOnUnique | src/index.ts:57-58 | on a list with no repeated name, `set` keeps the names unique, keeps every name at its position and only appends |
| SearchParams.SetParamOnUniqueShape | src/index.ts:41 | on a list with no repeated name, `set` replaces the pair in place or appends a new pair at the end |
| SearchParams.SetParamAbsent | src/index.ts:121 | `set` of a name that is not present appends the pair at the end |
| SearchParams.SetAllGet | src/index.ts:63-66 | after a sequence of `set`s, a name has the value it was last set to, or its earlier value when no `set` touched it |
| SearchParams.SetAllOnUnique | src/index.ts:63-66 | a sequence of `set`s keeps names unique and keeps every existing name at its position |
| SearchParams.GetParamAppend | src/index.ts:85-86 | `get` on a concatenation looks in the second part only when the first part lacks the name |
| SearchParams.URLSearchParams.constructor | src/index.ts:22-29 | the list is the record's entries in order |
| SearchParams.URLSearchParams.Set | src/index.ts:41 | the list becomes the `set` of the old list |
| Cookies.CookieJar.constructor | src/index.ts:20 | the jar holds the request's cookies and its trace is empty |
| Cookies.CookieJar.Get | src/index.ts:73 | returns the cookie's value, changes no cookie and records a read |
| Cookies.CookieJar.Set | src/index.ts:32-38 | that cookie gets the value and options, nothing else changes, and a write is recorded |
| Cookies.CookieJar.Delete | src/index.ts:74 | that cookie is gone, nothing else changes, and a removal is recorded |
| OAuthSpec.FlowCookieOptions | src/index.ts:32-38 | flow cookies are http-only, secure exactly in production, same-site lax, 600 seconds, path `/` |
| OAuthSpec.AuthorizeCookiesEntries | src/index.ts:31-59 | after authorization, the state cookie holds the state when one was generated, and the verifier cookie holds the verifier when PKCE is on. Every other cookie is unchanged |
| OAuthSpec.ExtraEntries | src/index.ts:62-67 | each record contributes exactly one entry. A failure names a record index |
| OAuthSpec.ExtraEntriesShape | src/index.ts:64 | on success each entry is its record's first entry. On failure the named record is the first one without an entry |
| OAuthSpec.ExtraEntriesFirstEmpty | src/index.ts:64 | the first record without an entry makes the whole extraction fail at its index |
| OAuthSpec.GeneratedLayout | src/index.ts:22-59 | before the extras, the query is the four base pairs, then `state` when generated, then the PKCE pair, with no name repeated |
| OAuthSpec.GeneratedLookups | src/index.ts:22-59 | before the extras, `get` returns each generated value, and nothing for a step that did not run |
| OAuthSpec.AuthorizeParamsContents | src/index.ts:22-69 | the final query has unique names and the generated names first, in order. Each generated name has its last overriding extra's value, otherwise the generated value |
| OAuthSpec.AuthorizeParamsOtherNames | src/index.ts:61-67 | any other name is in the query only through an extra, with that name's last extra value |
| OAuthSpec.QueryParamsOfRedirect | src/index.ts:84 | splitting `base?query` at `?` and parsing gives back the serialized pairs when `base` has no `?` |
| OAuthSpec.ExtractCallback | src/index.ts:83-90 | a callback is valid exactly when `get` finds a non-empty `state` and a non-empty `code` in its query, and it yields those values. Otherwise it is `InvalidCallback` |
| OAuthSpec.ExtractCallbackOfRedirect | src/index.ts:83-90 | a redirect that carries a state and a code is valid exactly when both are non-empty, and it yields them |
| OAuthSpec.StoredVerifier | src/index.ts:114-119 | the verifier is usable exactly when its cookie is present and non-empty. Otherwise the result is `MissingVerifier` |
| OAuthSpec.TokenBodyDecodes | src/index.ts:105-131 | the token endpoint decodes exactly `client_id, client_secret, code, redirect_uri, grant_type`, then `code_verifier` when there is one, each once |
| OAuth.OAuthInstance.constructor | src/index.ts:13-15 | the instance holds the given client |
| OAuth.OAuthInstance.GenerateAuthorizeUrl | src/index.ts:17-70 | the URL is the authorization URL of the client and the inputs. The jar gets exactly the flow cookies, in order, or an error for a malformed extras record |
| OAuth.OAuthInstance.StoreFlowSecrets | src/index.ts:31-59 | the state and PKCE blocks update the query and the jar exactly as the specification functions say |
| OAuth.OAuthInstance.AddExtraParams | src/index.ts:62-67 | the loop `set`s each record's entry in order, or stops at the first record without an entry and reports its index |
| OAuth.OAuthInstance.VerifyState | src/index.ts:72-81 | accepted exactly when the stored state is present, non-empty and equal to the returned one. The state cookie is deleted on every path, after being read |
| OAuth.OAuthInstance.ParseCallbackUrl | src/index.ts:83-94 | an invalid callback leaves the jar untouched. Otherwise the state is checked and consumed, and the code is returned only if the state matched |
| OAuth.OAuthInstance.ExchangeCodeForToken | src/index.ts:96-122 | a request is produced only after a valid callback with a verified state. With PKCE it also needs a non-empty stored verifier. It states the outcome and the new jar on every path |
| OAuth.OAuthInstance.RequestToken | src/index.ts:105-131 | builds the token request after the callback check. With PKCE it adds the stored verifier, taken and deleted from the jar |
| OAuth.OAuthInstance.TakeVerifier | src/index.ts:113-119 | reads the verifier cookie and deletes it whatever it held. Absent or empty is `MissingVerifier` |
| OAuth.OAuthHandler.constructor | src/index.ts:146-148 | the registry is the configured record |
| OAuth.OAuthHandler.Get | src/index.ts:150-158 | returns a new instance bound to exactly the registered client exactly when the name is registered. Otherwise `ClientNotFound` |
| OAuthFlows.SignIn | src/index.ts:17-122 | for endpoint and redirect URLs without a query, a redirect carrying the code and the echoed state yields the token request for that code (with the generated verifier under PKCE). The provider sees the generated state and challenge unless an extra overrides them |
| OAuthFlows.AuthorizeUrlEchoes | src/index.ts:41-69 | for an authorization endpoint without a query, the authorization URL carries the generated state and the PKCE challenge unless an extra overrides them |
| OAuthFlows.CallbackOfEcho | src/index.ts:83-90 | the provider's redirect with the code and the echoed state is a valid callback for exactly those values |
| OAuthFlows.AuthorizeCookiesVerify | src/index.ts:72-81 | the cookies set at authorization pass the state check, and with PKCE they yield the generated verifier |
| OAuthFlows.RedeemTwice | src/index.ts:72-81 | replaying a valid callback on the same jar is a CSRF mismatch the second time |
| OAuthFlows.ForgedCallback | src/index.ts:72-81 | a callback with a state that does not verify is a CSRF mismatch. Only the state cookie is consumed, and the verifier cookie stays |
| OAuthFlows.LostVerifier | src/index.ts:113-119 | with PKCE, a verified callback without a usable verifier cookie is `MissingVerifier`, with both flow cookies deleted |

`StoreFlowSecrets`, `AddExtraParams`, `RequestToken` and `TakeVerifier`
correspond to consecutive blocks of `generateAuthorizeUrl` and
`exchangeCodeForToken`. They are separate methods so that each block is proved
on its own.

## Left out

- `fetch` and everything after it (src/index.ts:124-139) are left out: the network call, the response status check, `response.json()` and the `TokenResponse` type. The model ends with the request that would be sent.
- `generateState`, `generateCodeVerifier` and `generateCodeChallenge` (randomness, SHA-256, base64url) are not part of this model. Their results are parameters.
- `mapDelimiter` is not part of this model. It is a function parameter.
- `isServer()` (src/index.ts:8) and the `console.debug` and `console.error` calls are left out. They are environment checks and logging.
- The `if (!this.#client)` check (src/index.ts:97-99) is left out. The constructor always sets the client, so the check cannot fail.
- Error messages are not modelled. Only the kind of error is.
- A `TypeError` from a record of extra parameters without entries is modelled as `MalformedParam(index)`. This includes its timing: after the cookies were set.
- Cookie attributes: `maxAge`, `secure` and `path` are stored as data only. Expiry, transport security and path scoping are not modelled; `delete` with path `/` removes the cookie set with path `/`.
- A record of extra parameters is given as its entries in JavaScript property order. The ordering rules of `Object.entries` are not modelled.
- Token refresh and revocation are not in this source file, so they are not modelled.
- Concurrency between requests is not modelled. Each request has its own jar, and the registry is never written after construction.
- Strings are sequences of Unicode scalar values. JavaScript strings are UTF-16 and may hold lone surrogates, which `URLSearchParams` (src/index.ts:22, 41, 65, 84) replaces with U+FFFD. The round trips of `Utf8.DecodeEncode`, `FormUrlEncoded.DecodeEncode` and `FormUrlEncoded.ParseSerialize` are therefore stated for well-formed strings only. That replacement is not modelled.
- OAuthFlows.AuthorizeUrlEchoes: requires an `authorizeUrl` without `?`. RFC 6749, section 3.1 allows the authorization endpoint to carry a query. For such an endpoint src/index.ts:69 appends a second `?`. A URL parser then reads the generated `client_id` as part of the endpoint's last value, so the provider does not see it. The model's `AuthorizeUrl` is exactly that concatenation, but nothing is proved about what a provider reads from it.
- OAuthFlows.SignIn: requires an `authorizeUrl` without `?`, for the reason above. It also requires a `redirectUri` without `?`, so that the provider's callback is the redirect URI followed by `?code=…&state=…`. A redirect URI with its own query, where the provider appends with `&`, is not covered by this scenario.
