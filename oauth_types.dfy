/** The configuration record of one OAuth client and the failures of the flow. */
module OAuthTypes {
  import opened Wrappers
  import opened FormUrlEncoded

  /** The scope delimiters the configuration type admits: `' '`, `','`, `':'`. */
  datatype Delimiter = Space | Comma | Colon

  datatype Scopes = Scopes(values: seq<string>, delimiter: Option<Delimiter>)

  /** `OAuthClient`. Each element of `params` is one record of extra query
      parameters, given as its entries in property order. */
  datatype OAuthClient = OAuthClient(
    clientId: string,
    clientSecret: string,
    authorizeUrl: string,
    tokenUrl: string,
    revokeTokenUrl: Option<string>,
    refreshTokenUrl: Option<string>,
    redirectUri: string,
    pkce: Option<bool>,
    scopes: Scopes,
    params: Option<seq<seq<Pair>>>)

  /** `if (client.pkce)`: an absent flag counts as false. */
  predicate PkceEnabled(client: OAuthClient) {
    client.pkce == Some(true)
  }

  /** The errors the flow throws. `MalformedParam(i)` is the `TypeError` raised
      when record `i` of `params` has no entry to destructure. */
  datatype OAuthError =
    | ClientNotFound(name: string)
    | InvalidCallback
    | CsrfMismatch
    | MissingVerifier
    | MalformedParam(index: nat)

  /** The token request as handed to `fetch`. */
  datatype TokenRequest = TokenRequest(endpoint: string, httpMethod: string, headers: seq<Pair>, body: string)
}
