/**
 * Token acquisition of src/token.go: redeem the stored refresh token and,
 * when that yields no access token, sign in through the browser and exchange
 * the authorization code. The token endpoint is modelled by its answers, as
 * functions of the grant sent; the browser round trip by the one request the
 * callback listener serves.
 */
module Token {
  import opened Wrappers

  const Scope := "user-library-read user-library-modify"
  const CallbackPath := "/callback"

  /** The token endpoint's JSON body as decoded; a missing field decodes to "". */
  datatype TokenResponse = TokenResponse(accessToken: string, refreshToken: string)

  /** One POST to the token endpoint: its decoded reply, or a request that could not be sent. */
  datatype Exchange = Replied(response: TokenResponse) | Unsent

  /** What the token endpoint answers to a refresh-token grant and to an authorization-code grant. */
  datatype Provider = Provider(refreshGrant: string -> Exchange, codeGrant: string -> Exchange)

  /** The form values of the request the browser sends to the callback path; a missing value is "". */
  datatype CallbackRequest = CallbackRequest(state: string, code: string)

  /** The reasons token acquisition ends the run (log.Fatalf). */
  datatype Failure =
    | RequestNotSent
    | StateMismatch(expected: string, received: string)
    | NoAccessToken

  datatype Result<T> = Ok(value: T) | Failed(failure: Failure)

  /** The calls to the outside world GetTokens makes, in order. */
  datatype Call = RefreshGrant(refreshToken: string) | SignIn(state: string) | CodeGrant(code: string)

  /** What GetTokens returns, or why it fails, and the calls it made. */
  datatype TokenRun = TokenRun(result: Result<TokenResponse>, calls: seq<Call>)

  /** The redirect URI of the authorization request, as signInToSpotify formats it. */
  function AuthorizeRedirectUri(redirectHost: string): string
  {
    "http://" + redirectHost + CallbackPath
  }

  /** The query parameters of the authorization request, before URL encoding. */
  function AuthorizeQuery(clientId: string, redirectHost: string, state: string): (q: seq<(string, string)>)
    ensures Get(q, "response_type") == Some("code")
    ensures Get(q, "client_id") == Some(clientId)
    ensures Get(q, "scope") == Some(Scope)
    ensures Get(q, "redirect_uri") == Some(AuthorizeRedirectUri(redirectHost))
    ensures Get(q, "state") == Some(state)
  {
    var q := [ ("response_type", "code"), ("client_id", clientId), ("scope", Scope),
               ("redirect_uri", AuthorizeRedirectUri(redirectHost)), ("state", state) ];
    GetFirst(q, 0, "response_type");
    GetFirst(q, 1, "client_id");
    GetFirst(q, 2, "scope");
    GetFirst(q, 3, "redirect_uri");
    GetFirst(q, 4, "state");
    q
  }

  /** The form of the authorization-code grant, before URL encoding. */
  function CodeGrantForm(code: string, clientId: string, clientSecret: string, redirectHost: string)
    : (f: seq<(string, string)>)
    ensures Get(f, "grant_type") == Some("authorization_code")
    ensures Get(f, "code") == Some(code)
    ensures Get(f, "redirect_uri") == Some("http://" + redirectHost + "/callback")
    ensures Get(f, "client_id") == Some(clientId)
    ensures Get(f, "client_secret") == Some(clientSecret)
  {
    var f := [ ("grant_type", "authorization_code"), ("code", code),
               ("redirect_uri", "http://" + redirectHost + "/callback"),
               ("client_id", clientId), ("client_secret", clientSecret) ];
    GetFirst(f, 0, "grant_type");
    GetFirst(f, 1, "code");
    GetFirst(f, 2, "redirect_uri");
    GetFirst(f, 3, "client_id");
    GetFirst(f, 4, "client_secret");
    f
  }

  /** The form of the refresh-token grant, before URL encoding. */
  function RefreshGrantForm(refreshToken: string, clientId: string, clientSecret: string)
    : (f: seq<(string, string)>)
    ensures Get(f, "grant_type") == Some("refresh_token")
    ensures Get(f, "refresh_token") == Some(refreshToken)
    ensures Get(f, "client_id") == Some(clientId)
    ensures Get(f, "client_secret") == Some(clientSecret)
    ensures Get(f, "redirect_uri") == None
  {
    var f := [ ("grant_type", "refresh_token"), ("refresh_token", refreshToken),
               ("client_id", clientId), ("client_secret", clientSecret) ];
    GetFirst(f, 0, "grant_type");
    GetFirst(f, 1, "refresh_token");
    GetFirst(f, 2, "client_id");
    GetFirst(f, 3, "client_secret");
    f
  }

  /** url.Values.Get: the first value given for name. */
  function Get(params: seq<(string, string)>, name: string): (r: Option<string>)
    ensures r.Some? <==> exists i | 0 <= i < |params| :: params[i].0 == name
    ensures r.Some? ==> exists i | 0 <= i < |params| :: params[i] == (name, r.value)
  {
    if params == [] then None
    else if params[0].0 == name then Some(params[0].1)
    else Get(params[1..], name)
  }

  /** Get finds the value of the first parameter with the name. */
  lemma {:induction false} GetFirst(params: seq<(string, string)>, i: nat, name: string)
    requires i < |params| && params[i].0 == name
    requires forall j | 0 <= j < i :: params[j].0 != name
    ensures Get(params, name) == Some(params[i].1)
  {
    if i > 0 {
      GetFirst(params[1..], i - 1, name);
    }
  }

  /** The authorization request and the code grant name the same redirect URI. */
  lemma RedirectUrisAgree(clientId: string, clientSecret: string, redirectHost: string,
                          state: string, code: string)
    ensures Get(AuthorizeQuery(clientId, redirectHost, state), "redirect_uri")
         == Get(CodeGrantForm(code, clientId, clientSecret, redirectHost), "redirect_uri")
         == Some("http://" + redirectHost + "/callback")
  {
  }

  /**
   * The /callback check: a request is accepted only if its state equals the
   * one sent with the authorization request (section 4.1 of RFC 6749), and
   * then its code is the authorization code.
   */
  function CheckCallback(expected: string, request: CallbackRequest): (r: Result<string>)
    ensures r.Ok? <==> request.state == expected
    ensures r.Ok? ==> r.value == request.code
    ensures r.Failed? ==> r.failure == StateMismatch(expected, request.state)
  {
    if request.state != expected then Failed(StateMismatch(expected, request.state))
    else Ok(request.code)
  }

  /** The state the /callback handler shares with signInToSpotify. */
  class CallbackListener {
    const state: string
    var authorizationCode: string
    var done: bool

    constructor (state: string)
      ensures this.state == state && authorizationCode == "" && !done
    {
      this.state := state;
      authorizationCode := "";
      done := false;
    }

    /**
     * Serves one request to the callback path: a mismatching state is answered
     * with 400 and ends the run, leaving the fields as they were; a matching
     * one is answered with 200, its code recorded and completion signalled.
     */
    method Handle(request: CallbackRequest) returns (status: int)
      modifies this
      ensures status == (if request.state == state then 200 else 400)
      ensures request.state == state ==> authorizationCode == request.code && done
      ensures request.state != state ==> authorizationCode == old(authorizationCode) && done == old(done)
      ensures CheckCallback(state, request) ==
        if status == 200 then Ok(authorizationCode) else Failed(StateMismatch(state, request.state))
    {
      if request.state != state {
        return 400;
      }
      authorizationCode := request.code;
      done := true;
      status := 200;
    }
  }

  /**
   * signInToSpotify: builds the authorization request for the browser, serves
   * the one callback and returns the authorization code it delivers.
   */
  method SignInToSpotify(clientId: string, redirectHost: string, state: string, request: CallbackRequest)
    returns (query: seq<(string, string)>, code: Result<string>)
    ensures query == AuthorizeQuery(clientId, redirectHost, state)
    ensures Get(query, "state") == Some(state)
    ensures code == CheckCallback(state, request)
  {
    query := AuthorizeQuery(clientId, redirectHost, state);
    var listener := new CallbackListener(state);
    var status := listener.Handle(request);
    if status != 200 {
      return query, Failed(StateMismatch(state, request.state));
    }
    code := Ok(listener.authorizationCode);
  }

  /**
   * requestTokensWithRefreshToken: the endpoint's reply, with the old refresh
   * token kept when the reply carries none.
   */
  function RequestTokensWithRefreshToken(refreshToken: string, provider: Provider): (r: Result<TokenResponse>)
    ensures r.Failed? <==> provider.refreshGrant(refreshToken).Unsent?
    ensures r.Failed? ==> r.failure == RequestNotSent
    ensures r.Ok? ==>
      var sent := provider.refreshGrant(refreshToken).response;
      && r.value.accessToken == sent.accessToken
      && r.value.refreshToken == (if sent.refreshToken == "" then refreshToken else sent.refreshToken)
  {
    match provider.refreshGrant(refreshToken)
    case Unsent => Failed(RequestNotSent)
    case Replied(res) =>
      if res.refreshToken == "" then Ok(res.(refreshToken := refreshToken)) else Ok(res)
  }

  /** requestTokensWithCode: the endpoint's reply as it is. */
  function RequestTokensWithCode(code: string, provider: Provider): (r: Result<TokenResponse>)
    ensures r.Failed? <==> provider.codeGrant(code).Unsent?
    ensures r.Failed? ==> r.failure == RequestNotSent
    ensures r.Ok? ==> r.value == provider.codeGrant(code).response
  {
    match provider.codeGrant(code)
    case Unsent => Failed(RequestNotSent)
    case Replied(res) => Ok(res)
  }

  /**
   * GetTokens: refresh first; if that yields no access token, sign in once and
   * exchange the code; if there is still no access token, fail.
   */
  function GetTokens(refreshToken: string, state: string, callback: CallbackRequest, provider: Provider)
    : (run: TokenRun)
    ensures run.result.Ok? ==> run.result.value.accessToken != ""
    ensures provider.refreshGrant(refreshToken).Unsent? ==> run.result == Failed(RequestNotSent)
    ensures run.calls in {
      [RefreshGrant(refreshToken)],
      [RefreshGrant(refreshToken), SignIn(state)],
      [RefreshGrant(refreshToken), SignIn(state), CodeGrant(callback.code)] }
    ensures |run.calls| > 1 <==>
      RequestTokensWithRefreshToken(refreshToken, provider).Ok? &&
      RequestTokensWithRefreshToken(refreshToken, provider).value.accessToken == ""
    ensures |run.calls| == 3 <==> |run.calls| > 1 && callback.state == state
  {
    var refreshed := RequestTokensWithRefreshToken(refreshToken, provider);
    if refreshed.Failed? then TokenRun(refreshed, [RefreshGrant(refreshToken)])
    else if refreshed.value.accessToken != "" then TokenRun(refreshed, [RefreshGrant(refreshToken)])
    else match CheckCallback(state, callback)
      case Failed(f) => TokenRun(Failed(f), [RefreshGrant(refreshToken), SignIn(state)])
      case Ok(code) =>
        var calls := [RefreshGrant(refreshToken), SignIn(state), CodeGrant(code)];
        match RequestTokensWithCode(code, provider)
        case Failed(f) => TokenRun(Failed(f), calls)
        case Ok(res) =>
          if res.accessToken == "" then TokenRun(Failed(NoAccessToken), calls) else TokenRun(Ok(res), calls)
  }

  /** A refresh that yields an access token is the answer, and no sign-in happens. */
  lemma RefreshSuccessSkipsSignIn(refreshToken: string, state: string, callback: CallbackRequest,
                                  provider: Provider)
    requires provider.refreshGrant(refreshToken).Replied?
    requires provider.refreshGrant(refreshToken).response.accessToken != ""
    ensures var run, sent := GetTokens(refreshToken, state, callback, provider),
                             provider.refreshGrant(refreshToken).response;
      && run.calls == [RefreshGrant(refreshToken)]
      && run.result == Ok(TokenResponse(sent.accessToken,
                                        if sent.refreshToken == "" then refreshToken else sent.refreshToken))
  {
  }

  /**
   * A refresh that yields no access token leads to exactly one sign-in; with a
   * matching callback the code exchange's reply replaces the refresh result,
   * without falling back to the old refresh token.
   */
  lemma RejectedRefreshSignsInOnce(refreshToken: string, state: string, callback: CallbackRequest,
                                   provider: Provider)
    requires provider.refreshGrant(refreshToken).Replied?
    requires provider.refreshGrant(refreshToken).response.accessToken == ""
    ensures var run := GetTokens(refreshToken, state, callback, provider);
      && |run.calls| >= 2 && run.calls[1] == SignIn(state)
      && (forall i | 0 <= i < |run.calls| && i != 1 :: !run.calls[i].SignIn?)
      && (callback.state != state ==> run.result == Failed(StateMismatch(state, callback.state)))
      && (callback.state == state ==>
            run.result == match provider.codeGrant(callback.code)
              case Unsent => Failed(RequestNotSent)
              case Replied(res) => if res.accessToken == "" then Failed(NoAccessToken) else Ok(res))
  {
  }

  /** On the refresh path a stored refresh token is never replaced by an empty one. */
  lemma RefreshPathKeepsRefreshToken(refreshToken: string, state: string, callback: CallbackRequest,
                                     provider: Provider)
    requires refreshToken != ""
    ensures var run := GetTokens(refreshToken, state, callback, provider);
      run.result.Ok? && |run.calls| == 1 ==> run.result.value.refreshToken != ""
  {
  }

  /** On the sign-in path an empty refresh token in the reply is returned as it is. */
  lemma CodePathMayReturnEmptyRefreshToken()
    ensures var provider := Provider(t => Replied(TokenResponse("", "")),
                                     c => Replied(TokenResponse("access", "")));
      GetTokens("stored", "s", CallbackRequest("s", "c"), provider).result == Ok(TokenResponse("access", ""))
  {
  }
}
