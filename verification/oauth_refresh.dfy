/**
 * The OAuth token refresh (internal/oauth2/refresh.go) against a token endpoint that may rotate the refresh token, next to the
 * calendar API the access token is for.
 */
module OAuthRefresh {
  import opened GoStrings
  import opened ConnectorErrors

  datatype ClientAuthentication = InForm | Basic | Unsupported

  datatype RefreshRequest = RefreshRequest(
    endpoint: string, endpointValid: bool, refreshToken: string, clientId: string, clientSecret: string, scope: string,
    clientSecretOptional: bool, clientAuthentication: ClientAuthentication)

  datatype Token = Token(accessToken: string, refreshToken: string)

  type Form = map<string, string>

  /** One token request: where it goes, its headers, its public and its secret form, and the basic credentials if any. */
  datatype TokenCall = TokenCall(endpoint: string, headers: Form, publicForm: Form, form: Form, basic: Option<(string, string)>)

  datatype TokenReply = NoTokenReply | TokenReply(status: int, validJson: bool, accessToken: string, refreshToken: string)

  datatype ApiReply = NoApiReply | ApiReply(status: int, validJson: bool)

  /**
   * `effects` counts the writes that took effect; `bearers` and `tokenCalls` list what was sent, `replies` and `tokenReplies`
   * what came back, one for each; `delivered` the tokens that arrived in a usable response. `current` is the refresh token the
   * endpoint now accepts, and `lost` says that it was rotated in a response that did not arrive or was not usable.
   */
  datatype State = State(effects: nat, bearers: seq<string>, replies: seq<ApiReply>, tokenCalls: seq<TokenCall>,
                         tokenReplies: seq<TokenReply>, delivered: seq<Token>, current: string, lost: bool)

  /** A response the provider can use, and the token it takes from it. */
  function Usable(reply: TokenReply): Option<Token> {
    if reply.TokenReply? && Is2xx(reply.status) && reply.validJson && TrimSpace(reply.accessToken) != "" then
      Some(Token(TrimSpace(reply.accessToken), TrimSpace(reply.refreshToken)))
    else None
  }

  predicate ServesToken(pre: State, call: TokenCall, reply: TokenReply, post: State) {
    match Usable(reply)
    case Some(token) =>
      post == pre.(tokenCalls := pre.tokenCalls + [call], tokenReplies := pre.tokenReplies + [reply],
                   delivered := pre.delivered + [token],
                   current := if token.refreshToken == "" then pre.current else token.refreshToken)
    case None =>
      post == pre.(tokenCalls := pre.tokenCalls + [call], tokenReplies := pre.tokenReplies + [reply],
                   current := post.current, lost := pre.lost || post.current != pre.current)
  }

  /** 401, 429 and the other plain rejections. */
  predicate NotApplied(reply: ApiReply) {
    reply.ApiReply? && !Is2xx(reply.status) && reply.status != 408 && reply.status < 500
  }

  /** A write is applied once on 2xx, not at all when rejected, and otherwise at most once. */
  predicate ServesApi(pre: State, bearer: string, write: bool, reply: ApiReply, post: State) {
    && post == pre.(bearers := pre.bearers + [bearer], replies := pre.replies + [reply], effects := post.effects)
    && (if !write || NotApplied(reply) then post.effects == pre.effects
        else if reply.ApiReply? && Is2xx(reply.status) then post.effects == pre.effects + 1
        else pre.effects <= post.effects <= pre.effects + 1)
  }

  class Remote {
    var state: State

    constructor (refreshToken: string)
      ensures state == State(0, [], [], [], [], [], refreshToken, false)
    {
      state := State(0, [], [], [], [], [], refreshToken, false);
    }

    /** Answers in any way `ServesToken` allows. */
    method TokenRoundTrip(call: TokenCall) returns (reply: TokenReply)
      modifies this
      ensures ServesToken(old(state), call, reply, state)
    {
      reply := *;
      var rotated: string := *;
      match Usable(reply)
      case Some(token) =>
        state := state.(tokenCalls := state.tokenCalls + [call], tokenReplies := state.tokenReplies + [reply],
                        delivered := state.delivered + [token],
                        current := if token.refreshToken == "" then state.current else token.refreshToken);
      case None =>
        state := state.(tokenCalls := state.tokenCalls + [call], tokenReplies := state.tokenReplies + [reply],
                        current := rotated, lost := state.lost || rotated != state.current);
    }

    /** Answers in any way `ServesApi` allows. */
    method ApiRoundTrip(bearer: string, write: bool) returns (reply: ApiReply)
      modifies this
      ensures ServesApi(old(state), bearer, write, reply, state)
    {
      reply := *;
      var applied: bool := *;
      var applies := write && !NotApplied(reply) && ((reply.ApiReply? && Is2xx(reply.status)) || applied);
      state := state.(bearers := state.bearers + [bearer], replies := state.replies + [reply],
                      effects := if applies then state.effects + 1 else state.effects);
    }
  }

  function RequestFault(r: RefreshRequest): Option<string> {
    if !r.endpointValid then Some("OAuth token endpoint must use HTTPS or loopback HTTP")
    else if TrimSpace(r.refreshToken) == "" || TrimSpace(r.clientId) == "" then Some("OAuth refresh credentials are required")
    else if TrimSpace(r.clientSecret) == "" && (!r.clientSecretOptional || r.clientAuthentication != InForm) then
      Some("OAuth client secret is required")
    else if r.clientAuthentication == Unsupported then Some("OAuth client authentication is unsupported")
    else None
  }

  /** A request is made exactly for a valid endpoint, a refresh token, a client identity, and what the authentication needs. */
  lemma RequestFaultIs(r: RefreshRequest)
    ensures RequestFault(r).None?
       <==> && r.endpointValid && !Blank(r.refreshToken) && !Blank(r.clientId)
            && match r.clientAuthentication
               case InForm => r.clientSecretOptional || !Blank(r.clientSecret)
               case Basic => !Blank(r.clientSecret)
               case Unsupported => false
  {
    TrimIsEmpty(r.refreshToken);
    TrimIsEmpty(r.clientId);
    TrimIsEmpty(r.clientSecret);
  }

  /** A usable response is a success in JSON whose access token is not blank, and both tokens are trimmed. */
  lemma UsableIs(reply: TokenReply)
    ensures Usable(reply).Some? <==> reply.TokenReply? && 200 <= reply.status < 300 && reply.validJson && !Blank(reply.accessToken)
    ensures match Usable(reply)
            case Some(token) => IsTrimOf(token.accessToken, reply.accessToken) && IsTrimOf(token.refreshToken, reply.refreshToken)
            case None => true
  {
    if reply.TokenReply? {
      TrimIsEmpty(reply.accessToken);
      TrimSpaceIs(reply.accessToken);
      TrimSpaceIs(reply.refreshToken);
    }
  }

  const HEADERS: Form := map["Accept" := "application/json", "Content-Type" := "application/x-www-form-urlencoded"]

  /**
   * What a valid request sends: the grant, the scope unless it is blank, and the refresh token; the client identity either in
   * the secret form, with its secret unless that is empty, or as basic credentials, never both.
   */
  ghost predicate Carries(call: TokenCall, r: RefreshRequest) {
    && "refresh_token" in call.form && call.form["refresh_token"] == r.refreshToken
    && call.form.Keys <= {"refresh_token", "client_id", "client_secret"}
    && call.endpoint == TrimSpace(r.endpoint) && call.headers == HEADERS
    && call.publicForm.Keys <= {"grant_type", "scope"}
    && "grant_type" in call.publicForm && call.publicForm["grant_type"] == "refresh_token"
    && (if TrimSpace(r.scope) == "" then "scope" !in call.publicForm
        else "scope" in call.publicForm && call.publicForm["scope"] == TrimSpace(r.scope))
    && (if r.clientAuthentication == InForm then
          && call.basic == None
          && "client_id" in call.form && call.form["client_id"] == r.clientId
          && (if r.clientSecret == "" then "client_secret" !in call.form
              else "client_secret" in call.form && call.form["client_secret"] == r.clientSecret)
        else
          call.basic == Some((r.clientId, r.clientSecret)) && call.form.Keys == {"refresh_token"})
  }

  /** What the provider makes of the token reply. */
  function ClassifyToken(reply: TokenReply): Result<Token, Failure> {
    match reply
    case NoTokenReply => Fail(Retryable, "refresh_network_error")
    case TokenReply(status, validJson, accessToken, refreshToken) =>
      if !Is2xx(status) then
        if status == 429 || 500 <= status then Err(Failure(Retryable, HttpStatus(status))) else Fail(Permanent, "refresh_rejected")
      else if !validJson || TrimSpace(accessToken) == "" then Fail(Permanent, "refresh_response_invalid")
      else Ok(Token(TrimSpace(accessToken), TrimSpace(refreshToken)))
  }

  /** A refresh succeeds exactly on a usable response; it is Retryable without one, on 429 and on server failures only. */
  lemma TokenClassificationIsExact(reply: TokenReply)
    ensures match Usable(reply)
            case Some(token) => ClassifyToken(reply) == Ok(token) && token.accessToken != ""
            case None =>
              var transient := reply.NoTokenReply? || reply.status == 429 || (500 <= reply.status && !Is2xx(reply.status));
              ClassifyToken(reply).Err? && ClassifyToken(reply).error.kind == if transient then Retryable else Permanent
  {
  }

  /** One refresh: no request when the configuration is at fault, else exactly one, and the result follows from its reply. */
  ghost predicate Refreshed(pre: State, post: State, r: RefreshRequest, result: Result<Token, Failure>) {
    if RequestFault(r).Some? then
      post == pre && result == Fail(Permanent, "refresh_configuration_invalid")
    else
      && |post.tokenCalls| == |pre.tokenCalls| + 1 && |post.tokenReplies| == |pre.tokenReplies| + 1
      && Carries(post.tokenCalls[|pre.tokenCalls|], r)
      && ServesToken(pre, post.tokenCalls[|pre.tokenCalls|], post.tokenReplies[|pre.tokenReplies|], post)
      && result == ClassifyToken(post.tokenReplies[|pre.tokenReplies|])
  }

  /** The form and the headers of the request, step by step. */
  method BuildCall(request: RefreshRequest) returns (call: TokenCall)
    requires RequestFault(request) == None
    ensures Carries(call, request)
  {
    var headers := map["Accept" := "application/json", "Content-Type" := "application/x-www-form-urlencoded"];
    var secretForm := map["refresh_token" := request.refreshToken];
    var basic: Option<(string, string)> := None;
    if request.clientAuthentication == InForm {
      secretForm := secretForm["client_id" := request.clientId];
      if request.clientSecret != "" {
        secretForm := secretForm["client_secret" := request.clientSecret];
      }
    } else {
      basic := Some((request.clientId, request.clientSecret));
    }
    var publicForm := map["grant_type" := "refresh_token"];
    var scope := TrimSpace(request.scope);
    if scope != "" {
      publicForm := publicForm["scope" := scope];
    }
    return TokenCall(TrimSpace(request.endpoint), headers, publicForm, secretForm, basic);
  }

  method Refresh(remote: Remote, request: RefreshRequest) returns (r: Result<Token, Failure>)
    modifies remote
    ensures Refreshed(old(remote.state), remote.state, request, r)
  {
    if RequestFault(request).Some? {
      return Fail(Permanent, "refresh_configuration_invalid");
    }
    var call := BuildCall(request);
    var reply := remote.TokenRoundTrip(call);
    if reply.NoTokenReply? {
      return Fail(Retryable, "refresh_network_error");
    }
    if !Is2xx(reply.status) {
      if reply.status == 429 || 500 <= reply.status {
        return Err(Failure(Retryable, HttpStatus(reply.status)));
      }
      return Fail(Permanent, "refresh_rejected");
    }
    if !reply.validJson || TrimSpace(reply.accessToken) == "" {
      return Fail(Permanent, "refresh_response_invalid");
    }
    return Ok(Token(TrimSpace(reply.accessToken), TrimSpace(reply.refreshToken)));
  }
}
