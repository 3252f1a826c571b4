/**
 * `executeWithRefresh` of the Google Calendar provider (providers/appointment_scheduling/google_calendar/provider.go:282-364):
 * one API request, and after a 401 one token refresh and one resend.
 */
module GoogleCalendar {
  import opened GoStrings
  import opened ConnectorErrors
  import opened OAuthRefresh

  type Secrets = map<string, string>

  function Secret(secrets: Secrets, key: string): string {
    if key in secrets then TrimSpace(secrets[key]) else ""
  }

  /** A secret as it is stored; what is not stored is empty. */
  function Raw(secrets: Secrets, key: string): string {
    if key in secrets then secrets[key] else ""
  }

  lemma SecretIs(secrets: Secrets, key: string)
    ensures IsTrimOf(Secret(secrets, key), Raw(secrets, key))
    ensures Secret(secrets, key) == "" <==> Blank(Raw(secrets, key))
  {
    TrimSpaceIs(Raw(secrets, key));
    TrimIsEmpty(Raw(secrets, key));
    assert TrimSpace("") == "";
  }

  /** `endpointValid` is `ValidateConfig` of the API endpoint, `tokenEndpointValid` that of the token endpoint in `Refresh`. */
  datatype Connection = Connection(endpointValid: bool, tokenEndpoint: string, tokenEndpointValid: bool)

  /** Status 0 stands for no response. */
  datatype Outcome = Outcome(status: int, result: Result<(), Failure>)

  function Classify(reply: ApiReply, write: bool): Outcome {
    match reply
    case NoApiReply => Outcome(0, Fail(if write then Uncertain else Retryable, "network_error"))
    case ApiReply(status, validJson) =>
      Outcome(status,
        if !Is2xx(status) then
          if status == 401 then Err(Failure(Permanent, HttpStatus(status)))
          else if status == 429 then Err(Failure(Retryable, HttpStatus(status)))
          else if status == 408 || 500 <= status then Err(Failure(if write then Uncertain else Retryable, HttpStatus(status)))
          else Err(Failure(Permanent, HttpStatus(status)))
        else if !validJson then Fail(if write then Uncertain else Permanent, "response_invalid")
        else Ok(()))
  }

  /** What an outcome says about the write behind it. */
  ghost predicate Effect(pre: nat, post: nat, write: bool, result: Result<(), Failure>) {
    if !write then post == pre
    else match result
         case Ok(_) => post == pre + 1
         case Err(e) => if e.kind == Uncertain then pre <= post <= pre + 1 else post == pre
  }

  /** The classification of a write is exact, and a read is never Uncertain. */
  lemma ClassificationIsExact(reply: ApiReply)
    ensures var w := Classify(reply, true).result;
            && (w.Ok? <==> reply.ApiReply? && Is2xx(reply.status) && reply.validJson)
            && (w.Err? && w.error.kind != Uncertain <==> NotApplied(reply))
            && (w.Err? && w.error.kind == Retryable <==> reply.ApiReply? && reply.status == 429)
    ensures var r := Classify(reply, false).result;
            && (r.Ok? <==> reply.ApiReply? && Is2xx(reply.status) && reply.validJson)
            && (r.Err? ==> r.error.kind != Uncertain)
            && (r.Err? && r.error.kind == Retryable <==>
                  reply.NoApiReply? || reply.status == 429 || reply.status == 408 || (500 <= reply.status && !Is2xx(reply.status)))
    ensures forall write :: Classify(reply, write).status == if reply.ApiReply? then reply.status else 0
  {
  }

  predicate Unauthorized(reply: ApiReply) {
    reply.ApiReply? && reply.status == 401
  }

  /** One API request, or none when the endpoint is not valid. */
  ghost predicate Executed(pre: State, post: State, valid: bool, token: string, write: bool, o: Outcome) {
    if valid then
      && |post.replies| == |pre.replies| + 1
      && ServesApi(pre, token, write, post.replies[|pre.replies|], post)
      && o == Classify(post.replies[|pre.replies|], write)
    else
      post == pre && o == Outcome(0, Fail(Permanent, "endpoint_invalid"))
  }

  method Execute(remote: Remote, connection: Connection, token: string, write: bool) returns (o: Outcome)
    modifies remote
    ensures Executed(old(remote.state), remote.state, connection.endpointValid, token, write, o)
  {
    if !connection.endpointValid {
      return Outcome(0, Fail(Permanent, "endpoint_invalid"));
    }
    var reply := remote.ApiRoundTrip(token, write);
    return Classify(reply, write);
  }

  /** The updates a delivered token asks the host to store. */
  function Updates(token: Token): Secrets {
    if token.refreshToken != "" then map["access_token" := token.accessToken, "refresh_token" := token.refreshToken]
    else map["access_token" := token.accessToken]
  }

  /** What the requests of one call were, and how the result follows from the replies. */
  ghost predicate Requests(pre: State, post: State, secrets: Secrets, write: bool, o: Outcome, updates: Secrets) {
    var n := |pre.replies|;
    var access := Secret(secrets, "access_token");
    if |post.replies| <= n then
      // Nothing was sent.
      post == pre && updates == map[] && o.status == 0 && o.result.Err? && o.result.error.kind == Permanent
    else if |post.delivered| <= |pre.delivered| then
      // One request: the result is its own, unless a refresh was tried after a 401 and failed.
      && |post.replies| == n + 1 && post.bearers == pre.bearers + [access]
      && post.delivered == pre.delivered && updates == map[] && (post.lost || post.current == pre.current)
      && (if post.tokenCalls == pre.tokenCalls && o == Classify(post.replies[n], write) then true
          else Unauthorized(post.replies[n]) && o.status == 401 && o.result.Err? && o.result.error.kind != Uncertain)
    else
      // A 401, a token delivered, and the request again with that token.
      var token := post.delivered[|pre.delivered|];
      && |post.replies| == n + 2 && Unauthorized(post.replies[n])
      && post.bearers == pre.bearers + [access, token.accessToken] && token.accessToken != ""
      && o == Classify(post.replies[n + 1], write)
      && post.delivered == pre.delivered + [token] && updates == Updates(token)
      && (post.lost || post.current == if token.refreshToken == "" then pre.current else token.refreshToken)
  }

  /**
   * What one call guarantees: at most two API requests and one token request with the stored refresh token, the result of the
   * last reply, and the updates of the token delivered during the call, if any; a write takes effect once on success, not at
   * all on Permanent or Retryable, and at most once in any case.
   */
  ghost predicate Call(pre: State, post: State, secrets: Secrets, write: bool, o: Outcome, updates: Secrets) {
    && Requests(pre, post, secrets, write, o, updates)
    && Effect(pre.effects, post.effects, write, o.result)
    && (!write && o.result.Err? ==> o.result.error.kind != Uncertain)
    && (pre.lost ==> post.lost)
    && (post.tokenCalls == pre.tokenCalls
        || exists call :: post.tokenCalls == pre.tokenCalls + [call] && "refresh_token" in call.form
                          && call.form["refresh_token"] == Secret(secrets, "refresh_token"))
  }

  lemma ExecutedHasEffect(pre: State, post: State, valid: bool, token: string, write: bool, o: Outcome)
    requires Executed(pre, post, valid, token, write, o)
    ensures Effect(pre.effects, post.effects, write, o.result)
    ensures !write && o.result.Err? ==> o.result.error.kind != Uncertain
  {
  }

  /** One executed request is a call in itself. */
  lemma ExecutedIsCall(pre: State, post: State, valid: bool, secrets: Secrets, write: bool, o: Outcome)
    requires Executed(pre, post, valid, Secret(secrets, "access_token"), write, o)
    ensures Call(pre, post, secrets, write, o, map[])
  {
  }

  /** A 401 leaves nothing applied. */
  lemma UnauthorizedIsNoEffect(pre: State, post: State, valid: bool, token: string, write: bool, o: Outcome)
    requires Executed(pre, post, valid, token, write, o) && o.status == 401
    ensures valid && Unauthorized(post.replies[|pre.replies|]) && post.effects == pre.effects
    ensures post == pre.(bearers := pre.bearers + [token], replies := pre.replies + [post.replies[|pre.replies|]])
    ensures o.result.Err? && o.result.error.kind == Permanent
  {
  }

  function RefreshRequestFor(connection: Connection, secrets: Secrets): RefreshRequest {
    RefreshRequest(connection.tokenEndpoint, connection.tokenEndpointValid, Secret(secrets, "refresh_token"), Secret(secrets, "client_id"),
                   Secret(secrets, "client_secret"), "", true, InForm)
  }

  /** After a 401, which left the state at `pre`: one refresh, and the request once more if that delivers a token. */
  ghost predicate Resent(pre: State, post: State, connection: Connection, secrets: Secrets, write: bool, o: Outcome,
                         updates: Secrets) {
    var n, m := |pre.replies|, |pre.tokenReplies|;
    if !connection.tokenEndpointValid then
      post == pre && updates == map[] && o == Outcome(401, Fail(Permanent, "refresh_configuration_invalid"))
    else
      && |post.tokenReplies| == m + 1 && |post.tokenCalls| == |pre.tokenCalls| + 1
      && Carries(post.tokenCalls[|pre.tokenCalls|], RefreshRequestFor(connection, secrets))
      && match ClassifyToken(post.tokenReplies[m])
         case Err(e) =>
           post.replies == pre.replies && post.bearers == pre.bearers && updates == map[] && o == Outcome(401, Err(e))
         case Ok(token) =>
           && |post.replies| == n + 1 && post.replies[..n] == pre.replies && post.bearers == pre.bearers + [token.accessToken]
           && updates == Updates(token) && o == Classify(post.replies[n], write)
  }

  /** With both at hand and a valid endpoint, the refresh request has no fault. */
  lemma RefreshIsReady(connection: Connection, secrets: Secrets)
    requires Secret(secrets, "refresh_token") != "" && Secret(secrets, "client_id") != ""
    ensures RequestFault(RefreshRequestFor(connection, secrets)).None? <==> connection.tokenEndpointValid
  {
    TrimIsIdempotent(if "refresh_token" in secrets then secrets["refresh_token"] else "");
    TrimIsIdempotent(if "client_id" in secrets then secrets["client_id"] else "");
  }

  /** The refresh takes the state from `pre` to `mid`, and the request sent again takes it to `post`. */
  ghost predicate Resending(pre: State, mid: State, post: State, connection: Connection, secrets: Secrets, write: bool,
                            refreshed: Result<Token, Failure>, o: Outcome, updates: Secrets) {
    && Refreshed(pre, mid, RefreshRequestFor(connection, secrets), refreshed)
    && match refreshed
       case Err(e) => post == mid && o == Outcome(401, Err(e)) && updates == map[]
       case Ok(token) => Executed(mid, post, true, token.accessToken, write, o) && updates == Updates(token)
  }

  /** The refresh and the resend that follow a 401. */
  method Resend(remote: Remote, connection: Connection, secrets: Secrets, write: bool, status: int)
      returns (o: Outcome, updates: Secrets, ghost mid: State, ghost refreshed: Result<Token, Failure>)
    requires connection.endpointValid && status == 401
    modifies remote
    ensures Resending(old(remote.state), mid, remote.state, connection, secrets, write, refreshed, o, updates)
  {
    updates := map[];
    var updated := Refresh(remote, RefreshRequestFor(connection, secrets));
    mid, refreshed := remote.state, updated;
    if updated.Err? {
      return Outcome(status, Err(updated.error)), updates, mid, refreshed;
    }
    updates := map["access_token" := updated.value.accessToken];
    if updated.value.refreshToken != "" {
      updates := updates["refresh_token" := updated.value.refreshToken];
    }
    o := Execute(remote, connection, updated.value.accessToken, write);
  }

  lemma ResendingIsResent(pre: State, mid: State, post: State, connection: Connection, secrets: Secrets, write: bool,
                          refreshed: Result<Token, Failure>, o: Outcome, updates: Secrets)
    requires Resending(pre, mid, post, connection, secrets, write, refreshed, o, updates)
    requires Secret(secrets, "refresh_token") != "" && Secret(secrets, "client_id") != ""
    ensures Resent(pre, post, connection, secrets, write, o, updates)
  {
    RefreshIsReady(connection, secrets);
  }

  /** A refresh that delivers nothing, after a 401. */
  lemma FailedRefreshIsCall(before: State, pre: State, post: State, connection: Connection, secrets: Secrets, write: bool,
                            reply: ApiReply, error: Failure)
    requires Refreshed(pre, post, RefreshRequestFor(connection, secrets), Err(error)) && Unauthorized(reply)
    requires pre == before.(bearers := before.bearers + [Secret(secrets, "access_token")], replies := before.replies + [reply])
    ensures Call(before, post, secrets, write, Outcome(401, Err(error)), map[])
  {
    if RequestFault(RefreshRequestFor(connection, secrets)).None? {
      TokenClassificationIsExact(post.tokenReplies[|pre.tokenReplies|]);
    }
  }

  /** A refresh that delivers a token, after a 401, and the request sent again with it. */
  lemma ResentIsCall(before: State, pre: State, mid: State, post: State, connection: Connection, secrets: Secrets, write: bool,
                     reply: ApiReply, token: Token, o: Outcome)
    requires Refreshed(pre, mid, RefreshRequestFor(connection, secrets), Ok(token)) && Unauthorized(reply)
    requires Executed(mid, post, true, token.accessToken, write, o)
    requires pre == before.(bearers := before.bearers + [Secret(secrets, "access_token")], replies := before.replies + [reply])
    ensures Call(before, post, secrets, write, o, Updates(token))
  {
    TokenClassificationIsExact(mid.tokenReplies[|pre.tokenReplies|]);
    ExecutedHasEffect(mid, post, true, token.accessToken, write, o);
    assert post.tokenCalls == mid.tokenCalls == before.tokenCalls + [mid.tokenCalls[|before.tokenCalls|]];
  }

  /**
   * The conversation of one call, reply by reply: a refresh is tried exactly after a 401 with a refresh token and a client
   * identity at hand, and the request is sent again exactly when that delivers a token.
   */
  ghost predicate Conversation(pre: State, post: State, connection: Connection, secrets: Secrets, write: bool, o: Outcome,
                               updates: Secrets) {
    var n, m := |pre.replies|, |pre.tokenReplies|;
    var access := Secret(secrets, "access_token");
    if access == "" then post == pre && updates == map[] && o == Outcome(0, Fail(Permanent, "access_token_required"))
    else if !connection.endpointValid then post == pre && updates == map[] && o == Outcome(0, Fail(Permanent, "endpoint_invalid"))
    else
      && n < |post.replies|
      && if !Unauthorized(post.replies[n]) || Secret(secrets, "refresh_token") == "" || Secret(secrets, "client_id") == "" then
           && |post.replies| == n + 1 && post.bearers == pre.bearers + [access] && post.tokenReplies == pre.tokenReplies
           && post.tokenCalls == pre.tokenCalls && updates == map[] && o == Classify(post.replies[n], write)
         else
           Resent(pre.(bearers := pre.bearers + [access], replies := pre.replies + [post.replies[n]]), post, connection, secrets,
                  write, o, updates)
  }

  /** `value` is what is stored under `key`, trimmed. */
  ghost predicate IsSecret(secrets: Secrets, key: string, value: string) {
    IsTrimOf(value, Raw(secrets, key)) && (value == "" <==> Blank(Raw(secrets, key)))
  }

  /** Sent under each name is what is stored under it, and the client's secret exactly when there is one. */
  ghost predicate FormIsMadeOf(form: Form, secrets: Secrets) {
    && form.Keys <= {"refresh_token", "client_id", "client_secret"}
    && "refresh_token" in form && form["refresh_token"] != "" && IsSecret(secrets, "refresh_token", form["refresh_token"])
    && "client_id" in form && form["client_id"] != "" && IsSecret(secrets, "client_id", form["client_id"])
    && (if "client_secret" in form then
          form["client_secret"] != "" && IsSecret(secrets, "client_secret", form["client_secret"])
        else IsSecret(secrets, "client_secret", ""))
  }

  /**
   * A token request made from what is stored and nothing else: to the token endpoint, for the refresh token, in the name of the
   * stored client; no scope and no basic credentials.
   */
  ghost predicate IsMadeOf(call: TokenCall, connection: Connection, secrets: Secrets) {
    && IsTrimOf(call.endpoint, connection.tokenEndpoint)
    && call.headers == map["Accept" := "application/json", "Content-Type" := "application/x-www-form-urlencoded"]
    && call.publicForm == map["grant_type" := "refresh_token"]
    && call.basic == None
    && FormIsMadeOf(call.form, secrets)
  }

  /** From `pre` to `post` there was no token request, or one of those. */
  ghost predicate RefreshesWithStored(pre: State, post: State, connection: Connection, secrets: Secrets) {
    || |post.tokenCalls| == |pre.tokenCalls|
    || (|post.tokenCalls| == |pre.tokenCalls| + 1 && IsMadeOf(post.tokenCalls[|pre.tokenCalls|], connection, secrets))
  }

  lemma CarriedForm(form: Form, r: RefreshRequest, secrets: Secrets)
    requires form.Keys <= {"refresh_token", "client_id", "client_secret"} && r.refreshToken != "" && r.clientId != ""
    requires "refresh_token" in form && form["refresh_token"] == r.refreshToken
    requires "client_id" in form && form["client_id"] == r.clientId
    requires if r.clientSecret == "" then "client_secret" !in form
             else "client_secret" in form && form["client_secret"] == r.clientSecret
    requires IsSecret(secrets, "refresh_token", r.refreshToken) && IsSecret(secrets, "client_id", r.clientId)
    requires IsSecret(secrets, "client_secret", r.clientSecret)
    ensures FormIsMadeOf(form, secrets)
  {
  }

  lemma CarriedRest(call: TokenCall, r: RefreshRequest)
    requires Carries(call, r) && r.clientAuthentication == InForm && TrimSpace(r.scope) == ""
    ensures call.endpoint == TrimSpace(r.endpoint) && call.headers == HEADERS
    ensures call.publicForm == map["grant_type" := "refresh_token"] && call.basic == None
  {
  }

  lemma CarriesIsMadeOf(call: TokenCall, connection: Connection, secrets: Secrets)
    requires Carries(call, RefreshRequestFor(connection, secrets))
    requires Secret(secrets, "refresh_token") != "" && Secret(secrets, "client_id") != ""
    ensures IsMadeOf(call, connection, secrets)
  {
    var r := RefreshRequestFor(connection, secrets);
    TrimSpaceIs(connection.tokenEndpoint);
    SecretIs(secrets, "refresh_token");
    SecretIs(secrets, "client_id");
    SecretIs(secrets, "client_secret");
    TrimmedIsFixed("");
    CarriedForm(call.form, r, secrets);
    CarriedRest(call, r);
  }

  lemma OneTokenCall(pre: State, post: State, connection: Connection, secrets: Secrets, write: bool, o: Outcome, updates: Secrets)
    requires Conversation(pre, post, connection, secrets, write, o, updates)
    ensures |post.tokenCalls| == |pre.tokenCalls|
         || (&& |post.tokenCalls| == |pre.tokenCalls| + 1
             && Carries(post.tokenCalls[|pre.tokenCalls|], RefreshRequestFor(connection, secrets))
             && Secret(secrets, "refresh_token") != "" && Secret(secrets, "client_id") != "")
  {
  }

  /** A token request is only made with a refresh token and a client identity at hand, and is made of them. */
  lemma ConversationRefreshes(pre: State, post: State, connection: Connection, secrets: Secrets, write: bool, o: Outcome,
                              updates: Secrets)
    requires Conversation(pre, post, connection, secrets, write, o, updates)
    ensures RefreshesWithStored(pre, post, connection, secrets)
  {
    OneTokenCall(pre, post, connection, secrets, write, o, updates);
    if |post.tokenCalls| == |pre.tokenCalls| + 1 {
      CarriesIsMadeOf(post.tokenCalls[|pre.tokenCalls|], connection, secrets);
    }
  }

  /** All that follows a 401. */
  lemma ResendingIsCall(before: State, pre: State, mid: State, post: State, connection: Connection, secrets: Secrets, write: bool,
                        refreshed: Result<Token, Failure>, o: Outcome, updates: Secrets, reply: ApiReply)
    requires Resending(pre, mid, post, connection, secrets, write, refreshed, o, updates)
    requires pre == before.(bearers := before.bearers + [Secret(secrets, "access_token")], replies := before.replies + [reply])
    requires Unauthorized(reply) && connection.endpointValid && Secret(secrets, "access_token") != ""
    requires Secret(secrets, "refresh_token") != "" && Secret(secrets, "client_id") != ""
    ensures Conversation(before, post, connection, secrets, write, o, updates)
    ensures Call(before, post, secrets, write, o, updates)
    ensures RefreshesWithStored(before, post, connection, secrets)
  {
    ResendingIsResent(pre, mid, post, connection, secrets, write, refreshed, o, updates);
    assert post.replies[|before.replies|] == reply;
    ConversationRefreshes(before, post, connection, secrets, write, o, updates);
    if refreshed.Err? {
      FailedRefreshIsCall(before, pre, mid, connection, secrets, write, reply, refreshed.error);
    } else {
      ResentIsCall(before, pre, mid, post, connection, secrets, write, reply, refreshed.value, o);
    }
  }

  method ExecuteWithRefresh(remote: Remote, connection: Connection, secrets: Secrets, write: bool)
      returns (o: Outcome, updates: Secrets)
    modifies remote
    ensures Conversation(old(remote.state), remote.state, connection, secrets, write, o, updates)
    ensures Call(old(remote.state), remote.state, secrets, write, o, updates)
    ensures RefreshesWithStored(old(remote.state), remote.state, connection, secrets)
  {
    updates := map[];
    var token := Secret(secrets, "access_token");
    if token == "" {
      return Outcome(0, Fail(Permanent, "access_token_required")), updates;
    }
    o := Execute(remote, connection, token, write);
    ExecutedIsCall(old(remote.state), remote.state, connection.endpointValid, secrets, write, o);
    if o.status != 401 {
      ConversationRefreshes(old(remote.state), remote.state, connection, secrets, write, o, updates);
      return o, updates;
    }
    var refresh := Secret(secrets, "refresh_token");
    var clientId := Secret(secrets, "client_id");
    if refresh == "" || clientId == "" {
      ConversationRefreshes(old(remote.state), remote.state, connection, secrets, write, o, updates);
      return o, updates;
    }
    ghost var before, pre := old(remote.state), remote.state;
    UnauthorizedIsNoEffect(before, pre, connection.endpointValid, token, write, o);
    ghost var mid, refreshed;
    o, updates, mid, refreshed := Resend(remote, connection, secrets, write, o.status);
    ResendingIsCall(before, pre, mid, remote.state, connection, secrets, write, refreshed, o, updates, pre.replies[|before.replies|]);
  }

  predicate Success(reply: ApiReply) {
    reply.ApiReply? && Is2xx(reply.status) && reply.validJson
  }

  /** The part after a 401: it sends once more exactly when there are updates, and then that reply decides. */
  lemma ResentIsExact(pre: State, post: State, connection: Connection, secrets: Secrets, write: bool, o: Outcome, updates: Secrets)
    requires Resent(pre, post, connection, secrets, write, o, updates)
    ensures var n, sent := |pre.replies|, |post.replies| - |pre.replies|;
            && 0 <= sent <= 1 && (sent == 1 <==> updates != map[])
            && (o.result.Ok? <==> sent == 1 && Success(post.replies[n]))
            && (sent == 1 ==> "access_token" in updates && post.bearers == pre.bearers + [updates["access_token"]])
  {
    assert forall token :: "access_token" in Updates(token);
  }

  /**
   * A call succeeds exactly when something was sent and the last reply is a success, be it the first or the second; there is a
   * second exactly when there are updates to store, and then the first was a 401 and the updates carry the token of the second.
   */
  lemma SuccessIsExact(pre: State, post: State, connection: Connection, secrets: Secrets, write: bool, o: Outcome, updates: Secrets)
    requires Conversation(pre, post, connection, secrets, write, o, updates)
    ensures var n, sent := |pre.replies|, |post.replies| - |pre.replies|;
            && 0 <= sent <= 2 && (sent == 0 <==> Secret(secrets, "access_token") == "" || !connection.endpointValid)
            && (o.result.Ok? <==> 0 < sent && Success(post.replies[n + sent - 1]))
            && (sent == 2 <==> updates != map[])
            && (sent == 2 ==> Unauthorized(post.replies[n]) && "access_token" in updates
                              && |post.bearers| == |pre.bearers| + 2 && post.bearers[|pre.bearers| + 1] == updates["access_token"])
  {
    var n, access := |pre.replies|, Secret(secrets, "access_token");
    if n < |post.replies| && Unauthorized(post.replies[n]) && Secret(secrets, "refresh_token") != "" && Secret(secrets, "client_id") != ""
       && access != "" && connection.endpointValid
    {
      var mid := pre.(bearers := pre.bearers + [access], replies := pre.replies + [post.replies[n]]);
      ResentIsExact(mid, post, connection, secrets, write, o, updates);
    }
  }
}
