/**
 * Sequences of Google Calendar calls by a host that stores the secret updates each call returns
 * (providers/appointment_scheduling/google_calendar/provider.go:192-306): which tokens it holds, and which writes took effect.
 */
module GoogleSessions {
  import opened GoStrings
  import opened ConnectorErrors
  import opened OAuthRefresh
  import opened GoogleCalendar

  // ---- Sequences of calls ----

  datatype Step = Step(pre: State, post: State, secrets: Secrets, write: bool, outcome: Outcome, updates: Secrets)

  /** The host stores the updates of every call, success or failure, and passes the result to the next one. */
  ghost predicate IsSession(steps: seq<Step>) {
    && (forall k :: 0 <= k < |steps| ==>
          Call(steps[k].pre, steps[k].post, steps[k].secrets, steps[k].write, steps[k].outcome, steps[k].updates))
    && (forall k :: 0 < k < |steps| ==>
          steps[k].pre == steps[k - 1].post && steps[k].secrets == steps[k - 1].secrets + steps[k - 1].updates)
  }

  /** The stored secrets after step `k`. */
  function Stored(steps: seq<Step>, k: nat): Secrets
    requires k < |steps|
  {
    steps[k].secrets + steps[k].updates
  }

  /** The last access token delivered after the first `from` tokens, or `initial`. */
  function LastAccess(delivered: seq<Token>, from: nat, initial: string): string {
    if |delivered| <= from then initial else delivered[|delivered| - 1].accessToken
  }

  function LastRefresh(delivered: seq<Token>, from: nat, initial: string): string {
    if |delivered| <= from then initial
    else if delivered[|delivered| - 1].refreshToken != "" then delivered[|delivered| - 1].refreshToken
    else LastRefresh(delivered[..|delivered| - 1], from, initial)
  }

  /** What storing the updates of one call does to the two tokens, in terms of what was delivered during it. */
  lemma StoredByCall(s: Step)
    requires Call(s.pre, s.post, s.secrets, s.write, s.outcome, s.updates)
    ensures var n := |s.pre.delivered|;
            && n <= |s.post.delivered| <= n + 1 && s.post.delivered[..n] == s.pre.delivered
            && Raw(s.secrets + s.updates, "access_token")
               == (if |s.post.delivered| == n then Raw(s.secrets, "access_token") else s.post.delivered[n].accessToken)
            && Raw(s.secrets + s.updates, "refresh_token")
               == (if |s.post.delivered| == n || s.post.delivered[n].refreshToken == "" then Raw(s.secrets, "refresh_token")
                   else s.post.delivered[n].refreshToken)
    ensures forall key :: key != "access_token" && key != "refresh_token" ==>
              Raw(s.secrets + s.updates, key) == Raw(s.secrets, key)
  {
  }

  /** The host always holds the last access token the endpoint delivered and the last refresh token that was not empty. */
  lemma {:induction false} StoredTokensAreLatest(steps: seq<Step>, k: nat)
    requires IsSession(steps) && k < |steps|
    ensures var from := |steps[0].pre.delivered|; var delivered := steps[k].post.delivered;
            && from <= |delivered|
            && Raw(Stored(steps, k), "access_token") == LastAccess(delivered, from, Raw(steps[0].secrets, "access_token"))
            && Raw(Stored(steps, k), "refresh_token") == LastRefresh(delivered, from, Raw(steps[0].secrets, "refresh_token"))
    decreases k
  {
    var s := steps[k];
    StoredByCall(s);
    if k > 0 {
      StoredTokensAreLatest(steps, k - 1);
      assert s.pre == steps[k - 1].post && s.secrets == Stored(steps, k - 1);
    }
    if |s.pre.delivered| < |s.post.delivered| {
      assert s.post.delivered[..|s.post.delivered| - 1] == s.pre.delivered;
    }
  }

  /** Every refresh token requested during a call is `expected`. */
  ghost predicate Carried(pre: State, post: State, expected: string) {
    |pre.tokenCalls| <= |post.tokenCalls|
    && forall k :: |pre.tokenCalls| <= k < |post.tokenCalls| ==>
         "refresh_token" in post.tokenCalls[k].form && post.tokenCalls[k].form["refresh_token"] == expected
  }

  /**
   * So as long as no rotation is lost on the way, the host's refresh token is the one the endpoint accepts, before and after
   * every call, and every token request carries it.
   */
  lemma {:induction false} RefreshTokenStaysCurrent(steps: seq<Step>, k: nat)
    requires IsSession(steps) && k < |steps|
    requires Raw(steps[0].secrets, "refresh_token") == steps[0].pre.current && !steps[k].post.lost
    ensures Raw(Stored(steps, k), "refresh_token") == steps[k].post.current
    ensures Raw(steps[k].secrets, "refresh_token") == steps[k].pre.current
    ensures Carried(steps[k].pre, steps[k].post, TrimSpace(steps[k].pre.current))
    decreases k
  {
    var s := steps[k];
    StoredByCall(s);
    if k > 0 {
      assert s.pre == steps[k - 1].post && s.secrets == Stored(steps, k - 1);
      RefreshTokenStaysCurrent(steps, k - 1);
    }
    CallCarriesStored(s);
  }

  lemma CallCarriesStored(s: Step)
    requires Call(s.pre, s.post, s.secrets, s.write, s.outcome, s.updates)
    ensures Carried(s.pre, s.post, TrimSpace(Raw(s.secrets, "refresh_token")))
  {
    assert TrimSpace("") == "";
  }

  /** The calls of a session that report success, and those that leave it open. */
  function Count(steps: seq<Step>, n: nat, uncertain: bool): nat
    requires n <= |steps|
  {
    if n == 0 then 0
    else
      var s := steps[n - 1];
      Count(steps, n - 1, uncertain)
      + (if s.write && (if uncertain then s.outcome.result.Err? && s.outcome.result.error.kind == Uncertain else s.outcome.result.Ok?)
         then 1 else 0)
  }

  /** Over a whole session the writes that took effect are the successful ones and at most one for each Uncertain one. */
  lemma {:induction false} EffectsAreAccounted(steps: seq<Step>, n: nat)
    requires IsSession(steps) && n < |steps|
    ensures var effects := steps[n].post.effects - steps[0].pre.effects;
            Count(steps, n + 1, false) <= effects <= Count(steps, n + 1, false) + Count(steps, n + 1, true)
    decreases n
  {
    var s := steps[n];
    assert Call(s.pre, s.post, s.secrets, s.write, s.outcome, s.updates);
    assert Effect(s.pre.effects, s.post.effects, s.write, s.outcome.result);
    if n > 0 {
      EffectsAreAccounted(steps, n - 1);
      assert s.pre == steps[n - 1].post;
    }
  }

  /** A host that retries a write exactly after Retryable results has it applied at most once, and once if it ends well. */
  lemma {:induction false} RetriedWriteTakesEffectOnce(steps: seq<Step>, n: nat)
    requires IsSession(steps) && n < |steps| && forall k :: 0 <= k <= n ==> steps[k].write
    requires forall k :: 0 <= k < n ==> steps[k].outcome.result.Err? && steps[k].outcome.result.error.kind == Retryable
    ensures Effect(steps[0].pre.effects, steps[n].post.effects, true, steps[n].outcome.result)
    decreases n
  {
    var s := steps[n];
    assert Call(s.pre, s.post, s.secrets, s.write, s.outcome, s.updates);
    if n > 0 {
      RetriedWriteTakesEffectOnce(steps, n - 1);
      assert s.pre == steps[n - 1].post;
    }
  }

  // ---- The host ----

  /** Stores what a call asks for; a key it names replaces the old value. */
  function Store(secrets: Secrets, updates: Secrets): Secrets {
    secrets + updates
  }

  /** A session of at least one call that takes the endpoint from `pre` to `post` and the secrets from `secrets` to `stored`. */
  ghost predicate Spans(steps: seq<Step>, pre: State, secrets: Secrets, post: State, stored: Secrets) {
    && IsSession(steps) && steps != []
    && steps[0].pre == pre && steps[0].secrets == secrets
    && steps[|steps| - 1].post == post && Stored(steps, |steps| - 1) == stored
  }

  ghost predicate IsCall(s: Step) {
    Call(s.pre, s.post, s.secrets, s.write, s.outcome, s.updates)
  }

  ghost predicate Linked(steps: seq<Step>) {
    forall k :: 0 < k < |steps| ==> steps[k].pre == steps[k - 1].post && steps[k].secrets == steps[k - 1].secrets + steps[k - 1].updates
  }

  /** Adding a call that starts where the others end, whatever counts as a call. */
  lemma LinkedSnoc(isCall: Step -> bool, steps: seq<Step>, s: Step)
    requires (forall k :: 0 <= k < |steps| ==> isCall(steps[k])) && Linked(steps) && isCall(s)
    requires steps != [] ==> s.pre == steps[|steps| - 1].post && s.secrets == Stored(steps, |steps| - 1)
    ensures (forall k :: 0 <= k < |steps + [s]| ==> isCall((steps + [s])[k])) && Linked(steps + [s])
  {
  }

  lemma SessionIsLinked(steps: seq<Step>)
    ensures IsSession(steps) <==> (forall k :: 0 <= k < |steps| ==> IsCall(steps[k])) && Linked(steps)
  {
  }

  lemma SpansSnoc(steps: seq<Step>, pre: State, secrets: Secrets, s: Step)
    requires IsCall(s)
    requires if steps == [] then s.pre == pre && s.secrets == secrets else Spans(steps, pre, secrets, s.pre, s.secrets)
    ensures Spans(steps + [s], pre, secrets, s.post, Store(s.secrets, s.updates))
  {
    SessionIsLinked(steps);
    LinkedSnoc(IsCall, steps, s);
    SessionIsLinked(steps + [s]);
  }

  /** What a host holds after a session: the tokens delivered last, and the one the endpoint accepts unless a rotation was lost. */
  ghost predicate Holds(pre: State, post: State, secrets: Secrets, stored: Secrets) {
    && |pre.delivered| <= |post.delivered|
    && Raw(stored, "access_token") == LastAccess(post.delivered, |pre.delivered|, Raw(secrets, "access_token"))
    && Raw(stored, "refresh_token") == LastRefresh(post.delivered, |pre.delivered|, Raw(secrets, "refresh_token"))
    && (Raw(secrets, "refresh_token") == pre.current && !post.lost ==> Raw(stored, "refresh_token") == post.current)
  }

  lemma SessionHolds(steps: seq<Step>, pre: State, secrets: Secrets, post: State, stored: Secrets)
    requires Spans(steps, pre, secrets, post, stored)
    ensures Holds(pre, post, secrets, stored)
  {
    StoredTokensAreLatest(steps, |steps| - 1);
    if Raw(secrets, "refresh_token") == pre.current && !post.lost {
      RefreshTokenStaysCurrent(steps, |steps| - 1);
    }
  }

  /** One call of a host, and the storing of its updates. */
  method HostCall(remote: Remote, connection: Connection, secrets: Secrets, write: bool, ghost steps: seq<Step>, ghost pre: State,
                  ghost initial: Secrets) returns (result: Result<(), Failure>, stored: Secrets, ghost s: Step)
    requires if steps == [] then remote.state == pre && secrets == initial else Spans(steps, pre, initial, remote.state, secrets)
    modifies remote
    ensures Spans(steps + [s], pre, initial, remote.state, stored)
    ensures s.write == write && s.outcome.result == result
  {
    ghost var before := remote.state;
    var o, updates := ExecuteWithRefresh(remote, connection, secrets, write);
    s := Step(before, remote.state, secrets, write, o, updates);
    SpansSnoc(steps, pre, initial, s);
    stored, result := Store(secrets, updates), o.result;
  }

  /** The writes among the results that were reported as done, or as uncertain. */
  function Reported(writes: seq<bool>, results: seq<Result<(), Failure>>, uncertain: bool): nat
    requires |writes| == |results|
  {
    if results == [] then 0
    else
      var n := |results| - 1;
      Reported(writes[..n], results[..n], uncertain)
      + (if writes[n] && (if uncertain then results[n].Err? && results[n].error.kind == Uncertain else results[n].Ok?) then 1 else 0)
  }

  lemma {:induction false} CountIsReported(steps: seq<Step>, writes: seq<bool>, results: seq<Result<(), Failure>>, n: nat, uncertain: bool)
    requires |steps| == |writes| == |results| && n <= |steps|
    requires forall k :: 0 <= k < |steps| ==> steps[k].write == writes[k] && steps[k].outcome.result == results[k]
    ensures Count(steps, n, uncertain) == Reported(writes[..n], results[..n], uncertain)
  {
    if n > 0 {
      CountIsReported(steps, writes, results, n - 1, uncertain);
      assert writes[..n][..n - 1] == writes[..n - 1] && results[..n][..n - 1] == results[..n - 1];
    }
  }

  lemma EffectsAreReported(steps: seq<Step>, pre: State, secrets: Secrets, post: State, stored: Secrets,
                           writes: seq<bool>, results: seq<Result<(), Failure>>)
    requires Spans(steps, pre, secrets, post, stored) && |steps| == |writes| == |results|
    requires forall k :: 0 <= k < |steps| ==> steps[k].write == writes[k] && steps[k].outcome.result == results[k]
    ensures var sure, open := Reported(writes, results, false), Reported(writes, results, true);
            sure <= post.effects - pre.effects <= sure + open
  {
    EffectsAreAccounted(steps, |steps| - 1);
    CountIsReported(steps, writes, results, |steps|, false);
    CountIsReported(steps, writes, results, |steps|, true);
    assert writes[..|steps|] == writes && results[..|steps|] == results;
  }

  /**
   * A host that makes any sequence of calls and stores the updates of each, success or failure. It ends up with the latest
   * tokens, and the writes applied are those reported as done and at most one for each reported as uncertain.
   */
  method HostSession(remote: Remote, connection: Connection, secrets: Secrets, writes: seq<bool>)
      returns (results: seq<Result<(), Failure>>, stored: Secrets)
    modifies remote
    ensures |results| == |writes|
    ensures Holds(old(remote.state), remote.state, secrets, stored)
    ensures var sure, open := Reported(writes, results, false), Reported(writes, results, true);
            sure <= remote.state.effects - old(remote.state).effects <= sure + open
  {
    ghost var steps: seq<Step> := [];
    results, stored := [], secrets;
    for k := 0 to |writes|
      invariant |results| == k == |steps|
      invariant forall m :: 0 <= m < k ==> steps[m].write == writes[m] && steps[m].outcome.result == results[m]
      invariant if steps == [] then remote.state == old(remote.state) && stored == secrets
                else Spans(steps, old(remote.state), secrets, remote.state, stored)
    {
      var result;
      ghost var s;
      result, stored, s := HostCall(remote, connection, stored, writes[k], steps, old(remote.state), secrets);
      results, steps := results + [result], steps + [s];
    }
    if |writes| > 0 {
      SessionHolds(steps, old(remote.state), secrets, remote.state, stored);
      EffectsAreReported(steps, old(remote.state), secrets, remote.state, stored, writes, results);
    }
  }

  /** All calls are writes, and all but the last were answered Retryable. */
  ghost predicate Retried(steps: seq<Step>) {
    && (forall k :: 0 <= k < |steps| ==> steps[k].write)
    && (forall k :: 0 <= k < |steps| - 1 ==> steps[k].outcome.result.Err? && steps[k].outcome.result.error.kind == Retryable)
  }

  /** A host that repeats a write at most `retries` times, exactly after Retryable results: it takes effect at most once. */
  method HostRetries(remote: Remote, connection: Connection, secrets: Secrets, retries: nat)
      returns (result: Result<(), Failure>, stored: Secrets)
    modifies remote
    ensures Effect(old(remote.state).effects, remote.state.effects, true, result)
    ensures Holds(old(remote.state), remote.state, secrets, stored)
  {
    ghost var s;
    result, stored, s := HostCall(remote, connection, secrets, true, [], old(remote.state), secrets);
    ghost var steps := [] + [s];
    var left := retries;
    while left > 0 && result.Err? && result.error.kind == Retryable
      invariant Spans(steps, old(remote.state), secrets, remote.state, stored) && Retried(steps)
      invariant steps[|steps| - 1].outcome.result == result
    {
      result, stored, s := HostCall(remote, connection, stored, true, steps, old(remote.state), secrets);
      RetriedSnoc(steps, s);
      steps := steps + [s];
      left := left - 1;
    }
    RetriedTakesEffectOnce(steps, old(remote.state), secrets, remote.state, stored);
    SessionHolds(steps, old(remote.state), secrets, remote.state, stored);
  }

  lemma RetriedSnoc(steps: seq<Step>, s: Step)
    requires Retried(steps) && steps != [] && s.write
    requires var last := steps[|steps| - 1].outcome.result; last.Err? && last.error.kind == Retryable
    ensures Retried(steps + [s])
  {
  }

  lemma RetriedTakesEffectOnce(steps: seq<Step>, pre: State, secrets: Secrets, post: State, stored: Secrets)
    requires Spans(steps, pre, secrets, post, stored) && Retried(steps)
    ensures Effect(pre.effects, post.effects, true, steps[|steps| - 1].outcome.result)
  {
    RetriedWriteTakesEffectOnce(steps, |steps| - 1);
  }
}
