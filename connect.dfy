/** `OAuth1::connect` (lib/commands/oauth1.php:38-109) as a state machine
    over the results of its foreign collaborators: the site locator, the
    index request, the two token exchanges and the verifier the user
    types. A run is the outcome together with the calls made, in order. */
module Connect {
  import opened Php
  import opened UrlEncoding
  import opened Authorization
  import opened Credentials

  /** The positional site argument and the options of `connect`.
      `noCache` holds when `$assoc_args['no-cache']` is non-empty. */
  datatype Args = Args(site: Bytes, key: Bytes, secret: Bytes, scope: ScopeArg, noCache: bool)

  /** What the collaborators return: `Locator::locate`, the index
      document after `json_decode` and the two token responses after
      `parse_str`, each a value or a thrown exception, and the line read
      from standard input, None where `fgets` returns false. */
  datatype World = World(
    locate: Result<Bytes>,
    index: Result<Json>,
    requestTokenResponse: Result<Fields>,
    verifierLine: Option<Bytes>,
    accessTokenResponse: Result<Fields>)

  /** The observable steps of `connect`, with what each step is given. */
  datatype Call =
    | Locate(site: Bytes)
    | GetIndex(base: Bytes)
    | AttachAuth
    | GetRequestToken(endpoint: Json, token: Option<Token>)
    | ShowAuthorization(url: Bytes)
    | ReadVerifier
    | GetAccessToken(endpoint: Json, token: Option<Token>, verifier: Bytes)
    | SaveForSite(url: Bytes, credential: Credential)

  /** How `connect` ends: authorized with the access token, stopped by
      `WP_CLI::error` with the exception's message, or stopped by a
      TypeError, which the `catch (Exception $e)` does not catch. */
  datatype Outcome = Authorized(token: Token) | Failed(message: Bytes) | Fatal

  datatype Run = Run(outcome: Outcome, calls: seq<Call>)

  /** The message of the exception thrown at the capability check. It is
      written as two literals because the verifier does not establish that
      every char of one literal this long is below 256. */
  const NoOAuthMessage: Bytes := "Could not locate OAuth information; " + "are you sure it's enabled?"

  /** `$index_data->authentication`. */
  function Authentication(index: Json): Json {
    Property(index, "authentication")
  }

  /** `$index_data->authentication->oauth1`. */
  function OAuth1Info(index: Json): Json {
    Property(Authentication(index), "oauth1")
  }

  /** `oauth1->request`, `oauth1->authorize` and `oauth1->access`: the
      advertised endpoints. */
  function RequestEndpoint(oauth1: Json): Json {
    Property(oauth1, "request")
  }

  function AuthorizeEndpoint(oauth1: Json): Json {
    Property(oauth1, "authorize")
  }

  function AccessEndpoint(oauth1: Json): Json {
    Property(oauth1, "access")
  }

  /** The base URL of the session: the located API URL and a slash. */
  function SessionBase(url: Bytes): Bytes {
    url + "/"
  }

  /** What `save_for_site` stores for a consumer and a token. */
  function Saved(args: Args, token: Token): Credential {
    Credential(Consumer(args.key, args.secret), Some(token))
  }

  /** The capability check: neither `authentication` nor its `oauth1` is
      empty. */
  predicate HasOAuth1(index: Json) {
    !Empty(Authentication(index)) && !Empty(OAuth1Info(index))
  }

  /** The trimmed verification code. */
  function Verifier(w: World): Bytes {
    Trim(w.verifierLine.GetOr([]))
  }

  /** The run of `connect`: the site is located first, and each later
      step happens only when the steps before it returned. */
  function ConnectRun(args: Args, w: World): Run {
    var calls := [Locate(args.site)];
    match w.locate
    case Thrown(m) => Run(Failed(m), calls)
    case Ok(url) => IndexStage(args, w, url, calls)
  }

  /** The index request and the capability check. */
  function IndexStage(args: Args, w: World, url: Bytes, before: seq<Call>): Run {
    var calls := before + [GetIndex(SessionBase(url))];
    match w.index
    case Thrown(m) => Run(Failed(m), calls)
    case Ok(index) =>
      if !HasOAuth1(index) then Run(Failed(NoOAuthMessage), calls)
      else RequestStage(args, w, url, OAuth1Info(index), calls)
  }

  /** The authenticator is attached and the request token is asked for,
      with no token set yet. */
  function RequestStage(args: Args, w: World, url: Bytes, oauth1: Json, before: seq<Call>): Run {
    var calls := before + [AttachAuth, GetRequestToken(RequestEndpoint(oauth1), None)];
    match w.requestTokenResponse
    case Thrown(m) => Run(Failed(m), calls)
    case Ok(fields) => AuthorizeStage(args, w, url, oauth1, TokenFrom(fields), calls)
  }

  /** A non-string `authorize` endpoint stops `connect` with a TypeError
      in `strpos`; otherwise the user is prompted. */
  function AuthorizeStage(args: Args, w: World, url: Bytes, oauth1: Json, request: Token, before: seq<Call>): Run {
    match ToPhpString(AuthorizeEndpoint(oauth1))
    case None => Run(Fatal, before)
    case Some(authorize) => PromptStage(args, w, url, oauth1, request, authorize, before)
  }

  /** The authorization URL is shown and the verifier is read. */
  function PromptStage(args: Args, w: World, url: Bytes, oauth1: Json, request: Token, authorize: Bytes, before: seq<Call>): Run {
    var calls := before + [ShowAuthorization(AuthorizationUrl(authorize, request.key, args.scope)), ReadVerifier];
    AccessStage(args, w, url, oauth1, request, calls)
  }

  /** The access token is asked for with the request token set and the
      trimmed verifier. */
  function AccessStage(args: Args, w: World, url: Bytes, oauth1: Json, request: Token, before: seq<Call>): Run {
    var calls := before + [GetAccessToken(AccessEndpoint(oauth1), Some(request), Verifier(w))];
    match w.accessTokenResponse
    case Thrown(m) => Run(Failed(m), calls)
    case Ok(fields) => SaveStage(args, url, TokenFrom(fields), calls)
  }

  /** The credentials are saved unless `--no-cache` is set. */
  function SaveStage(args: Args, url: Bytes, access: Token, before: seq<Call>): Run {
    Run(Authorized(access), if args.noCache then before else before + [SaveForSite(url, Saved(args, access))])
  }

  /** `connect` step by step: the authenticator is created with no token,
      given the request token and then the access token, and each call
      is made with the token the authenticator holds at that point. */
  method Connect(args: Args, w: World) returns (run: Run)
    ensures run == ConnectRun(args, w)
  {
    var auth := new Auth(Consumer(args.key, args.secret), None);
    var calls := [Locate(args.site)];
    if w.locate.Thrown? {
      return Run(Failed(w.locate.message), calls);
    }
    var url := w.locate.value;
    assert ConnectRun(args, w) == IndexStage(args, w, url, calls);
    calls := calls + [GetIndex(SessionBase(url))];
    if w.index.Thrown? {
      return Run(Failed(w.index.message), calls);
    }
    var index := w.index.value;
    var authentication := Property(index, "authentication");
    if Empty(authentication) || Empty(Property(authentication, "oauth1")) {
      return Run(Failed(NoOAuthMessage), calls);
    }
    var oauth1 := Property(authentication, "oauth1");
    ghost var before := calls;
    calls := calls + [AttachAuth, GetRequestToken(RequestEndpoint(oauth1), auth.token)];
    if w.requestTokenResponse.Thrown? {
      return Run(Failed(w.requestTokenResponse.message), calls);
    }
    var fields := w.requestTokenResponse.value;
    auth.SetToken(TokenFrom(fields));
    assert RequestStage(args, w, url, oauth1, before) == AuthorizeStage(args, w, url, oauth1, TokenFrom(fields), calls);
    run := Authorize(args, w, url, oauth1, calls, auth);
  }

  /** The second half of `connect`, from the authorization URL on, with
      the authenticator holding the request token. */
  method Authorize(args: Args, w: World, url: Bytes, oauth1: Json, requested: seq<Call>, auth: Auth)
    returns (run: Run)
    requires auth.consumer == Consumer(args.key, args.secret) && auth.token.Some?
    modifies auth
    ensures run == AuthorizeStage(args, w, url, oauth1, old(auth.token.value), requested)
    ensures run.outcome.Authorized? ==> auth.token == Some(run.outcome.token)
    ensures !run.outcome.Authorized? ==> auth.token == old(auth.token)
  {
    var calls := requested;
    var authorize := ToPhpString(AuthorizeEndpoint(oauth1));
    if authorize.None? {
      return Run(Fatal, calls);
    }
    assert AuthorizeStage(args, w, url, oauth1, auth.token.value, calls) == PromptStage(args, w, url, oauth1, auth.token.value, authorize.value, calls);
    var authorization := BuildAuthorizationUrl(authorize.value, auth.token.value.key, args.scope);
    calls := calls + [ShowAuthorization(authorization), ReadVerifier];
    var code := Trim(w.verifierLine.GetOr([]));
    ghost var prompted := calls;
    calls := calls + [GetAccessToken(AccessEndpoint(oauth1), auth.token, code)];
    if w.accessTokenResponse.Thrown? {
      return Run(Failed(w.accessTokenResponse.message), calls);
    }
    auth.SetToken(TokenFrom(w.accessTokenResponse.value));
    assert AccessStage(args, w, url, oauth1, old(auth.token.value), prompted) == SaveStage(args, url, auth.token.value, calls);
    if !args.noCache {
      calls := calls + [SaveForSite(url, auth.Current())];
    }
    run := Run(Authorized(auth.token.value), calls);
  }

  /** The position of each kind of call in the full sequence of steps. */
  function Rank(c: Call): nat {
    match c
    case Locate(_) => 0
    case GetIndex(_) => 1
    case AttachAuth => 2
    case GetRequestToken(_, _) => 3
    case ShowAuthorization(_) => 4
    case ReadVerifier => 5
    case GetAccessToken(_, _, _) => 6
    case SaveForSite(_, _) => 7
  }

  /** The `i`-th call is the step of rank `i`: the calls are a prefix of
      the full sequence of steps. */
  predicate Ranked(calls: seq<Call>) {
    forall i :: 0 <= i < |calls| ==> Rank(calls[i]) == i
  }

  lemma RankedAppend(before: seq<Call>, more: seq<Call>)
    requires Ranked(before)
    requires forall j :: 0 <= j < |more| ==> Rank(more[j]) == |before| + j
    ensures Ranked(before + more)
  {
    forall i | 0 <= i < |before + more|
      ensures Rank((before + more)[i]) == i
    {
      if i >= |before| {
        assert (before + more)[i] == more[i - |before|];
      }
    }
  }

  /** Calls that extend `before + more` start with `before` and then
      hold `more`, position by position. */
  lemma Extends(calls: seq<Call>, before: seq<Call>, more: seq<Call>)
    requires |before + more| <= |calls| && calls[..|before + more|] == before + more
    ensures calls[..|before|] == before
    ensures forall j :: 0 <= j < |more| ==> calls[|before| + j] == more[j]
  {
    forall j | 0 <= j < |more|
      ensures calls[|before| + j] == more[j]
    {
      assert calls[|before| + j] == calls[..|before + more|][|before| + j];
    }
    assert calls[..|before|] == calls[..|before + more|][..|before|];
  }

  lemma SaveShape(args: Args, url: Bytes, access: Token, before: seq<Call>)
    ensures var calls := SaveStage(args, url, access, before).calls;
      && |before| <= |calls| <= |before| + 1
      && calls[..|before|] == before
      && (|calls| > |before| <==> !args.noCache)
      && (|calls| > |before| ==> calls[|before|] == SaveForSite(url, Saved(args, access)))
      && (Ranked(before) && |before| == 7 ==> Ranked(calls))
  {
    if !args.noCache {
      var more := [SaveForSite(url, Saved(args, access))];
      Extends(before + more, before, more);
      if Ranked(before) && |before| == 7 {
        RankedAppend(before, more);
      }
    }
  }

  lemma AccessShape(args: Args, w: World, url: Bytes, oauth1: Json, request: Token, before: seq<Call>)
    ensures var calls := AccessStage(args, w, url, oauth1, request, before).calls;
      && |before| + 1 <= |calls| <= |before| + 2
      && calls[..|before|] == before
      && calls[|before|] == GetAccessToken(AccessEndpoint(oauth1), Some(request), Verifier(w))
      && (Ranked(before) && |before| == 6 ==> Ranked(calls))
  {
    var more := [GetAccessToken(AccessEndpoint(oauth1), Some(request), Verifier(w))];
    var asked := before + more;
    if Ranked(before) && |before| == 6 {
      RankedAppend(before, more);
    }
    var calls := AccessStage(args, w, url, oauth1, request, before).calls;
    if w.accessTokenResponse.Ok? {
      SaveShape(args, url, TokenFrom(w.accessTokenResponse.value), asked);
    }
    Extends(calls, before, more);
  }

  lemma PromptShape(args: Args, w: World, url: Bytes, oauth1: Json, request: Token, authorize: Bytes, before: seq<Call>)
    ensures var calls := PromptStage(args, w, url, oauth1, request, authorize, before).calls;
      && |before| + 3 <= |calls| <= |before| + 4
      && calls[..|before|] == before
      && calls[|before|] == ShowAuthorization(AuthorizationUrl(authorize, request.key, args.scope))
      && calls[|before| + 1] == ReadVerifier
      && (Ranked(before) && |before| == 4 ==> Ranked(calls))
  {
    var more := [ShowAuthorization(AuthorizationUrl(authorize, request.key, args.scope)), ReadVerifier];
    var shown := before + more;
    if Ranked(before) && |before| == 4 {
      RankedAppend(before, more);
    }
    AccessShape(args, w, url, oauth1, request, shown);
    var calls := PromptStage(args, w, url, oauth1, request, authorize, before).calls;
    Extends(calls, before, more);
  }

  lemma AuthorizeShape(args: Args, w: World, url: Bytes, oauth1: Json, request: Token, before: seq<Call>)
    ensures var calls := AuthorizeStage(args, w, url, oauth1, request, before).calls;
      && |before| <= |calls| <= |before| + 4
      && calls[..|before|] == before
      && (Ranked(before) && |before| == 4 ==> Ranked(calls))
    ensures var run := AuthorizeStage(args, w, url, oauth1, request, before);
      && (run.outcome.Fatal? <==> ToPhpString(AuthorizeEndpoint(oauth1)).None?)
      && (run.outcome.Fatal? ==> run.calls == before)
      && (!run.outcome.Fatal? ==>
            run.calls[|before|] == ShowAuthorization(AuthorizationUrl(ToPhpString(AuthorizeEndpoint(oauth1)).value, request.key, args.scope)))
  {
    match ToPhpString(AuthorizeEndpoint(oauth1))
    case None =>
    case Some(authorize) =>
      PromptShape(args, w, url, oauth1, request, authorize, before);
  }

  lemma RequestShape(args: Args, w: World, url: Bytes, oauth1: Json, before: seq<Call>)
    ensures var calls := RequestStage(args, w, url, oauth1, before).calls;
      && |before| + 2 <= |calls| <= |before| + 6
      && calls[..|before|] == before
      && calls[|before|] == AttachAuth
      && calls[|before| + 1] == GetRequestToken(RequestEndpoint(oauth1), None)
      && (Ranked(before) && |before| == 2 ==> Ranked(calls))
  {
    var more := [AttachAuth, GetRequestToken(RequestEndpoint(oauth1), None)];
    if Ranked(before) && |before| == 2 {
      RankedAppend(before, more);
    }
    if w.requestTokenResponse.Ok? {
      AuthorizeShape(args, w, url, oauth1, TokenFrom(w.requestTokenResponse.value), before + more);
    }
    var calls := RequestStage(args, w, url, oauth1, before).calls;
    Extends(calls, before, more);
  }

  lemma IndexShape(args: Args, w: World, url: Bytes, before: seq<Call>)
    ensures var calls := IndexStage(args, w, url, before).calls;
      && |before| + 1 <= |calls| <= |before| + 7
      && calls[..|before|] == before
      && calls[|before|] == GetIndex(SessionBase(url))
      && (Ranked(before) && |before| == 1 ==> Ranked(calls))
  {
    var more := [GetIndex(SessionBase(url))];
    if Ranked(before) && |before| == 1 {
      RankedAppend(before, more);
    }
    if w.index.Ok? && HasOAuth1(w.index.value) {
      RequestShape(args, w, url, OAuth1Info(w.index.value), before + more);
    }
    var calls := IndexStage(args, w, url, before).calls;
    Extends(calls, before, more);
  }

  /** Every run is a prefix of the full sequence of steps: the `i`-th call
      made is the step of rank `i`, so the steps keep their order, none is
      skipped and none is made twice. */
  lemma CallOrder(args: Args, w: World)
    ensures var calls := ConnectRun(args, w).calls;
      && 1 <= |calls| <= 8
      && Ranked(calls)
      && (forall i, j :: 0 <= i < j < |calls| ==> Rank(calls[i]) < Rank(calls[j]))
  {
    RunRanked(args, w);
  }

  lemma RunRanked(args: Args, w: World)
    ensures var calls := ConnectRun(args, w).calls;
      1 <= |calls| <= 8 && Ranked(calls)
  {
    if w.locate.Ok? {
      IndexShape(args, w, w.locate.value, [Locate(args.site)]);
    }
  }

  /** In ranked calls the save can only be the eighth and last call. */
  lemma SaveIsEighth(calls: seq<Call>)
    requires |calls| <= 8 && Ranked(calls)
    ensures forall i :: 0 <= i < |calls| && calls[i].SaveForSite? ==> i == 7 && |calls| == 8
  {
    forall i | 0 <= i < |calls| && calls[i].SaveForSite? ensures i == 7 && |calls| == 8 {
      assert Rank(calls[i]) == i;
    }
  }

  /** The index was fetched and advertises OAuth 1.0a. */
  predicate GatePassed(w: World) {
    w.locate.Ok? && w.index.Ok? && HasOAuth1(w.index.value)
  }

  /** The request token was issued and the `authorize` endpoint is a
      string, so the user is prompted. */
  predicate Prompted(w: World) {
    GatePassed(w) && w.requestTokenResponse.Ok? && ToPhpString(AuthorizeEndpoint(OAuth1Info(w.index.value))).Some?
  }

  /** The calls made before the authenticator is attached. */
  function LocatedCalls(args: Args, url: Bytes): seq<Call> {
    [Locate(args.site)] + [GetIndex(SessionBase(url))]
  }

  /** The calls made before the authorization URL is shown. */
  function RequestedCalls(args: Args, w: World): seq<Call>
    requires GatePassed(w)
  {
    LocatedCalls(args, w.locate.value) + [AttachAuth, GetRequestToken(RequestEndpoint(OAuth1Info(w.index.value)), None)]
  }

  /** The calls made before the access token is asked for. */
  function PromptedCalls(args: Args, w: World): seq<Call>
    requires Prompted(w)
  {
    var authorize := ToPhpString(AuthorizeEndpoint(OAuth1Info(w.index.value))).value;
    RequestedCalls(args, w) + [ShowAuthorization(AuthorizationUrl(authorize, TokenFrom(w.requestTokenResponse.value).key, args.scope)), ReadVerifier]
  }

  lemma GatedPath(args: Args, w: World)
    requires GatePassed(w)
    ensures ConnectRun(args, w) == RequestStage(args, w, w.locate.value, OAuth1Info(w.index.value), LocatedCalls(args, w.locate.value))
  {
  }

  lemma PromptedPath(args: Args, w: World)
    requires Prompted(w)
    ensures ConnectRun(args, w) == AccessStage(args, w, w.locate.value, OAuth1Info(w.index.value), TokenFrom(w.requestTokenResponse.value), PromptedCalls(args, w))
  {
    GatedPath(args, w);
  }

  /** How far each run gets: the locate alone when it throws; the index
      request too when the capability check fails; the request-token call
      as the fourth call once it passes; four calls exactly when it stops
      before the prompt; and, once prompted, the authorization URL as the
      fifth call and the access-token call as the seventh. */
  lemma Reach(args: Args, w: World)
    ensures var calls := ConnectRun(args, w).calls;
      && (w.locate.Thrown? ==> calls == [Locate(args.site)])
      && (w.locate.Ok? && !GatePassed(w) ==> calls == [Locate(args.site), GetIndex(SessionBase(w.locate.value))])
      && (GatePassed(w) ==> |calls| >= 4 && calls[3] == GetRequestToken(RequestEndpoint(OAuth1Info(w.index.value)), None))
      && (GatePassed(w) && !Prompted(w) ==> |calls| == 4)
      && (Prompted(w) ==>
            && |calls| >= 7
            && calls[4] == ShowAuthorization(AuthorizationUrl(
                 ToPhpString(AuthorizeEndpoint(OAuth1Info(w.index.value))).value,
                 TokenFrom(w.requestTokenResponse.value).key,
                 args.scope))
            && calls[6] == GetAccessToken(AccessEndpoint(OAuth1Info(w.index.value)), Some(TokenFrom(w.requestTokenResponse.value)), Verifier(w)))
  {
    if w.locate.Ok? && !GatePassed(w) {
      assert [Locate(args.site)] + [GetIndex(SessionBase(w.locate.value))] == [Locate(args.site), GetIndex(SessionBase(w.locate.value))];
    }
    if GatePassed(w) {
      GatedPath(args, w);
      RequestShape(args, w, w.locate.value, OAuth1Info(w.index.value), LocatedCalls(args, w.locate.value));
    }
    if Prompted(w) {
      var oauth1 := OAuth1Info(w.index.value);
      var request := TokenFrom(w.requestTokenResponse.value);
      var authorize := ToPhpString(AuthorizeEndpoint(oauth1)).value;
      PromptedPath(args, w);
      PromptShape(args, w, w.locate.value, oauth1, request, authorize, RequestedCalls(args, w));
      AccessShape(args, w, w.locate.value, oauth1, request, PromptedCalls(args, w));
    }
  }

  /** How each run ends: with a TypeError exactly when the request token
      was issued but the `authorize` endpoint is not a string; authorized
      exactly when the user was prompted and the access-token exchange
      returned, with the pair from its response; and with a save as the
      eighth call exactly when authorized without `--no-cache`. */
  lemma Ends(args: Args, w: World)
    ensures var run := ConnectRun(args, w);
      && (run.outcome.Fatal? <==> GatePassed(w) && w.requestTokenResponse.Ok? && !Prompted(w))
      && (run.outcome.Authorized? <==> Prompted(w) && w.accessTokenResponse.Ok?)
      && (run.outcome.Authorized? ==> run.outcome.token == TokenFrom(w.accessTokenResponse.value))
      && (|run.calls| == 8 <==> run.outcome.Authorized? && !args.noCache)
      && (|run.calls| == 8 ==> w.locate.Ok? && run.outcome.Authorized? && run.calls[7] == SaveForSite(w.locate.value, Saved(args, run.outcome.token)))
  {
    Reach(args, w);
    if GatePassed(w) {
      GatedPath(args, w);
    }
    if Prompted(w) {
      PromptedPath(args, w);
      var asked := PromptedCalls(args, w) + [GetAccessToken(AccessEndpoint(OAuth1Info(w.index.value)), Some(TokenFrom(w.requestTokenResponse.value)), Verifier(w))];
      if w.accessTokenResponse.Ok? {
        SaveShape(args, w.locate.value, TokenFrom(w.accessTokenResponse.value), asked);
      }
    }
  }

  /** The capability check gates the rest: past the index request,
      something is called exactly when the index advertises OAuth 1.0a.
      When it does not, `connect` fails with its message after the locate
      and the index request alone, so no request token is asked for, no
      prompt is shown and nothing is saved. */
  lemma CapabilityGate(args: Args, w: World)
    ensures var run := ConnectRun(args, w);
      |run.calls| > 2 <==> w.locate.Ok? && w.index.Ok? && HasOAuth1(w.index.value)
    ensures var run := ConnectRun(args, w);
      w.locate.Ok? && w.index.Ok? && !HasOAuth1(w.index.value) ==>
        && run.outcome == Failed(NoOAuthMessage)
        && run.calls == [Locate(args.site), GetIndex(SessionBase(w.locate.value))]
    ensures var run := ConnectRun(args, w);
      !(w.locate.Ok? && w.index.Ok? && HasOAuth1(w.index.value)) ==>
        forall c :: c in run.calls ==> c.Locate? || c.GetIndex?
  {
    Reach(args, w);
  }

  /** The token moves from nothing to the request pair to the access
      pair: every request-token call is made with no token; every
      access-token call is made with the pair from the request-token
      response and the trimmed verifier; and an authorized run ends with
      the pair from the access-token response. */
  lemma TokenProgression(args: Args, w: World)
    ensures var calls := ConnectRun(args, w).calls;
      forall i :: 0 <= i < |calls| && calls[i].GetRequestToken? ==> calls[i].token == None
    ensures var calls := ConnectRun(args, w).calls;
      forall i :: 0 <= i < |calls| && calls[i].GetAccessToken? ==>
        && w.requestTokenResponse.Ok?
        && calls[i].token == Some(TokenFrom(w.requestTokenResponse.value))
        && calls[i].verifier == Verifier(w)
    ensures var run := ConnectRun(args, w);
      run.outcome.Authorized? ==> w.accessTokenResponse.Ok? && run.outcome.token == TokenFrom(w.accessTokenResponse.value)
  {
    CallOrder(args, w);
    Reach(args, w);
    Ends(args, w);
  }

  /** The credential cache is written at most once, and only as the last
      call: it is written exactly when `connect` is authorized and
      `--no-cache` is not set, under the located URL, with the consumer
      and the access token. A run that does not end authorized writes
      nothing. */
  lemma SaveDecision(args: Args, w: World)
    ensures var run := ConnectRun(args, w);
      (exists i :: 0 <= i < |run.calls| && run.calls[i].SaveForSite?) <==> run.outcome.Authorized? && !args.noCache
    ensures var run := ConnectRun(args, w);
      forall i :: 0 <= i < |run.calls| && run.calls[i].SaveForSite? ==>
        && i == |run.calls| - 1
        && w.locate.Ok?
        && run.outcome.Authorized?
        && run.calls[i] == SaveForSite(w.locate.value, Saved(args, run.outcome.token))
    ensures var run := ConnectRun(args, w);
      !run.outcome.Authorized? ==> forall c :: c in run.calls ==> !c.SaveForSite?
  {
    RunRanked(args, w);
    Ends(args, w);
    var calls := ConnectRun(args, w).calls;
    SaveIsEighth(calls);
    if |calls| == 8 {
      assert calls[7].SaveForSite?;
    }
  }

  /** `connect` ends in a TypeError exactly when, past the request-token
      exchange, the advertised `authorize` endpoint is an array or an
      object, which `strpos` refuses. */
  lemma FatalOnNonStringEndpoint(args: Args, w: World)
    ensures ConnectRun(args, w).outcome.Fatal? <==>
      && GatePassed(w) && w.requestTokenResponse.Ok?
      && (AuthorizeEndpoint(OAuth1Info(w.index.value)).JArray? || AuthorizeEndpoint(OAuth1Info(w.index.value)).JObject?)
  {
    Ends(args, w);
  }

  /** The URL shown to the user is the authorization URL for the
      advertised endpoint, the `oauth_token` of the request-token response
      and the scopes asked for. */
  lemma ShownUrl(args: Args, w: World)
    ensures var calls := ConnectRun(args, w).calls;
      forall i :: 0 <= i < |calls| && calls[i].ShowAuthorization? ==>
        && Prompted(w)
        && calls[i].url == AuthorizationUrl(
             ToPhpString(AuthorizeEndpoint(OAuth1Info(w.index.value))).value,
             TokenFrom(w.requestTokenResponse.value).key,
             args.scope)
  {
    CallOrder(args, w);
    Reach(args, w);
  }

  /** The token the user is asked to authorize is the one the access
      token is then asked for with: the shown URL starts with the
      advertised endpoint and, read back as a form query after the
      separator, its first parameter is `oauth_token` with the key of the
      request token that the access-token call carries. */
  lemma ShownTokenIsExchanged(args: Args, w: World)
    requires Prompted(w)
    ensures var calls := ConnectRun(args, w).calls;
      var authorize := ToPhpString(AuthorizeEndpoint(OAuth1Info(w.index.value))).value;
      && |calls| >= 7 && calls[4].ShowAuthorization? && calls[6].GetAccessToken? && calls[6].token.Some?
      && |calls[4].url| > |authorize| && calls[4].url[..|authorize|] == authorize
      && var query := ParseQuery(calls[4].url[|authorize| + 1..]);
         |query| >= 1 && query[0] == ("oauth_token", calls[6].token.value.key.GetOr([]))
  {
    Reach(args, w);
    var authorize := ToPhpString(AuthorizeEndpoint(OAuth1Info(w.index.value))).value;
    AuthorizationQueryParameters(authorize, TokenFrom(w.requestTokenResponse.value).key, args.scope);
  }
}
