/** `OAuth1::status` and `OAuth1::disconnect` (lib/commands/oauth1.php:119-163),
    and how they read the credential cache that `connect` writes. The
    cache is taken to be a map from site URL to the stored credentials. */
module Commands {
  import opened Php
  import opened Credentials
  import opened UrlEncoding
  import opened Authorization
  import opened Connect

  /** What a command reports before it ends: an error (`WP_CLI::error`,
      which ends the command), plain lines, or a success message. */
  datatype Report = Error(message: Bytes) | Lines(lines: seq<Bytes>) | Success(message: Bytes)

  /** The credential cache: site URL to the credentials saved for it. */
  type Store = map<Bytes, Credential>

  /** `Authenticator::get_for_site($url)`: None when nothing is stored. */
  function GetForSite(store: Store, url: Bytes): Option<Credential> {
    if url in store then Some(store[url]) else None
  }

  /** `Authenticator::delete_for_site($url)`: whether something was
      removed, and the cache without `url`. */
  function DeleteForSite(store: Store, url: Bytes): (bool, Store) {
    (url in store, store - {url})
  }

  /** The cache after the calls of a `connect` run: each save stores the
      credentials under its URL. */
  function StoreAfter(store: Store, calls: seq<Call>): Store
    decreases |calls|
  {
    if calls == [] then store
    else
      var before := StoreAfter(store, calls[..|calls| - 1]);
      match calls[|calls| - 1]
      case SaveForSite(url, credential) => before[url := credential]
      case _ => before
  }

  const NotFoundPrefix: Bytes := "No authentication found for "
  const DisconnectFailed: Bytes := "Could not disconnect client"
  const DisconnectedPrefix: Bytes := "Disconnected from "

  /** The four labels `status` prints, in order. */
  const StatusLabels: seq<Bytes> := ["Consumer key: ", "Consumer secret: ", "Token key: ", "Token secret: "]

  /** The four stored values `status` prints, in order; a missing token
      or token field prints as the empty string. */
  function StoredValues(c: Credential): seq<Bytes> {
    var token := c.token.GetOr(Token(None, None));
    [c.consumer.key, c.consumer.secret, token.key.GetOr([]), token.secret.GetOr([])]
  }

  /** `status`, given what the locator and `get_for_site` returned. */
  function Status(located: Result<Bytes>, stored: Option<Credential>): (r: Report)
    ensures r.Error? <==> located.Thrown? || stored.None?
    ensures located.Thrown? ==> r == Error(located.message)
    ensures located.Ok? && stored.None? ==> r == Error(NotFoundPrefix + located.value)
    ensures r.Lines? ==> |r.lines| == 4
  {
    match located
    case Thrown(m) => Error(m)
    case Ok(url) =>
      match stored
      case None => Error(NotFoundPrefix + url)
      case Some(c) =>
        var values := StoredValues(c);
        Lines([StatusLabels[0] + values[0], StatusLabels[1] + values[1], StatusLabels[2] + values[2], StatusLabels[3] + values[3]])
  }

  /** The value on a `status` line after its label, or None when the line
      does not start with that label. */
  function AfterLabel(line: Bytes, caption: Bytes): Option<Bytes> {
    if |caption| <= |line| && line[..|caption|] == caption then Some(line[|caption|..]) else None
  }

  /** The four lines of `status` carry exactly the stored consumer key,
      consumer secret, token key and token secret, each after its label. */
  lemma StatusShowsStored(url: Bytes, c: Credential)
    ensures var r := Status(Ok(url), Some(c));
      && r.Lines?
      && forall k :: 0 <= k < 4 ==> AfterLabel(r.lines[k], StatusLabels[k]) == Some(StoredValues(c)[k])
  {
    var r := Status(Ok(url), Some(c));
    forall k | 0 <= k < 4
      ensures AfterLabel(r.lines[k], StatusLabels[k]) == Some(StoredValues(c)[k])
    {
      var line := StatusLabels[k] + StoredValues(c)[k];
      assert r.lines[k] == line;
      assert line[..|StatusLabels[k]|] == StatusLabels[k];
      assert line[|StatusLabels[k]|..] == StoredValues(c)[k];
    }
  }

  /** `disconnect`, given what the locator and `delete_for_site`
      returned: success exactly when the site was located and the delete
      reported a removal. */
  function Disconnect(located: Result<Bytes>, deleted: bool): (r: Report)
    ensures r.Success? <==> located.Ok? && deleted
    ensures r.Success? ==> r.message == DisconnectedPrefix + located.value
    ensures located.Ok? && !deleted ==> r == Error(DisconnectFailed)
    ensures located.Thrown? ==> r == Error(located.message)
  {
    match located
    case Thrown(m) => Error(m)
    case Ok(url) => if deleted then Success(DisconnectedPrefix + url) else Error(DisconnectFailed)
  }

  /** Calls without a save leave the cache as it was. */
  lemma {:induction false} NoSaveKeepsStore(store: Store, calls: seq<Call>)
    requires forall c :: c in calls ==> !c.SaveForSite?
    ensures StoreAfter(store, calls) == store
    decreases |calls|
  {
    if calls != [] {
      var init := calls[..|calls| - 1];
      assert calls[|calls| - 1] in calls;
      forall c | c in init
        ensures !c.SaveForSite?
      {
        var k :| 0 <= k < |init| && init[k] == c;
        assert calls[k] == c;
      }
      NoSaveKeepsStore(store, init);
    }
  }

  /** A run that is authorized without `--no-cache` stores the consumer
      and the access token under the located URL and changes nothing
      else; any other run leaves the cache as it was. */
  lemma ConnectStore(args: Args, w: World, store: Store)
    ensures var run := ConnectRun(args, w);
      run.outcome.Authorized? && !args.noCache ==>
        w.locate.Ok? && StoreAfter(store, run.calls) == store[w.locate.value := Saved(args, run.outcome.token)]
    ensures var run := ConnectRun(args, w);
      !(run.outcome.Authorized? && !args.noCache) ==> StoreAfter(store, run.calls) == store
  {
    var run := ConnectRun(args, w);
    CallOrder(args, w);
    Ends(args, w);
    SaveDecision(args, w);
    if run.outcome.Authorized? && !args.noCache {
      var init := run.calls[..7];
      forall c | c in init
        ensures !c.SaveForSite?
      {
        var k :| 0 <= k < |init| && init[k] == c;
        assert Rank(run.calls[k]) == k;
      }
      NoSaveKeepsStore(store, init);
    } else {
      NoSaveKeepsStore(store, run.calls);
    }
  }

  /** After an authorized `connect` without `--no-cache`, `status` for the
      same site reports the consumer key and secret given to `connect`
      and the access token's key and secret. */
  lemma ConnectThenStatus(args: Args, w: World, store: Store)
    requires ConnectRun(args, w).outcome.Authorized? && !args.noCache
    ensures var after := StoreAfter(store, ConnectRun(args, w).calls);
      && w.locate.Ok? && w.accessTokenResponse.Ok?
      && var access := TokenFrom(w.accessTokenResponse.value);
         var r := Status(w.locate, GetForSite(after, w.locate.value));
         && r.Lines?
         && forall k :: 0 <= k < 4 ==> AfterLabel(r.lines[k], StatusLabels[k]) == Some(
              [args.key, args.secret, access.key.GetOr([]), access.secret.GetOr([])][k])
  {
    ConnectStore(args, w, store);
    Ends(args, w);
    var access := TokenFrom(w.accessTokenResponse.value);
    StatusShowsStored(w.locate.value, Saved(args, access));
  }

  /** `disconnect` succeeds exactly when something was stored for the
      site; afterwards `status` finds nothing for it, and every other
      site's credentials are untouched. */
  lemma DisconnectThenStatus(store: Store, url: Bytes)
    ensures var (deleted, after) := DeleteForSite(store, url);
      && (Disconnect(Ok(url), deleted).Success? <==> url in store)
      && Status(Ok(url), GetForSite(after, url)) == Error(NotFoundPrefix + url)
      && forall other :: other != url ==> GetForSite(after, other) == GetForSite(store, other)
  {
  }

  /** After an authorized, cached `connect`, `disconnect` for the same
      site succeeds and `status` then finds nothing. */
  lemma ConnectDisconnectStatus(args: Args, w: World, store: Store)
    requires ConnectRun(args, w).outcome.Authorized? && !args.noCache
    ensures var (deleted, after) := DeleteForSite(StoreAfter(store, ConnectRun(args, w).calls), w.locate.value);
      && Disconnect(w.locate, deleted) == Success(DisconnectedPrefix + w.locate.value)
      && Status(w.locate, GetForSite(after, w.locate.value)) == Error(NotFoundPrefix + w.locate.value)
  {
    ConnectStore(args, w, store);
  }

  /** A session against a site that advertises the three OAuth 1.0a
      endpoints, with the request token `rtok`/`rsec`, the verifier
      `123456` typed with its newline, and the access token `atok`/`asec`. */
  const ExampleSite: Bytes := "https://example.test"
  const ExampleAuthorize: Bytes := "/oauth1/authorize"
  const ExampleAccess: Json := JString("/oauth1/access")
  const ExampleRequest: Token := Token(Some("rtok"), Some("rsec"))
  const ExampleAccessToken: Token := Token(Some("atok"), Some("asec"))
  const ExampleCode: Bytes := "123456"
  const ExampleArgs: Args := Args("example.test", "ck", "cs", NoScope, false)

  function ExampleEndpoints(): Json {
    JObject(map["request" := JString("/oauth1/request"), "authorize" := JString(ExampleAuthorize), "access" := ExampleAccess])
  }

  function ExampleWorld(): World {
    World(
      Ok(ExampleSite),
      Ok(JObject(map["authentication" := JObject(map["oauth1" := ExampleEndpoints()])])),
      Ok(map["oauth_token" := "rtok", "oauth_token_secret" := "rsec"]),
      Some(ExampleCode + "\n"),
      Ok(map["oauth_token" := "atok", "oauth_token_secret" := "asec"]))
  }

  /** The typed newline is trimmed off the verifier. */
  lemma ExampleVerifier()
    ensures Verifier(ExampleWorld()) == ExampleCode
  {
    var line := ExampleCode + "\n";
    assert TrimStart(line) == line;
    assert line[..|line| - 1] == ExampleCode;
  }

  /** In that session `connect` is authorized with `atok`/`asec`, asks
      for the access token with `rtok`/`rsec` and the verifier `123456`,
      and stores the consumer and the access token for the site. */
  lemma ExampleSession(store: Store)
    ensures var run := ConnectRun(ExampleArgs, ExampleWorld());
      && run.outcome == Authorized(ExampleAccessToken)
      && |run.calls| == 8
      && run.calls[6] == GetAccessToken(ExampleAccess, Some(ExampleRequest), ExampleCode)
      && StoreAfter(store, run.calls)[ExampleSite] == Credential(Consumer("ck", "cs"), Some(ExampleAccessToken))
  {
    var w := ExampleWorld();
    assert OAuth1Info(w.index.value) == ExampleEndpoints();
    assert GatePassed(w);
    assert TokenFrom(w.requestTokenResponse.value) == ExampleRequest;
    assert TokenFrom(w.accessTokenResponse.value) == ExampleAccessToken;
    assert Prompted(w);
    ExampleVerifier();
    Reach(ExampleArgs, w);
    Ends(ExampleArgs, w);
    ConnectStore(ExampleArgs, w, store);
  }
}
