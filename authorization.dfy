/** The user-authorization URL that `connect` prints: the advertised
    authorize endpoint, a separator, `oauth_token=` with the encoded
    request token and, when scopes were asked for, `&scope=` with the
    encoded comma-joined scopes (lib/commands/oauth1.php:72-84). */
module Authorization {
  import opened Php
  import opened UrlEncoding

  /** The `--scope` option as the command receives it: absent, one string,
      or a list of strings. */
  datatype ScopeArg = NoScope | ScopeString(s: Bytes) | ScopeList(items: seq<Bytes>)

  /** `! empty($assoc_args['scope'])`: an absent option, "", "0" and the
      empty list all count as no scope. */
  predicate ScopeGiven(scope: ScopeArg) {
    match scope
    case NoScope => false
    case ScopeString(s) => s != [] && s != "0"
    case ScopeList(items) => items != []
  }

  /** `(array) $assoc_args['scope']`: a single string becomes a one-element
      list. */
  function ScopeItems(scope: ScopeArg): seq<Bytes> {
    match scope
    case NoScope => []
    case ScopeString(s) => [s]
    case ScopeList(items) => items
  }

  /** The scopes as one string, joined by commas. */
  function ScopeText(scope: ScopeArg): Bytes {
    Implode(",", ScopeItems(scope))
  }

  /** The byte appended to the endpoint: `&` when `strpos` finds a `?` at
      an index PHP treats as true, `?` otherwise (no `?`, or the first `?`
      at index 0, since `strpos` then returns 0). */
  function Separator(authorize: Bytes): Byte {
    match StrPos(authorize, '?')
    case Some(i) => if i != 0 then '&' else '?'
    case None => '?'
  }

  /** `name=` followed by the encoded value. */
  function Parameter(name: Bytes, value: Bytes): Bytes {
    name + "=" + UrlEncode(value)
  }

  /** `'oauth_token=' . urlencode(...)`. `requestToken` is the
      `oauth_token` of the request-token response, None where it is
      missing (PHP's null, which `urlencode` turns into ""). */
  function TokenParameter(requestToken: Option<Bytes>): Bytes {
    Parameter("oauth_token", requestToken.GetOr([]))
  }

  /** `'&scope=' . urlencode(...)` when scopes were given, nothing
      otherwise. */
  function ScopeParameter(scope: ScopeArg): Bytes {
    if ScopeGiven(scope) then ['&'] + Parameter("scope", ScopeText(scope)) else []
  }

  function AuthorizationUrl(authorize: Bytes, requestToken: Option<Bytes>, scope: ScopeArg): Bytes {
    authorize + [Separator(authorize)] + TokenParameter(requestToken) + ScopeParameter(scope)
  }

  /** `$authorization` built by successive appends, as `connect` does it. */
  method BuildAuthorizationUrl(authorize: Bytes, requestToken: Option<Bytes>, scope: ScopeArg)
    returns (authorization: Bytes)
    ensures authorization == AuthorizationUrl(authorize, requestToken, scope)
  {
    authorization := authorize;
    var question := StrPos(authorize, '?');
    if question.Some? && question.value != 0 {
      authorization := authorization + "&";
    } else {
      authorization := authorization + "?";
    }
    ghost var prefix := authorization;
    assert prefix == authorize + [Separator(authorize)];
    var token := EncodeBytes(requestToken.GetOr([]));
    TokenLiteral(token);
    authorization := authorization + ("oauth_token=" + token);
    authorization := AppendScope(authorization, scope);
    Assemble(authorize, requestToken, scope, prefix, "oauth_token=" + token, ScopeParameter(scope));
  }

  /** The `&scope=` step: appends the encoded comma-joined scopes when
      scopes were given, and nothing otherwise. */
  method AppendScope(authorization: Bytes, scope: ScopeArg) returns (r: Bytes)
    ensures r == authorization + ScopeParameter(scope)
  {
    r := authorization;
    if ScopeGiven(scope) {
      var scopes := EncodeBytes(Implode(",", ScopeItems(scope)));
      ScopeLiteral(scopes);
      r := r + ("&scope=" + scopes);
    }
  }

  lemma Assemble(authorize: Bytes, requestToken: Option<Bytes>, scope: ScopeArg, prefix: Bytes, token: Bytes, scopes: Bytes)
    requires prefix == authorize + [Separator(authorize)]
    requires token == TokenParameter(requestToken)
    requires scopes == ScopeParameter(scope)
    ensures prefix + token + scopes == AuthorizationUrl(authorize, requestToken, scope)
  {
  }

  lemma TokenLiteral(value: Bytes)
    ensures "oauth_token=" + value == "oauth_token" + "=" + value
  {
  }

  lemma ScopeLiteral(value: Bytes)
    ensures "&scope=" + value == ['&'] + ("scope" + "=" + value)
  {
  }

  /** The separator is `&` exactly when the endpoint contains a `?` that
      is not its first byte's; `?` is appended otherwise, including for
      an endpoint that starts with `?`. */
  lemma SeparatorChoice(authorize: Bytes)
    ensures Separator(authorize) == '&' <==> '?' in authorize && authorize[0] != '?'
    ensures Separator(authorize) == '?' <==> '?' !in authorize || authorize[0] == '?'
  {
    match StrPos(authorize, '?')
    case None =>
    case Some(i) =>
      if i != 0 {
        assert authorize[..i][0] == authorize[0];
      }
  }

  /** A parameter whose name is plain text reads back as that name and
      value, and holds no `&`. */
  lemma ParameterPiece(name: Bytes, value: Bytes)
    requires IsPlain(name)
    ensures '&' !in Parameter(name, value)
    ensures DecodePairs([Parameter(name, value)]) == [(name, value)]
  {
    UrlEncodeAlphabet(value);
    UrlDecodeEncode(value);
    PlainText(name);
    NameValueAt(name, UrlEncode(value));
  }

  /** The two parameter names are plain text. */
  lemma NamesArePlain()
    ensures IsPlain("oauth_token") && IsPlain("scope")
  {
  }

  /** Two `&`-free pieces joined by `&` read back as the pairs of each. */
  lemma TwoPieces(first: Bytes, second: Bytes)
    requires '&' !in first && '&' !in second
    ensures ParseQuery(first + (['&'] + second)) == DecodePairs([first]) + DecodePairs([second])
  {
    assert first + (['&'] + second) == first + ['&'] + second;
    SplitAt(first, '&', second);
    SplitWithout(second, '&');
    assert [first, second][1..] == [second];
  }

  /** The `oauth_token` parameter holds no `&` and reads back as the
      request token. */
  lemma TokenPiece(requestToken: Option<Bytes>)
    ensures '&' !in TokenParameter(requestToken)
    ensures DecodePairs([TokenParameter(requestToken)]) == [("oauth_token", requestToken.GetOr([]))]
  {
    NamesArePlain();
    ParameterPiece("oauth_token", requestToken.GetOr([]));
  }

  /** The `scope` parameter holds no `&` and reads back as the scopes. */
  lemma ScopePiece(scope: ScopeArg)
    ensures '&' !in Parameter("scope", ScopeText(scope))
    ensures DecodePairs([Parameter("scope", ScopeText(scope))]) == [("scope", ScopeText(scope))]
  {
    NamesArePlain();
    ParameterPiece("scope", ScopeText(scope));
  }

  lemma QueryWithScope(requestToken: Option<Bytes>, scope: ScopeArg)
    requires ScopeGiven(scope)
    ensures ParseQuery(TokenParameter(requestToken) + ScopeParameter(scope))
      == [("oauth_token", requestToken.GetOr([])), ("scope", ScopeText(scope))]
  {
    var first, second := TokenParameter(requestToken), Parameter("scope", ScopeText(scope));
    var a, b := ("oauth_token", requestToken.GetOr([])), ("scope", ScopeText(scope));
    TokenPiece(requestToken);
    ScopePiece(scope);
    TwoPieces(first, second);
    assert ScopeParameter(scope) == ['&'] + second;
    assert [a] + [b] == [a, b];
  }

  lemma QueryWithoutScope(requestToken: Option<Bytes>, scope: ScopeArg)
    requires !ScopeGiven(scope)
    ensures ParseQuery(TokenParameter(requestToken) + ScopeParameter(scope))
      == [("oauth_token", requestToken.GetOr([]))]
  {
    var first := TokenParameter(requestToken);
    TokenPiece(requestToken);
    assert first + ScopeParameter(scope) == first;
    SplitWithout(first, '&');
  }

  /** `a`, a byte `c` and `q` laid end to end: each can be read back. */
  lemma Pieces(a: Bytes, c: Byte, q: Bytes)
    ensures var s := a + [c] + q;
      |s| == |a| + 1 + |q| && s[..|a|] == a && s[|a|] == c && s[|a| + 1..] == q
  {
    var s := a + [c] + q;
    assert s[..|a|] == a;
    assert s[|a| + 1..] == q;
  }

  /** The URL starts with the endpoint verbatim, then the separator; read
      back as a form query, what follows holds `oauth_token` with the
      request token and, only when scopes were given, exactly one more
      parameter, `scope`, with the comma-joined scopes. */
  lemma AuthorizationQueryParameters(authorize: Bytes, requestToken: Option<Bytes>, scope: ScopeArg)
    ensures var url := AuthorizationUrl(authorize, requestToken, scope);
      && |url| > |authorize|
      && url[..|authorize|] == authorize
      && url[|authorize|] == Separator(authorize)
      && ParseQuery(url[|authorize| + 1..])
         == [("oauth_token", requestToken.GetOr([]))]
            + (if ScopeGiven(scope) then [("scope", ScopeText(scope))] else [])
  {
    var q := TokenParameter(requestToken) + ScopeParameter(scope);
    assert AuthorizationUrl(authorize, requestToken, scope) == authorize + [Separator(authorize)] + q;
    Pieces(authorize, Separator(authorize), q);
    assert ParseQuery(q) == [("oauth_token", requestToken.GetOr([]))]
      + (if ScopeGiven(scope) then [("scope", ScopeText(scope))] else []) by {
      if ScopeGiven(scope) {
        QueryWithScope(requestToken, scope);
      } else {
        QueryWithoutScope(requestToken, scope);
      }
    }
  }

  /** On the wire the scope value is the encoded scopes joined by `%2C`:
      the URL ends with `&scope=` and that text. */
  lemma ScopeOnTheWire(authorize: Bytes, requestToken: Option<Bytes>, scope: ScopeArg)
    requires ScopeGiven(scope)
    ensures var url := AuthorizationUrl(authorize, requestToken, scope);
      var tail := "&scope=" + Implode("%2C", EncodeEach(ScopeItems(scope)));
      && |tail| <= |url| && url[|url| - |tail|..] == tail
  {
    var head := authorize + [Separator(authorize)] + TokenParameter(requestToken);
    var tail := "&scope=" + Implode("%2C", EncodeEach(ScopeItems(scope)));
    assert ScopeParameter(scope) == tail by {
      UrlEncodeImplode(ScopeItems(scope));
      ScopeLiteral(Implode("%2C", EncodeEach(ScopeItems(scope))));
    }
    assert (head + tail)[|head + tail| - |tail|..] == tail;
  }

  /** A single scope string is sent exactly as the one-element list
      holding it, whenever it counts as given. */
  lemma ScopeStringIsOneElementList(authorize: Bytes, requestToken: Option<Bytes>, s: Bytes)
    requires ScopeGiven(ScopeString(s))
    ensures AuthorizationUrl(authorize, requestToken, ScopeString(s)) == AuthorizationUrl(authorize, requestToken, ScopeList([s]))
  {
  }

  /** The one place where the two differ: the string "0" is empty to PHP
      and sends no scope at all, while the list holding "0" sends
      `scope=0`. */
  lemma ScopeZeroString(authorize: Bytes, requestToken: Option<Bytes>)
    ensures AuthorizationUrl(authorize, requestToken, ScopeString("0")) == AuthorizationUrl(authorize, requestToken, NoScope)
    ensures AuthorizationUrl(authorize, requestToken, ScopeList(["0"]))
      == AuthorizationUrl(authorize, requestToken, NoScope) + "&scope=0"
  {
    PlainText("0");
    ScopeLiteral("0");
  }
}
