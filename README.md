# OAuth 1.0a connect, status and disconnect for the WP-API command line

This project models the `oauth1` command of the WordPress REST API
command-line client (lib/commands/oauth1.php) and proves properties of
the model. The command has three subcommands:

- `connect` finds the site's API and reads its index document. It checks
  that the index advertises OAuth 1.0a. It then asks for a request token,
  prints the user-authorization URL and reads the verification code. It
  trades the request token for an access token and saves the consumer
  and access token for the site unless `$assoc_args['no-cache']` is
  non-empty (the model's `noCache`).
- `status` prints the stored consumer key and secret and the stored token
  key and secret for a site.
- `disconnect` deletes what is stored for a site.

The model is in six modules:

- `Php` (php.dfy): the PHP behaviour the command relies on. PHP strings
  are byte strings (`Bytes`). It covers `empty`, property access on
  decoded JSON, string coercion of a value passed to `strpos` (PHP 8
  rules, with a TypeError for arrays and objects), `strpos` for one byte,
  `trim` and `implode`.
- `UrlEncoding` (urlencoding.dfy): PHP's `urlencode` as a pure function
  `UrlEncode`, and `EncodeBytes`, a loop proved equal to it. Also
  `urldecode` and a form-query reader (`ParseQuery`) used to read a built
  URL back.
- `Authorization` (authorization.dfy): the authorization URL as a
  function, `AuthorizationUrl`, and as the method `BuildAuthorizationUrl`,
  which appends piece by piece as `connect` does.
- `Credentials` (credentials.dfy): consumer, token and stored credential.
  It also has the authenticator object as a class `Auth`, whose token
  `SetToken` replaces.
- `Connect` (connect.dfy): the `connect` flow.
  - `ConnectRun` is the specification function, built stage by stage.
  - `Connect` and `Authorize` are methods that thread the authenticator
    object and the call log and are proved equal to it.
  - A run is the outcome plus the log of outside calls made, each with
    the arguments and the token in force at that point.
- `Commands` (commands.dfy): `status` and `disconnect` over what the
  locator and the credential cache return. The cache is a map from site
  URL to credentials. The module ends with lemmas that chain `connect`,
  `status` and `disconnect`.

The outside collaborators are inputs, bundled in `Connect.World`:

- the locator's result;
- the decoded index document;
- the two token responses, already parsed into field maps;
- the line read from standard input.

The locator's result, the index document and the two token responses
may each be an exception (`Thrown`). The line may be absent, where
`fgets` returns false; it never throws. An exception caught at line 106
ends the run as `Failed` with its message. A TypeError from `strpos`
(an `authorize` endpoint that is an array or an object) is not an
`Exception`, so it is not caught there, and the run ends `Fatal`.

Where PHP and the documented intent differ, the model follows the code.

- `strpos` returns 0 when `?` is the first byte of the endpoint. PHP
  reads 0 as false, so `?` is appended in that case too.
- `empty` counts the scope string `"0"` as no scope. A list holding
  `"0"` is not empty, so it sends `scope=0` (`Authorization.ScopeZeroString`).

## Model

| member | source | states |
|---|---|---|
| UrlEncoding.EncodeBytes | lib/commands/oauth1.php:80 | the byte-by-byte loop computes exactly `UrlEncode` of its input |
| UrlEncoding.UrlEncodeAlphabet | lib/commands/oauth1.php:80 | `urlencode` output holds only letters, digits, `-`, `_`, `.`, `+` and `%`, so never `&`, `=`, `,` or `?` |
| UrlEncoding.UrlEncodeIsFormEncoded | lib/commands/oauth1.php:80 | `urlencode` output is unreserved bytes, `+`, and `%` with two upper-case hex digits |
| UrlEncoding.UrlDecodeEncode | lib/commands/oauth1.php:80 | decoding the output of `urlencode` returns its input |
| UrlEncoding.UrlEncodeInjective | lib/commands/oauth1.php:80 | distinct inputs have distinct encodings |
| UrlEncoding.UrlEncodeAppend | lib/commands/oauth1.php:80 | encoding distributes over concatenation |
| UrlEncoding.UrlEncodeImplode | lib/commands/oauth1.php:83 | encoding a comma-joined list gives the encoded items joined by `%2C` |
| UrlEncoding.PlainText | lib/commands/oauth1.php:80 | text of unreserved bytes is its own encoding and decoding and holds no `&` or `=` |
| UrlEncoding.Split | lib/commands/oauth1.php:80 | splitting yields at least one part, and the first part holds no delimiter |
| UrlEncoding.SplitAt | lib/commands/oauth1.php:80 | a delimiter-free head followed by the delimiter splits off as the first part |
| UrlEncoding.NameValueAt | lib/commands/oauth1.php:80 | `name=value` with an `=`-free name splits back into name and value |
| Php.StrPos | lib/commands/oauth1.php:74 | None exactly when the byte is absent; otherwise the index of the first occurrence |
| Php.ToPhpString | lib/commands/oauth1.php:73-74 | only arrays and objects are refused; a string passes unchanged and null becomes "" |
| Php.TrimStartDrops | lib/commands/oauth1.php:89 | `ltrim` drops a prefix made only of trimmable bytes and stops at a byte that is not trimmable |
| Php.TrimEndDrops | lib/commands/oauth1.php:89 | `rtrim` drops a suffix made only of trimmable bytes and stops at a byte that is not trimmable |
| Php.TrimShape | lib/commands/oauth1.php:89 | the trimmed verifier is a slice of the line with only trimmable bytes around it, and it neither starts nor ends with one |
| Authorization.BuildAuthorizationUrl | lib/commands/oauth1.php:72-84 | the successive appends build exactly `AuthorizationUrl` of the endpoint, request token and scope |
| Authorization.AppendScope | lib/commands/oauth1.php:82-84 | the scope step appends `&scope=` and the encoded scopes when scopes were given, and nothing otherwise |
| Authorization.SeparatorChoice | lib/commands/oauth1.php:74-79 | `&` is appended exactly when `?` occurs and the endpoint does not start with `?`; otherwise `?` is appended |
| Authorization.ParameterPiece | lib/commands/oauth1.php:80 | a parameter with a plain name holds no `&` and reads back as its name and value |
| Authorization.TwoPieces | lib/commands/oauth1.php:83 | two `&`-free pieces joined by `&` read back as their two pairs |
| Authorization.TokenPiece | lib/commands/oauth1.php:80 | the `oauth_token` parameter holds no `&` and reads back as the request token |
| Authorization.ScopePiece | lib/commands/oauth1.php:83 | the `scope` parameter holds no `&` and reads back as the comma-joined scopes |
| Authorization.QueryWithScope | lib/commands/oauth1.php:80-84 | with scopes given, the query reads back as `oauth_token` and then `scope` |
| Authorization.QueryWithoutScope | lib/commands/oauth1.php:80-82 | with no scope, the query reads back as `oauth_token` alone |
| Authorization.AuthorizationQueryParameters | lib/commands/oauth1.php:73-84 | the URL starts with the endpoint verbatim and then the separator; the rest reads back as `oauth_token` with the request token, plus exactly one `scope` parameter if and only if scopes were given |
| Authorization.ScopeOnTheWire | lib/commands/oauth1.php:82-83 | with scopes given, the URL ends with `&scope=` and the encoded scopes joined by `%2C` |
| Authorization.ScopeStringIsOneElementList | lib/commands/oauth1.php:83 | a scope string that counts as given is sent exactly as the one-element list holding it |
| Authorization.ScopeZeroString | lib/commands/oauth1.php:82-83 | the string "0" sends no scope, while the list holding "0" adds `&scope=0` |
| Credentials.Lookup | lib/commands/oauth1.php:69 | a field is Some exactly when the response has it, with its value |
| Credentials.Auth.constructor | lib/commands/oauth1.php:39-46 | the authenticator starts with the given consumer and no token |
| Credentials.Auth.SetToken | lib/commands/oauth1.php:70 | the token held afterwards is the one set |
| Connect.Connect | lib/commands/oauth1.php:38-109 | the step-by-step flow, with the authenticator object updated in place, produces exactly `ConnectRun` |
| Connect.Authorize | lib/commands/oauth1.php:72-100 | from the authorization URL on, the flow produces exactly the specified rest of the run, starting from the request token the authenticator holds; afterwards the authenticator holds the access-token pair when the run is authorized and its token is unchanged otherwise |
| Connect.RankedAppend | lib/commands/oauth1.php:38-109 | appending the next steps in order keeps each call at the position of its step |
| Connect.SaveShape | lib/commands/oauth1.php:98-100 | the save step appends at most the save call, and keeps the order of the steps |
| Connect.AccessShape | lib/commands/oauth1.php:92-100 | the access step appends the access-token call with the request token, then at most the save |
| Connect.PromptShape | lib/commands/oauth1.php:87-100 | the prompt step appends the shown URL and the verifier read, then the later steps |
| Connect.AuthorizeShape | lib/commands/oauth1.php:72-100 | past the request token, the run is Fatal exactly when the `authorize` endpoint is not a string to `strpos`, and then makes no further call; otherwise its next call shows the authorization URL for that endpoint, the request token and the scopes; the calls so far are kept and stay in step order |
| Connect.RequestShape | lib/commands/oauth1.php:63-100 | the request step attaches the authenticator, then asks for the request token with no token held |
| Connect.IndexShape | lib/commands/oauth1.php:55-100 | the index step fetches the index from the located URL with a trailing `/` |
| Connect.RunRanked | lib/commands/oauth1.php:38-109 | a run makes one to eight calls, and each call is at the position of its step |
| Connect.CallOrder | lib/commands/oauth1.php:38-109 | a run makes one to eight calls, each step at most once and in the order of the code |
| Connect.SaveIsEighth | lib/commands/oauth1.php:98-100 | among calls in step order, a save can only be the eighth and last call |
| Connect.GatedPath | lib/commands/oauth1.php:58-66 | past a passed capability check, the calls so far are the locate, the index fetch, the attach and the request-token call |
| Connect.PromptedPath | lib/commands/oauth1.php:72-92 | once the prompt is shown, the calls so far also include the shown URL and the verifier read |
| Connect.Reach | lib/commands/oauth1.php:48-107 | which calls each path makes: the exact calls of a failed locate or index fetch, and the positions of the request, prompt and access calls |
| Connect.Ends | lib/commands/oauth1.php:73-107 | Fatal exactly on a non-string endpoint after a request token; Authorized exactly when the access token was received, with its pair; eight calls exactly when the run is authorized and cached |
| Connect.CapabilityGate | lib/commands/oauth1.php:58-60 | anything past the index fetch happens exactly when the index advertises OAuth 1.0a; otherwise the run fails with the capability message after only the locate and the index fetch |
| Connect.TokenProgression | lib/commands/oauth1.php:40-96 | the request-token call carries no token; the access-token call carries the request-token pair and the trimmed verifier; an authorized run ends with the access-token pair |
| Connect.SaveDecision | lib/commands/oauth1.php:98-100 | the cache is written exactly when the run is authorized and `noCache` is false, at most once and as the last call, under the located URL with the consumer and the access token |
| Connect.FatalOnNonStringEndpoint | lib/commands/oauth1.php:73-74 | the run ends in an uncaught TypeError exactly when the advertised `authorize` endpoint is an array or an object |
| Connect.ShownUrl | lib/commands/oauth1.php:72-87 | the shown URL is the authorization URL for the advertised endpoint, the request token and the scopes |
| Connect.ShownTokenIsExchanged | lib/commands/oauth1.php:80-92 | the `oauth_token` the user is sent to authorize is the key of the request token the access-token call carries |
| Commands.Status | lib/commands/oauth1.php:119-138 | an error exactly when the locator throws or nothing is stored, with the exception's message or the not-found message; otherwise four lines |
| Commands.StatusShowsStored | lib/commands/oauth1.php:128-133 | the four lines, each read after its label, carry the stored consumer key, consumer secret, token key and token secret |
| Commands.Disconnect | lib/commands/oauth1.php:148-163 | success exactly when the site was located and the delete removed something, with the site in the message; failure otherwise |
| Commands.NoSaveKeepsStore | lib/commands/oauth1.php:98-100 | calls with no save leave the cache unchanged |
| Commands.ConnectStore | lib/commands/oauth1.php:98-100 | an authorized, cached run sets exactly the located URL's entry to the consumer and access token; any other run leaves the cache unchanged |
| Commands.ConnectThenStatus | lib/commands/oauth1.php:95-133 | after an authorized, cached `connect`, `status` shows the consumer given and the access-token pair |
| Commands.DisconnectThenStatus | lib/commands/oauth1.php:123-157 | `disconnect` succeeds exactly when something was stored; afterwards `status` finds nothing for the site, and other sites are untouched |
| Commands.ConnectDisconnectStatus | lib/commands/oauth1.php:98-157 | after an authorized, cached `connect`, `disconnect` succeeds and `status` then finds nothing |
| Commands.ExampleVerifier | lib/commands/oauth1.php:89 | a typed code followed by a newline is read as the code alone |
| Commands.ExampleSession | lib/commands/oauth1.php:38-109 | a concrete session is authorized with the access token, trades the request token with the trimmed code, and stores the consumer and access token for the site |

## Left out

- Signing: HMAC-SHA1 signatures, the signature base string, nonces and
  timestamps. These happen inside the OAuth library. The model records
  only that the request was made with a given token. Attaching the
  authenticator to the session (line 63) is the call `AttachAuth`.
- HTTP, site discovery and `json_decode`. The locator's result, the
  index document and the token responses are inputs. Each is either a
  value or an exception message. JSON floats are not modelled, and
  neither is `json_decode` turning an integer beyond PHP's 64-bit range
  into a float: `JInt` is unbounded.
- `parse_str`. The token responses are given as maps from field name to
  a string value. Array-valued fields (`a[]=...`) are not modelled. A
  missing field gives a null token half, as in the code, with no protocol
  error.
- The credential cache (`save_for_site`, `get_for_site`,
  `delete_for_site`). It is an abstract map from site URL to credentials.
  Its file format, normalisation and atomicity are not modelled. An
  exception thrown by `save_for_site`, `get_for_site` or
  `delete_for_site` is not modelled: `Commands.Status` takes what
  `get_for_site` returned as an `Option`, and `Commands.Disconnect`
  takes what `delete_for_site` returned as a `bool`, so the catches at
  lines 135 and 160 are reached only by a locator exception.
- `Args.noCache` stands for `$assoc_args['no-cache']` being non-empty
  (line 98). How WP-CLI's argument parser fills that entry from the
  command line is outside this model.
- Console output and the read from standard input (lines 87-88 and
  102-104). The verifier line is an input, and only its `trim` is
  modelled. A failed read (`fgets` returns false) is the absent line,
  which trims to "".
- `--scope` given without a value, which WP-CLI passes as `true`. The
  model takes the option as absent, one string, or a list of strings.
- `WP_CLI::error` is taken to end the command. So `status` with nothing
  stored reports only the not-found error.
- Commands.Status: `status` calls the locator once, and its result is
  the single `located` input. Across the end-to-end lemmas, the locator
  is taken to return the same URL each time it is asked about a site.
- Authorization.AuthorizationQueryParameters: the URL's query is
  described by reading it back with `ParseQuery`. No concrete URL is
  worked out byte by byte.
