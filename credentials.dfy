/** The credentials the oauth1 command handles: the client (consumer)
    key and secret given on the command line, the token pairs the
    server hands out, and the pair of both that the credential cache
    keeps per site. */
module Credentials {
  import opened Php

  /** `new OAuthConsumer($key, $secret, NULL)`. */
  datatype Consumer = Consumer(key: Bytes, secret: Bytes)

  /** `new OAuthToken($key, $secret)`: either half is None where the
      response had no such field (PHP's null). */
  datatype Token = Token(key: Option<Bytes>, secret: Option<Bytes>)

  /** What an authenticator carries: the consumer and the token, if any. */
  datatype Credential = Credential(consumer: Consumer, token: Option<Token>)

  /** A token-endpoint response body after `parse_str`: field names to
      values. */
  type Fields = map<Bytes, Bytes>

  /** `$token_args[$name]`: the value, or None (null) when it is missing. */
  function Lookup(fields: Fields, name: Bytes): (r: Option<Bytes>)
    ensures r.Some? <==> name in fields
    ensures r.Some? ==> r.value == fields[name]
  {
    if name in fields then Some(fields[name]) else None
  }

  /** `new OAuthToken($token_args['oauth_token'], $token_args['oauth_token_secret'])`. */
  function TokenFrom(fields: Fields): Token {
    Token(Lookup(fields, "oauth_token"), Lookup(fields, "oauth_token_secret"))
  }

  /** `Requests_Auth_OAuth1`: a consumer fixed at construction and a token
      that `set_token` replaces. */
  class Auth {
    const consumer: Consumer
    var token: Option<Token>

    constructor (consumer: Consumer, token: Option<Token>)
      ensures this.consumer == consumer && this.token == token
    {
      this.consumer := consumer;
      this.token := token;
    }

    /** `$auth->set_token($token)`. */
    method SetToken(t: Token)
      modifies this
      ensures token == Some(t)
    {
      token := Some(t);
    }

    /** What `Authenticator::save_for_site` receives from this object. */
    function Current(): Credential
      reads this
    {
      Credential(consumer, token)
    }
  }
}
