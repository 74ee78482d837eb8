/**
 * The outbound stage of the request mediator: with a user logged in, the
 * request is forwarded with a bearer token and a JSON content type; without
 * one it is forwarded as it came. The result is the list of requests handed
 * to `next`, so that "exactly once" can be stated.
 */
module AuthInterceptor {
  import opened Wrappers
  import opened Text
  import opened AuthService

  /** An outgoing request (`verb` is the HTTP method); the body is carried as opaque text. */
  datatype Request = Request(url: string, verb: string, body: string, headers: map<string, string>)

  const AuthorizationHeader := "Authorization"
  const ContentTypeHeader := "Content-Type"
  const JsonContentType := "application/json"
  const TokenPrefix := "Bearer fake-jwt-token-"

  /** The Authorization value for a user id. */
  function BearerToken(id: int): (r: string)
    ensures StartsWith(r, TokenPrefix)
    ensures r[|TokenPrefix|..] == IntToDecimal(id)
  {
    TokenPrefix + IntToDecimal(id)
  }

  /** The requests `authInterceptor` passes to `next` for `req` while `user` is logged in (or nobody is). */
  function Intercept(req: Request, user: Option<AuthUser>): (calls: seq<Request>)
    ensures |calls| == 1
    ensures user.None? ==> calls[0] == req
    ensures user.Some? ==>
      && calls[0].url == req.url && calls[0].verb == req.verb && calls[0].body == req.body
      && calls[0].headers.Keys == req.headers.Keys + {AuthorizationHeader, ContentTypeHeader}
      && calls[0].headers[AuthorizationHeader] == BearerToken(user.value.id)
      && calls[0].headers[ContentTypeHeader] == JsonContentType
      && forall k :: k in req.headers && k != AuthorizationHeader && k != ContentTypeHeader ==>
           calls[0].headers[k] == req.headers[k]
  {
    match user
    case None => [req]
    case Some(u) =>
      var headers := req.headers[AuthorizationHeader := BearerToken(u.id)][ContentTypeHeader := JsonContentType];
      [req.(headers := headers)]
  }

  /** The token names its user: different ids never share a token. */
  lemma BearerTokenDeterminesId(a: int, b: int)
    requires BearerToken(a) == BearerToken(b)
    ensures a == b
  {
    assert BearerToken(a)[|TokenPrefix|..] == BearerToken(b)[|TokenPrefix|..];
    IntToDecimalInjective(a, b);
  }

  /** The forwarded request depends on the user only through the user's id. */
  lemma HeadersDependOnIdOnly(req: Request, u1: AuthUser, u2: AuthUser)
    ensures Intercept(req, Some(u1)) == Intercept(req, Some(u2)) <==> u1.id == u2.id
  {
    if Intercept(req, Some(u1)) == Intercept(req, Some(u2)) {
      BearerTokenDeterminesId(u1.id, u2.id);
    }
  }
}
