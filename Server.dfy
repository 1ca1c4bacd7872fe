/**
 * The two `context` functions of backend/src/server.ts: the graphql-ws one
 * (lines 48-69), which uses `connectionParams.authToken` as it is, and the
 * Apollo one (lines 77-98), which parses the Authorization header. Both then
 * verify the token, look the user up by the token's id and project the row.
 */
module Server {
  import opened Types
  import opened Js
  import opened Auth
  import opened Db

  /**
   * `verifyToken(token)`, then `userQueries.findById.get(payload.userId)`, then
   * the projection; null when the token does not verify or no row has the id.
   */
  function UserForToken(users: seq<UserRow>, crypto: Crypto, token: string): (r: Option<User>)
    ensures r.Some? <==> crypto.verify(token).Some? && UserFindById(users, crypto.verify(token).value.userId).Some?
    ensures r.Some? ==> r.value.id == crypto.verify(token).value.userId
    ensures r.Some? ==> exists k :: 0 <= k < |users| && r.value == UserOf(users[k])
  {
    match crypto.verify(token)
    case None => None
    case Some(payload) =>
      match UserFindById(users, payload.userId)
      case None => None
      case Some(row) => Some(UserOf(row))
  }

  /** The Apollo context: `extractToken(req.headers.authorization)`, then UserForToken when the token is truthy. */
  function HttpContext(users: seq<UserRow>, crypto: Crypto, authorization: Option<string>): (ctx: Context)
    ensures ExtractToken(authorization).None? ==> ctx.user.None?
    ensures ExtractToken(authorization) == Some("") ==> ctx.user.None?
    ensures ctx.user.Some? ==>
      && ExtractToken(authorization).Some?
      && authorization == Some(BearerScheme + " " + ExtractToken(authorization).value)
      && ctx.user == UserForToken(users, crypto, ExtractToken(authorization).value)
  {
    var token := ExtractToken(authorization);
    if token.Some? && token.value != "" then Context(UserForToken(users, crypto, token.value))
    else Context(None)
  }

  /** A header carrying a token that does not verify yields no user. */
  lemma HttpContextRejectedToken(users: seq<UserRow>, crypto: Crypto, t: string)
    requires crypto.verify(t).None?
    ensures HttpContext(users, crypto, Some(BearerScheme + " " + t)).user.None?
  {
    ExtractTokenAfterScheme(t);
  }

  /** A verified token whose user id has no row yields no user. */
  lemma HttpContextUnknownUser(users: seq<UserRow>, crypto: Crypto, t: string)
    requires crypto.verify(t).Some?
    requires forall k :: 0 <= k < |users| ==> users[k].id != crypto.verify(t).value.userId
    ensures HttpContext(users, crypto, Some(BearerScheme + " " + t)).user.None?
  {
    ExtractTokenAfterScheme(t);
  }

  /**
   * A well-formed header with a verified token whose user exists yields that
   * user's id, name and creation time, and nothing else of the row.
   */
  lemma HttpContextResolves(users: seq<UserRow>, crypto: Crypto, t: string, row: UserRow)
    requires t != "" && ' ' !in t
    requires crypto.verify(t).Some? && UserFindById(users, crypto.verify(t).value.userId) == Some(row)
    ensures HttpContext(users, crypto, Some(BearerScheme + " " + t)).user
         == Some(User(crypto.verify(t).value.userId, row.username, row.created_at))
  {
    ExtractTokenRoundTrip(t);
  }

  const AuthTokenParam: string := "authToken"

  /** `ctx.connectionParams?.authToken`: undefined without params or without the property. */
  function AuthTokenOf(connectionParams: Option<map<string, JsValue>>): JsValue {
    if connectionParams.Some? && AuthTokenParam in connectionParams.value
    then connectionParams.value[AuthTokenParam] else Undefined
  }

  /**
   * The graphql-ws context: a truthy `authToken` goes to UserForToken as it is.
   * A truthy value that is not a string makes `jwt.verify` throw, which
   * `verifyToken` turns into null, so it yields no user.
   */
  function WsContext(users: seq<UserRow>, crypto: Crypto, connectionParams: Option<map<string, JsValue>>): (ctx: Context)
    ensures !Truthy(AuthTokenOf(connectionParams)) ==> ctx.user.None?
    ensures !AuthTokenOf(connectionParams).Str? ==> ctx.user.None?
    ensures Truthy(AuthTokenOf(connectionParams)) && AuthTokenOf(connectionParams).Str?
            ==> ctx.user == UserForToken(users, crypto, AuthTokenOf(connectionParams).s)
  {
    var token := AuthTokenOf(connectionParams);
    if Truthy(token) && token.Str? then Context(UserForToken(users, crypto, token.s))
    else Context(None)
  }

  /**
   * The same token resolves to the same user over both transports: as the
   * WebSocket `authToken` and after "Bearer " in the HTTP header.
   */
  lemma WsMatchesHttp(users: seq<UserRow>, crypto: Crypto, t: string)
    requires ' ' !in t
    ensures WsContext(users, crypto, Some(map[AuthTokenParam := Str(t)]))
         == HttpContext(users, crypto, Some(BearerScheme + " " + t))
  {
    ExtractTokenRoundTrip(t);
  }

  /** The WebSocket context does no Bearer parsing: a "Bearer ..." authToken is verified whole. */
  lemma WsTokenUsedAsIs(users: seq<UserRow>, crypto: Crypto, t: string)
    ensures WsContext(users, crypto, Some(map[AuthTokenParam := Str(BearerScheme + " " + t)])).user
         == UserForToken(users, crypto, BearerScheme + " " + t)
  {
    assert (BearerScheme + " " + t) != "" by {
      assert |BearerScheme + " " + t| > 0;
    }
  }
}
