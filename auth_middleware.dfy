/** `protectRoute` (backend/src/middleware/auth.middleware.js): the gate in
    front of every authenticated REST route. */
module AuthMiddleware {
  import opened Common
  import opened Models
  import opened Store
  import opened Http
  import SocketAuth

  const NoTokenMessage: string := "Unauthorized - No token provided"
  const InvalidTokenMessage: string := "Unauthorized - Invalid token"
  const UserNotFoundMessage: string := "User not found"

  /** Exactly one of the two things a middleware can do: send a response, or
      call `next()` with `req.user` set. */
  datatype Outcome = Respond(response: HttpResponse) | Next(user: PublicUser)

  /** The decision of `protectRoute` given `req.cookies.jwt` and the
      `jwt.verify` and `User.findById` oracles. */
  function Protect(jwtCookie: Option<string>,
                   verify: string -> Verdict<Option<SocketAuth.Claims>>,
                   findById: UserId -> Verdict<Option<User>>): (o: Outcome)
    ensures !Truthy(jwtCookie) ==> o == Respond(Reply(401, MessageBody(NoTokenMessage)))
    ensures Truthy(jwtCookie) && verify(jwtCookie.value) == Returned(None) ==>
              o == Respond(Reply(401, MessageBody(InvalidTokenMessage)))
    ensures Truthy(jwtCookie) && verify(jwtCookie.value) == Threw ==>
              o == Respond(Reply(500, MessageBody(ServerErrorMessage)))
    ensures o.Next? <==>
      && Truthy(jwtCookie)
      && verify(jwtCookie.value).Returned? && verify(jwtCookie.value).value.Some?
      && findById(verify(jwtCookie.value).value.value.userId).Returned?
      && findById(verify(jwtCookie.value).value.value.userId).value.Some?
    ensures Truthy(jwtCookie) && verify(jwtCookie.value).Returned? && verify(jwtCookie.value).value.Some? ==>
      var found := findById(verify(jwtCookie.value).value.value.userId);
      && (found == Threw ==> o == Respond(Reply(500, MessageBody(ServerErrorMessage))))
      && (found == Returned(None) ==> o == Respond(Reply(404, MessageBody(UserNotFoundMessage))))
    ensures o.Next? ==> o.user == WithoutPassword(findById(verify(jwtCookie.value).value.value.userId).value.value)
    ensures o.Next? && FindsById(findById) ==> o.user.id == verify(jwtCookie.value).value.value.userId
    ensures o.Respond? ==> o.response.status in {401, 404, 500} && o.response.cookies == []
  {
    if !Truthy(jwtCookie) then Respond(Reply(401, MessageBody(NoTokenMessage)))
    else
      match verify(jwtCookie.value)
      case Threw => Respond(Reply(500, MessageBody(ServerErrorMessage)))
      case Returned(None) => Respond(Reply(401, MessageBody(InvalidTokenMessage)))
      case Returned(Some(claims)) =>
        match findById(claims.userId)
        case Threw => Respond(Reply(500, MessageBody(ServerErrorMessage)))
        case Returned(None) => Respond(Reply(404, MessageBody(UserNotFoundMessage)))
        case Returned(Some(u)) => Next(WithoutPassword(u))
  }

  /** Against the users collection itself, `protectRoute` passes exactly when
      the verified token names a stored user, and attaches that user. */
  lemma ProtectAgainstCollection(jwtCookie: Option<string>,
                                 verify: string -> Verdict<Option<SocketAuth.Claims>>,
                                 users: seq<User>)
    requires Truthy(jwtCookie) && verify(jwtCookie.value).Returned? && verify(jwtCookie.value).value.Some?
    ensures var id := verify(jwtCookie.value).value.value.userId;
            var o := Protect(jwtCookie, verify, id => Returned(FindById(users, id)));
      && (o.Next? <==> UserExists(users, id))
      && (o.Next? ==> o.user.id == id && o.user == WithoutPassword(FindById(users, id).value))
      && (o.Respond? ==> o.response == Reply(404, MessageBody(UserNotFoundMessage)))
  {
    CollectionFindsById(users);
  }

  /** One authentication semantics for both transports: when the REST cookie
      and the socket handshake carry the same token, `protectRoute` calls
      `next()` exactly when the socket gate admits, and both attach the same user. */
  lemma SameDecisionAsSocketGate(cookieHeader: Option<string>,
                                 verify: string -> Verdict<Option<SocketAuth.Claims>>,
                                 findById: UserId -> Verdict<Option<User>>)
    ensures var o := Protect(SocketAuth.ExtractToken(cookieHeader), verify, findById);
            var d := SocketAuth.Gate(cookieHeader, verify, findById);
      && (o.Next? <==> d.Admit?)
      && (o.Next? ==> o.user == d.user)
  {
  }

  /** The request as the middleware sees it: the parsed `jwt` cookie, and the
      `user` field it attaches. */
  class Request {
    const jwtCookie: Option<string>
    var user: Option<PublicUser>

    constructor (jwtCookie: Option<string>)
      ensures this.jwtCookie == jwtCookie && user == None
    {
      this.jwtCookie := jwtCookie;
      user := None;
    }
  }

  /** `protectRoute(req, res, next)`: `req.user` is written only on the path
      that calls `next()`. */
  method ProtectRoute(req: Request,
                      verify: string -> Verdict<Option<SocketAuth.Claims>>,
                      findById: UserId -> Verdict<Option<User>>) returns (o: Outcome)
    modifies req
    ensures o == Protect(req.jwtCookie, verify, findById)
    ensures o.Next? ==> req.user == Some(o.user)
    ensures o.Respond? ==> req.user == old(req.user)
    ensures o.Next? && FindsById(findById) ==> req.user.value.id == verify(req.jwtCookie.value).value.value.userId
  {
    var token := req.jwtCookie;
    if !Truthy(token) {
      return Respond(Reply(401, MessageBody(NoTokenMessage)));
    }
    var decoded := verify(token.value);
    if decoded.Threw? {
      return Respond(Reply(500, MessageBody(ServerErrorMessage)));
    }
    if decoded.value.None? {
      return Respond(Reply(401, MessageBody(InvalidTokenMessage)));
    }
    var found := findById(decoded.value.value.userId);
    if found.Threw? {
      return Respond(Reply(500, MessageBody(ServerErrorMessage)));
    }
    if found.value.None? {
      return Respond(Reply(404, MessageBody(UserNotFoundMessage)));
    }
    var user := WithoutPassword(found.value.value);
    req.user := Some(user);
    o := Next(user);
  }
}
