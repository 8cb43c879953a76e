/** The parts of an Express response the handlers produce: a status code, a
    JSON body and the cookies set with `res.cookie`. */
module Http {
  import opened Common
  import opened Models

  /** The message every handler's `catch` block answers with. */
  const ServerErrorMessage: string := "Internal server error"

  /** The options passed to `res.cookie`; an option the call leaves out has
      Express's default (no `httpOnly`, no `sameSite`, not `secure`). */
  datatype CookieOptions = CookieOptions(maxAge: int, httpOnly: bool, sameSite: Option<string>, secure: bool)

  /** One `res.cookie(name, value, options)` call. */
  datatype SetCookie = SetCookie(name: string, value: string, options: CookieOptions)

  /** The user fields returned by signup and login. */
  datatype AuthUserView = AuthUserView(id: UserId, fullName: string, email: string, profilePic: string)

  /** The JSON bodies the handlers send. */
  datatype Body =
    | MessageBody(message: string)                    // { message }
    | ErrorBody(error: string)                        // { error }
    | AuthUserBody(view: AuthUserView)
    | PublicUserBody(user: PublicUser)                // a document read with .select("-password")
    | PublicUsersBody(users: seq<PublicUser>)
    | UserDocumentBody(doc: Option<User>)             // a full document, or null
    | PublicUserDocumentBody(publicDoc: Option<PublicUser>)
    | MessageDocBody(msg: Message)
    | MessagesBody(messages: seq<Message>)

  datatype HttpResponse = HttpResponse(status: int, body: Body, cookies: seq<SetCookie>)

  /** `res.status(status).json(body)` with no cookie. */
  function Reply(status: int, body: Body): HttpResponse
  {
    HttpResponse(status, body, [])
  }

  /** The body carries some user's password hash. */
  predicate ExposesPassword(b: Body)
  {
    b.UserDocumentBody? && b.doc.Some?
  }

  function ViewOf(u: User): AuthUserView
  {
    AuthUserView(u.id, u.fullName, u.email, u.profilePic)
  }
}
