/** The authentication handlers of backend/src/controllers/auth.controller.js:
    `signup`, `login`, `logout` and `updateProfile`. */
module AuthController {
  import opened Common
  import opened JsText
  import opened EmailFormat
  import opened Models
  import opened Store
  import opened Http
  import opened Tokens
  import SocketAuth
  import AuthMiddleware
  import EmailHandlers

  const AllFieldsRequiredMessage: string := "All fields are required"
  const PasswordTooShortMessage: string := "The password has to be atleast 6 characters"
  const InvalidEmailMessage: string := "Invalid email format"
  const EmailTakenMessage: string := "Email already exists"
  const MissingCredentialsMessage: string := "Email and password are required"
  const InvalidCredentialsMessage: string := "Invalid credentials"
  const LoggedOutMessage: string := "Logged out successfully"
  const ProfilePicRequiredMessage: string := "Profile pic is required"

  /** `bcrypt.hash(password, await bcrypt.genSalt(10))`. */
  type Hasher = string -> Verdict<string>
  /** `bcrypt.compare(plain, hash)`. */
  type PasswordCheck = (string, string) -> Verdict<bool>

  // ---------------------------------------------------------------- signup

  /** The fields of the signup request body; `None` is a missing field. */
  datatype SignupBody = SignupBody(fullName: Option<string>, email: Option<string>, password: Option<string>)

  /** The checks signup makes before writing anything, in their order; `None`
      when the request passes all of them. */
  function SignupRejection(users: seq<User>, body: SignupBody): (r: Option<string>)
    ensures r.None? <==>
      && Truthy(body.fullName) && Truthy(body.email) && Truthy(body.password)
      && JsLength(body.password.value) >= MinPasswordLength
      && IsEmailFormat(body.email.value)
      && FindByEmail(users, body.email.value).None?
    ensures !(Truthy(body.fullName) && Truthy(body.email) && Truthy(body.password)) ==>
      r == Some(AllFieldsRequiredMessage)
    ensures r.Some? ==>
      r.value in {AllFieldsRequiredMessage, PasswordTooShortMessage, InvalidEmailMessage, EmailTakenMessage}
  {
    if !Truthy(body.fullName) || !Truthy(body.email) || !Truthy(body.password) then Some(AllFieldsRequiredMessage)
    else if JsLength(body.password.value) < MinPasswordLength then Some(PasswordTooShortMessage)
    else if !IsEmailFormat(body.email.value) then Some(InvalidEmailMessage)
    else if FindByEmail(users, body.email.value).Some? then Some(EmailTakenMessage)
    else None
  }

  /** What signup stores, if anything, and the response it sends. */
  datatype SignupOutcome = SignupOutcome(saved: Option<User>, response: HttpResponse)

  /** The behaviour of `signup` up to the response, with the new document's id
      and the clock as parameters. */
  function SignupSpec(users: seq<User>, body: SignupBody, hash: Hasher, newId: UserId, now: Timestamp,
                      env: Env, sign: Signer): (o: SignupOutcome)
    ensures o.response.status in {201, 400, 500}
    ensures o.response.status == 400 <==> SignupRejection(users, body).Some?
    ensures o.response.status == 400 ==>
      o.response == Reply(400, MessageBody(SignupRejection(users, body).value))
    ensures o.response.status == 500 ==> o.response == Reply(500, MessageBody(ServerErrorMessage))
    ensures o.saved.Some? ==>
      && SignupRejection(users, body).None?
      && hash(body.password.value).Returned?
      && o.saved.value == NewUser(newId, body.fullName.value, body.email.value, hash(body.password.value).value, now)
      && Insertable(users, o.saved.value)
    ensures SignupRejection(users, body).None? && hash(body.password.value).Threw? ==>
      o == SignupOutcome(None, Reply(500, MessageBody(ServerErrorMessage)))
    ensures SignupRejection(users, body).None? && hash(body.password.value).Returned? ==>
      var u := NewUser(newId, body.fullName.value, body.email.value, hash(body.password.value).value, now);
      && (Insertable(users, u) ==> o.saved == Some(u))
      && (!Insertable(users, u) ==> o == SignupOutcome(None, Reply(500, MessageBody(ServerErrorMessage))))
    ensures o.response.status == 201 <==> o.saved.Some? && Truthy(env.jwtSecret)
    ensures o.response.status == 201 ==>
      && o.response.body == AuthUserBody(ViewOf(o.saved.value))
      && o.response.cookies == [GenerateToken(newId, env, sign).cookie]
  {
    match SignupRejection(users, body)
    case Some(reason) => SignupOutcome(None, Reply(400, MessageBody(reason)))
    case None =>
      match hash(body.password.value)
      case Threw => SignupOutcome(None, Reply(500, MessageBody(ServerErrorMessage)))
      case Returned(hashed) =>
        var u := NewUser(newId, body.fullName.value, body.email.value, hashed, now);
        if !Insertable(users, u) then SignupOutcome(None, Reply(500, MessageBody(ServerErrorMessage)))
        else
          match GenerateToken(u.id, env, sign)
          case SecretMissing(_) => SignupOutcome(Some(u), Reply(500, MessageBody(ServerErrorMessage)))
          case Issued(_, cookie) => SignupOutcome(Some(u), HttpResponse(201, AuthUserBody(ViewOf(u)), [cookie]))
  }

  /** A password of five code units is refused, one of six passes the length check. */
  lemma PasswordLengthBoundary(users: seq<User>, body: SignupBody)
    requires Truthy(body.fullName) && Truthy(body.email) && Truthy(body.password)
    ensures JsLength(body.password.value) < 6 ==> SignupRejection(users, body) == Some(PasswordTooShortMessage)
    ensures JsLength(body.password.value) >= 6 ==> SignupRejection(users, body) != Some(PasswordTooShortMessage)
  {
  }

  /** A taken e-mail is refused and nothing is stored. */
  lemma DuplicateEmailRefused(users: seq<User>, body: SignupBody, hash: Hasher, newId: UserId, now: Timestamp,
                              env: Env, sign: Signer)
    requires Truthy(body.fullName) && Truthy(body.email) && Truthy(body.password)
    requires JsLength(body.password.value) >= MinPasswordLength && IsEmailFormat(body.email.value)
    requires exists k :: 0 <= k < |users| && users[k].email == body.email.value
    ensures SignupSpec(users, body, hash, newId, now, env, sign) ==
      SignupOutcome(None, Reply(400, MessageBody(EmailTakenMessage)))
  {
  }

  /** Signup never lets two accounts share an e-mail. */
  lemma SignupKeepsEmailsUnique(users: seq<User>, body: SignupBody, hash: Hasher, newId: UserId, now: Timestamp,
                                env: Env, sign: Signer)
    requires UniqueEmails(users)
    ensures var o := SignupSpec(users, body, hash, newId, now, env, sign);
      UniqueEmails(users + (if o.saved.Some? then [o.saved.value] else []))
  {
  }

  /** The stored password is the hash, never the submitted text (unless the
      hasher returns it unchanged), and the response never carries it. */
  lemma SignupStoresHashOnly(users: seq<User>, body: SignupBody, hash: Hasher, newId: UserId, now: Timestamp,
                             env: Env, sign: Signer)
    ensures var o := SignupSpec(users, body, hash, newId, now, env, sign);
      && (o.saved.Some? ==> o.saved.value.password == hash(body.password.value).value)
      && !ExposesPassword(o.response.body)
  {
  }

  /** Without a signing secret the account is created but the client gets a
      500 and no session cookie. */
  lemma SignupSavesBeforeSecretCheck(users: seq<User>, body: SignupBody, hash: Hasher, newId: UserId, now: Timestamp,
                                     env: Env, sign: Signer)
    requires SignupRejection(users, body).None? && hash(body.password.value).Returned?
    requires Insertable(users, NewUser(newId, body.fullName.value, body.email.value, hash(body.password.value).value, now))
    requires !Truthy(env.jwtSecret)
    ensures var o := SignupSpec(users, body, hash, newId, now, env, sign);
      o.saved.Some? && o.response == Reply(500, MessageBody(ServerErrorMessage))
  {
  }

  /** `signup(req, res)`: the response is sent before the welcome email is
      attempted, and the email's outcome changes neither the response nor the
      stored data. */
  method Signup(db: Database, body: SignupBody, hash: Hasher, newId: UserId, now: Timestamp,
                env: Env, sign: Signer, provider: EmailHandlers.EmailRequest -> EmailHandlers.ProviderReply)
    returns (response: HttpResponse, welcome: Option<EmailHandlers.SendResult>)
    requires db.Valid()
    modifies db
    ensures db.Valid()
    ensures var o := SignupSpec(old(db.users), body, hash, newId, now, env, sign);
      && response == o.response
      && db.users == old(db.users) + (if o.saved.Some? then [o.saved.value] else [])
    ensures db.messages == old(db.messages)
    ensures welcome.Some? <==> response.status == 201
    ensures welcome.Some? ==>
              welcome.value == EmailHandlers.SendWelcomeEmail(body.email.value, body.fullName.value, env.clientUrl,
                                                              EmailHandlers.ConfiguredSender, provider)
  {
    welcome := None;
    var rejection := SignupRejection(db.users, body);
    if rejection.Some? {
      return Reply(400, MessageBody(rejection.value)), None;
    }
    var hashed := hash(body.password.value);
    if hashed.Threw? {
      return Reply(500, MessageBody(ServerErrorMessage)), None;
    }
    var newUser := NewUser(newId, body.fullName.value, body.email.value, hashed.value, now);
    var saved := db.InsertUser(newUser);
    if !saved {
      return Reply(500, MessageBody(ServerErrorMessage)), None;
    }
    var token := GenerateToken(newUser.id, env, sign);
    if token.SecretMissing? {
      return Reply(500, MessageBody(ServerErrorMessage)), None;
    }
    response := HttpResponse(201, AuthUserBody(ViewOf(newUser)), [token.cookie]);
    // A failed send is caught and logged; it does not reach the client.
    var sent := EmailHandlers.SendWelcomeEmail(newUser.email, newUser.fullName, env.clientUrl,
                                               EmailHandlers.ConfiguredSender, provider);
    welcome := Some(sent);
  }

  // ----------------------------------------------------------------- login

  datatype LoginBody = LoginBody(email: Option<string>, password: Option<string>)

  /** `login(req, res)`. */
  function Login(users: seq<User>, body: LoginBody, compare: PasswordCheck, env: Env, sign: Signer): (r: HttpResponse)
    ensures r.status in {200, 400, 500}
    ensures !(Truthy(body.email) && Truthy(body.password)) ==> r == Reply(400, MessageBody(MissingCredentialsMessage))
    ensures r.status == 200 <==>
      && Truthy(body.email) && Truthy(body.password)
      && FindByEmail(users, body.email.value).Some?
      && compare(body.password.value, FindByEmail(users, body.email.value).value.password) == Returned(true)
      && Truthy(env.jwtSecret)
    ensures r.status == 200 ==>
      var u := FindByEmail(users, body.email.value).value;
      r.body == AuthUserBody(ViewOf(u)) && r.cookies == [GenerateToken(u.id, env, sign).cookie]
    ensures Truthy(body.email) && Truthy(body.password) && FindByEmail(users, body.email.value).None? ==>
      r == Reply(400, MessageBody(InvalidCredentialsMessage))
    ensures Truthy(body.email) && Truthy(body.password) && FindByEmail(users, body.email.value).Some? ==>
      var c := compare(body.password.value, FindByEmail(users, body.email.value).value.password);
      && (c == Returned(false) ==> r == Reply(400, MessageBody(InvalidCredentialsMessage)))
      && (c == Threw ==> r == Reply(500, MessageBody(ServerErrorMessage)))
      && (c == Returned(true) && !Truthy(env.jwtSecret) ==> r == Reply(500, MessageBody(ServerErrorMessage)))
    ensures r.status != 200 ==> r.cookies == []
    ensures r.status == 500 ==> r == Reply(500, MessageBody(ServerErrorMessage))
  {
    if !Truthy(body.email) || !Truthy(body.password) then Reply(400, MessageBody(MissingCredentialsMessage))
    else
      match FindByEmail(users, body.email.value)
      case None => Reply(400, MessageBody(InvalidCredentialsMessage))
      case Some(u) =>
        match compare(body.password.value, u.password)
        case Threw => Reply(500, MessageBody(ServerErrorMessage))
        case Returned(false) => Reply(400, MessageBody(InvalidCredentialsMessage))
        case Returned(true) =>
          match GenerateToken(u.id, env, sign)
          case SecretMissing(_) => Reply(500, MessageBody(ServerErrorMessage))
          case Issued(_, cookie) => HttpResponse(200, AuthUserBody(ViewOf(u)), [cookie])
  }

  /** An unknown e-mail and a wrong password get the very same response. */
  lemma LoginHidesWhichCredentialFailed(unknown: seq<User>, known: seq<User>, body: LoginBody,
                                        compare: PasswordCheck, env: Env, sign: Signer)
    requires Truthy(body.email) && Truthy(body.password)
    requires FindByEmail(unknown, body.email.value).None?
    requires FindByEmail(known, body.email.value).Some?
    requires compare(body.password.value, FindByEmail(known, body.email.value).value.password) == Returned(false)
    ensures Login(unknown, body, compare, env, sign) == Login(known, body, compare, env, sign)
    ensures Login(known, body, compare, env, sign) == Reply(400, MessageBody(InvalidCredentialsMessage))
  {
  }

  // ---------------------------------------------------------------- logout

  /** `logout(req, res)`: answer 200 and overwrite the session cookie with an
      empty value that expires at once. */
  function Logout(): (r: HttpResponse)
    ensures r.status == 200 && r.body == MessageBody(LoggedOutMessage)
    ensures |r.cookies| == 1 && r.cookies[0].name == CookieName
    ensures !Truthy(Some(r.cookies[0].value)) && r.cookies[0].options.maxAge == 0
  {
    HttpResponse(200, MessageBody(LoggedOutMessage), [SetCookie(CookieName, "", CookieOptions(0, false, None, false))])
  }

  /** The cookie logout sets replaces the session cookie, expires at once, and
      carries no token either gate would accept. */
  lemma LogoutEndsSession(verify: string -> Verdict<Option<SocketAuth.Claims>>,
                          findById: UserId -> Verdict<Option<User>>)
    ensures Logout().status == 200 && |Logout().cookies| == 1
    ensures var c := Logout().cookies[0];
      && c.name == CookieName && c.value == ""
      && c.options.maxAge == 0
      && SocketAuth.Gate(Some(CookiePair(c)), verify, findById)
           == SocketAuth.Refuse(SocketAuth.NoTokenReason)
      && AuthMiddleware.Protect(Some(c.value), verify, findById)
           == AuthMiddleware.Respond(Reply(401, MessageBody(AuthMiddleware.NoTokenMessage)))
  {
    var c := Logout().cookies[0];
    assert CookiePair(c) == SocketAuth.TokenPrefix;
    SocketAuth.EmptyTokenEntry();
  }

  // --------------------------------------------------------- updateProfile

  /** The response `updateProfile` sends once the update has run, as written:
      the document `findByIdAndUpdate` resolved to, unprojected. */
  function ProfileUpdateResponse(updated: Option<User>): HttpResponse
  {
    Reply(200, UserDocumentBody(updated))
  }

  /** As written, the password hash of the updated account is part of the
      response whenever the user exists. */
  lemma ProfileUpdateExposesPassword(users: seq<User>, id: UserId, url: string, now: Timestamp)
    requires UserExists(users, id)
    ensures var r := ProfileUpdateResponse(UpdatedDocument(users, id, url, now));
      ExposesPassword(r.body) && r.body.doc.value.password == FindById(users, id).value.password
  {
  }

  /** The response with the `-password` projection every other handler applies. */
  function ProjectedProfileUpdateResponse(updated: Option<User>): HttpResponse
  {
    Reply(200, PublicUserDocumentBody(if updated.Some? then Some(WithoutPassword(updated.value)) else None))
  }

  /** With the projection no password reaches the client, and every other
      field of the updated document does. */
  lemma ProjectedProfileUpdateHidesPassword(users: seq<User>, id: UserId, url: string, now: Timestamp)
    ensures var r := ProjectedProfileUpdateResponse(UpdatedDocument(users, id, url, now));
      && !ExposesPassword(r.body)
      && (UserExists(users, id) <==> r.body.publicDoc.Some?)
      && (UserExists(users, id) ==>
            r.body.publicDoc.value == WithoutPassword(FindById(users, id).value).(profilePic := url, updatedAt := now))
  {
  }

  /** `updateProfile(req, res)` for the authenticated user `userId`. */
  method UpdateProfile(db: Database, userId: UserId, profilePic: Option<string>, upload: Uploader, now: Timestamp)
    returns (response: HttpResponse)
    requires db.Valid()
    modifies db
    ensures db.Valid()
    ensures db.messages == old(db.messages)
    ensures !Truthy(profilePic) ==>
      response == Reply(400, MessageBody(ProfilePicRequiredMessage)) && db.users == old(db.users)
    ensures Truthy(profilePic) && upload(profilePic.value).Threw? ==>
      response == Reply(500, MessageBody(ServerErrorMessage)) && db.users == old(db.users)
    ensures Truthy(profilePic) && upload(profilePic.value).Returned? ==>
      var url := upload(profilePic.value).value;
      && db.users == SetProfilePic(old(db.users), userId, url, now)
      && response == ProfileUpdateResponse(UpdatedDocument(old(db.users), userId, url, now))
  {
    if !Truthy(profilePic) {
      return Reply(400, MessageBody(ProfilePicRequiredMessage));
    }
    var uploaded := upload(profilePic.value);
    if uploaded.Threw? {
      return Reply(500, MessageBody(ServerErrorMessage));
    }
    var updated := db.UpdateProfilePic(userId, uploaded.value, now);
    response := ProfileUpdateResponse(updated);
  }
}
