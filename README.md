# chatify backend core in Dafny

chatify is a one-to-one chat service. It has two parts that share one
authentication scheme:

- **REST.** Express handlers create accounts (`signup`), start and end
  sessions (`login`, `logout`), change a profile picture (`updateProfile`),
  list contacts and chat partners, read a conversation and send a message.
- **Real time.** A socket.io server admits a connection only after the
  handshake gate has read and verified the `jwt` cookie. It keeps a
  process-wide registry `userSocketMap` from user id to socket id, and
  broadcasts `Object.keys` of that registry as `getOnlineUsers` whenever a
  socket connects or disconnects. `sendMessage` stores the message and then
  pushes it as `newMessage` to the receiver's socket, if the receiver is online.

Sessions are JSON Web Tokens signed for seven days. They are carried in an
`httpOnly`, `sameSite=strict` cookie that is `secure` in production. A new
account gets a welcome e-mail through the Resend provider.

The model follows the source's own form:

- **Pure functions.** The schemas, the validation ladders, `generateToken`,
  the cookie parsing, the e-mail sender field and the queries are datatypes
  and functions, with lemmas about them.
- **Classes.** The MongoDB collections (`Store.Database`), the socket.io
  server with its registry and its outbox of emits (`Presence.SocketServer`),
  the handshake socket and the REST request are classes. Their methods
  update fields in place. Each such method is proved against the function
  that specifies it.

Foreign code is passed in as oracle parameters that may throw
(`Common.Verdict`): `jwt.sign`/`jwt.verify`, bcrypt, Cloudinary, MongoDB
look-ups and Resend. The clock and the generated document ids are passed in
as parameters too.

JavaScript semantics the core depends on are modelled exactly for strings
that are well-formed UTF-16 (see "## Left out" for unpaired surrogates):

- `split` with a non-empty separator, and `startsWith`;
- `length` counted in UTF-16 code units;
- the white-space class shared by `trim()` and `\s`;
- truthiness of strings (`""` is falsy);
- insertion order of `new Set`;
- the key order of `Object.keys`, per ECMA-262 section 10.1.11.1
  (OrdinaryOwnPropertyKeys).

E-mail sender configuration: `backend/src/lib/resend.js` reads
`ENV.RESEND_FROM` and `ENV.RESEND_FROM_NAME`, but `backend/src/lib/env.js`
only defines `EMAIL_FROM` and `EMAIL_FROM_NAME`. The configured sender is
therefore always `undefined`, and every welcome e-mail goes out as
`Chatify <onboarding@resend.dev>` (`EmailHandlers.DeployedSenderFallsBack`).
The general behaviour for any configuration is modelled as well.

Presence registry: the design requires that a stale
connection's disconnect cannot remove a newer registration. The code deletes
by user id only. The model follows the code (`Presence.Unregister`,
`Presence.SocketServer.OnDisconnect`) and adds the connection-scoped variant
beside it. See "## Findings".

## Model

| member | source | states |
|---|---|---|
| Common.Dedup | backend/src/controllers/message.controller.js:143-153 | `[...new Set(s)]` holds every element of `s`, each exactly once, and nothing else |
| Common.DedupKeepsFirstOccurrenceOrder | backend/src/controllers/message.controller.js:143-153 | the de-duplicated ids come in the order of their first occurrence, as a JavaScript `Set` iterates; applied to query results this holds under the insertion-order assumption |
| JsText.JsLength | backend/src/controllers/auth.controller.js:30 | `length` counts UTF-16 code units: at least one and at most two per code point |
| JsText.IndexOf | backend/src/middleware/socket.auth.middleware.js:22 | the result is the leftmost occurrence of the separator, and `None` only when there is none |
| JsText.Split | backend/src/middleware/socket.auth.middleware.js:18 | `split` always yields at least one piece |
| JsText.JoinSplit | backend/src/middleware/socket.auth.middleware.js:16-22 | joining the pieces of a split with the separator gives back the original string |
| JsText.SplitPiecesAvoidSeparator | backend/src/middleware/socket.auth.middleware.js:18 | no piece of a split contains the separator |
| JsText.SplitJoin | backend/src/middleware/socket.auth.middleware.js:16-22 | splitting a join of pieces that lack the separator's first character gives back the same pieces |
| JsText.Trim | backend/src/models/Message.js:29 | `trim()` keeps a slice of the input with only white space outside it and no white space at either end |
| JsText.TrimEmptyIffAllWhitespace | backend/src/models/Message.js:29 | a string trims to `""` exactly when it is all white space |
| JsText.AllWhitespaceTrimsAway | backend/src/models/Message.js:29 | a white-space-only string trims (and trims at the start) to `""` |
| JsText.TrimIdempotent | backend/src/models/Message.js:29 | trimming twice is trimming once |
| EmailFormat.EmailFormatMatchesPattern | backend/src/controllers/auth.controller.js:37 | the field-by-field test accepts exactly the strings `/^[^\s@]+@[^\s@]+\.[^\s@]+$/` matches (both directions) |
| Models.NewUser | backend/src/models/User.js:25-31 | a new user document has profile picture `""` and creation and update time `now`, and its public view carries the given fields |
| Models.UserSchemaValid | backend/src/models/User.js:8-23 | `email`, `fullName` and `password` are required and the password has at least 6 code units; the length rule alone already makes the password non-empty |
| Models.MessageSchemaValid | backend/src/models/Message.js:27-31 | a message without text is valid; text of more than 2000 code points is always refused, and text of at most 1000 code points always fits |
| Models.NewMessage | backend/src/models/Message.js:6-44 | a new message keeps sender, receiver and image, has text exactly when text was given, and is stamped `now` |
| Models.StoredTextIsTrimmed | backend/src/models/Message.js:29 | stored text is already trimmed |
| Models.WhitespaceTextStoredEmpty | backend/src/models/Message.js:29 | a non-empty white-space-only text is truthy (so it passes the controller's check) and is stored as `""` |
| Models.MaxLengthAfterTrim | backend/src/models/Message.js:27-31 | the 2000-unit limit applies to the trimmed text (both directions); text that fits untrimmed always fits |
| Models.SchemaAllowsEmptyMessage | backend/src/models/Message.js:27-36 | the schema accepts a message without text and without image |
| Store.FindById | backend/src/middleware/auth.middleware.js:27 | `findById` returns a stored user with that id, or `None` only when no user has it |
| Store.CollectionFindsById | backend/src/middleware/auth.middleware.js:27 | the look-up of the users collection only ever finds the document with the `_id` asked for |
| Store.UserExists | backend/src/controllers/message.controller.js:80 | `User.exists({ _id })` holds exactly when `findById` finds a document |
| Store.Insertable | backend/src/controllers/auth.controller.js:72 | `save()` accepts a new user exactly when the schema holds, the id is new and the e-mail is not taken; appending such a user keeps both unique indexes |
| Store.FindByEmail | backend/src/controllers/auth.controller.js:44 | `findOne({ email })` returns a stored user with that e-mail, or `None` only when no user has it |
| Store.SetProfilePic | backend/src/controllers/auth.controller.js:187-193 | the update changes picture and update time of the matching document and leaves every other document as it was |
| Store.UpdatedDocument | backend/src/controllers/auth.controller.js:187-193 | `{ new: true }` resolves to a document exactly when the user exists, and then to the updated document |
| Store.SetProfilePicKeepsKeys | backend/src/controllers/auth.controller.js:187-193 | changing a picture keeps the unique indexes on `_id` and `email` and the schema of every document |
| Store.Database.constructor | backend/src/models/User.js:39 | both collections start empty and valid |
| Store.Database.InsertUser | backend/src/controllers/auth.controller.js:72 | `save()` succeeds exactly when schema and unique indexes allow the document, then appends it; otherwise nothing changes |
| Store.Database.InsertMessage | backend/src/controllers/message.controller.js:106 | `save()` succeeds exactly when the message is schema-valid and its id is free, then appends it; otherwise nothing changes |
| Store.Database.UpdateProfilePic | backend/src/controllers/auth.controller.js:187-193 | the collection becomes `SetProfilePic` of the old one, the result is the updated document, and the invariants hold |
| ObjectKeys.SortByProperties | backend/src/lib/socket.js:67 | the sort used for array-index keys returns a sorted permutation of its input |
| ObjectKeys.OwnKeysPermutation | backend/src/lib/socket.js:67 | `Object.keys` lists every own key exactly as often as it was created |
| ObjectKeys.OwnKeysIndexKeysFirst | backend/src/lib/socket.js:67 | array-index keys come first in ascending numeric order, then the other keys in creation order |
| ObjectKeys.OwnKeysCreationOrder | backend/src/lib/socket.js:67 | without array-index keys, `Object.keys` is the creation order |
| ObjectKeys.ObjectIdIsNotArrayIndex | backend/src/middleware/socket.auth.middleware.js:57 | a 24-digit hexadecimal ObjectId string is never an array index |
| Presence.Register | backend/src/lib/socket.js:63 | `userSocketMap[userId] = socket.id` maps that user to the socket, changes no other user's entry and keeps the key order consistent |
| Presence.Unregister | backend/src/lib/socket.js:76 | `delete userSocketMap[userId]` removes that user whatever socket it holds and changes no other entry |
| Presence.UnregisterScoped | backend/src/lib/socket.js:73-79 | the scoped delete removes the entry only while it holds the closing socket, and changes no other entry |
| Presence.EmptyRegistry | backend/src/lib/socket.js:50 | the registry starts empty: nobody is online and no look-up succeeds |
| Presence.Lookup | backend/src/lib/socket.js:43 | `userSocketMap[userId]` is defined exactly for users in the map, and then is their socket; on a consistent registry, exactly for the users the broadcast lists |
| Presence.OnlineUsers | backend/src/lib/socket.js:67 | every `getOnlineUsers` payload is a permutation of the key order and lists exactly the users in the map, each once |
| Presence.OnlineUsersInCreationOrder | backend/src/lib/socket.js:67 | with ObjectId keys the payload is the order in which entries were created |
| Presence.RegisterBroadcastOrder | backend/src/lib/socket.js:63-67 | a first connection appends the user to the payload; a reconnection leaves payload and count unchanged |
| Presence.UnregisterAbsentIsNoOp | backend/src/lib/socket.js:76 | deleting an absent user leaves the registry as it was |
| Presence.DistinctSocketsPreserved | backend/src/lib/socket.js:63 | registering a fresh socket id, deleting and the scoped delete keep socket ids distinct across users |
| Presence.LookupSeparatesUsers | backend/src/lib/socket.js:41-44 | with distinct socket ids, two users never resolve to the same socket |
| Presence.Run | backend/src/lib/socket.js:55-79 | replaying connection and disconnection events as written keeps the registry consistent |
| Presence.RunScoped | backend/src/lib/socket.js:55-79 | replaying events with scoped disconnects keeps the registry consistent |
| Presence.RunLookup | backend/src/lib/socket.js:55-79 | as written, a user is online exactly when their latest event is a connection, and then on that socket |
| Presence.RunScopedLookup | backend/src/lib/socket.js:55-79 | with scoped disconnects, a user is online exactly when their latest connection has not closed since, and then on that socket |
| Presence.StaleDisconnectDropsNewerEntry | backend/src/lib/socket.js:73-79 | as written, connect on `a`, reconnect on `b`, close `a` leaves the user offline although `b` is open |
| Presence.ScopedDisconnectKeepsNewerEntry | backend/src/lib/socket.js:73-79 | with scoped disconnects the user ends on `b` in both arrival orders |
| Presence.SocketServer.constructor | backend/src/lib/socket.js:50 | the server starts with an empty, consistent registry and nothing emitted |
| Presence.SocketServer.OnConnection | backend/src/lib/socket.js:55-67 | the registry becomes `Register` of the old one, and one `getOnlineUsers` broadcast of the new keys is emitted |
| Presence.SocketServer.OnDisconnect | backend/src/lib/socket.js:73-79 | the registry becomes `Unregister` of the old one, and one broadcast of the new keys is emitted |
| Presence.SocketServer.OnDisconnectScoped | backend/src/lib/socket.js:73-79 | the registry becomes `UnregisterScoped` of the old one, and one broadcast of the new keys is emitted |
| Presence.SocketServer.GetReceiverSocketId | backend/src/lib/socket.js:41-44 | returns the user's socket id exactly when the user is in the map |
| Presence.SocketServer.EmitTo | backend/src/controllers/message.controller.js:116 | a direct emit is appended to the outbox and the registry is untouched |
| Presence.Handshake | backend/src/lib/socket.js:35 | the gate runs first; a refused socket leaves registry and outbox untouched, and an admitted one is registered under its user and broadcast; with a look-up that finds by id, the registered user is the token's user |
| SocketAuth.ExtractToken | backend/src/middleware/socket.auth.middleware.js:16-22 | no header, or no entry starting with `jwt=`, gives no token; otherwise the token is the text between `jwt=` and the next `=` in the first such entry |
| SocketAuth.FindFirstWithPrefix | backend/src/middleware/socket.auth.middleware.js:20 | `find` returns the first row starting with the prefix, or `None` when no row does |
| SocketAuth.SecondFieldOfTokenEntry | backend/src/middleware/socket.auth.middleware.js:22 | from a `jwt=` entry, `split("=")[1]` is the text between `jwt=` and the next `=` |
| SocketAuth.FirstTokenEntryWins | backend/src/middleware/socket.auth.middleware.js:16-22 | the token comes from the first `jwt=` entry of the header; later ones are ignored |
| SocketAuth.TokenRoundTrip | backend/src/middleware/socket.auth.middleware.js:16-22 | a header of well-formed entries whose first `jwt=` entry carries a token without `=` yields exactly that token |
| SocketAuth.NoHeaderNoToken | backend/src/middleware/socket.auth.middleware.js:16-18 | with no `Cookie` header there is no token |
| SocketAuth.EmptyTokenEntry | backend/src/middleware/socket.auth.middleware.js:22-25 | an empty `jwt=` entry yields `""`, which counts as no token |
| SocketAuth.Gate | backend/src/middleware/socket.auth.middleware.js:25-57 | admits exactly when a truthy token verifies to claims whose user exists; a missing token is refused as such; every refusal carries one of the four reasons; with a look-up that finds by id, the admitted user is the token's user |
| SocketAuth.MissingTokenSkipsVerifier | backend/src/middleware/socket.auth.middleware.js:25-30 | without a token the decision does not depend on the verifier or the database |
| SocketAuth.GateRefusalReasons | backend/src/middleware/socket.auth.middleware.js:35-71 | a falsy verification, an unknown user and a thrown exception each get their own reason |
| SocketAuth.HandshakeSocket.constructor | backend/src/middleware/socket.auth.middleware.js:11 | a handshake socket starts with no user attached |
| SocketAuth.SocketAuthMiddleware | backend/src/middleware/socket.auth.middleware.js:11-72 | `next` is called as the gate decides, and `user`/`userId` are attached (without password) only on success; with a look-up that finds by id, `userId` is the token's user id |
| Tokens.SessionCookieOptions | backend/src/lib/utils.js:29-48 | the session cookie is `httpOnly`, `sameSite` strict, `secure` exactly in production, and its `maxAge` is the token's seven-day lifetime in milliseconds, 604800000 |
| Tokens.GenerateToken | backend/src/lib/utils.js:14-52 | a token is issued exactly when the secret is truthy; it is signed for the user for seven days and set as the `jwt` cookie; otherwise the error is "JWT_SECRET is not configured" |
| Tokens.IssuedTokenReachesSocketGate | backend/src/lib/utils.js:36-48 | when the browser sends back the issued cookie as the first `jwt=` entry, the socket gate extracts exactly the signed token |
| AuthMiddleware.Protect | backend/src/middleware/auth.middleware.js:10-46 | 401 for a missing or falsy-verified token, 500 when verification throws or, after a successful verification, when the look-up throws; 404 "User not found" when the look-up finds nobody; otherwise `next()` with the user without password, who with a look-up that finds by id is the token's user; no response sets a cookie |
| AuthMiddleware.ProtectAgainstCollection | backend/src/middleware/auth.middleware.js:27-34 | with `findById` on the users collection, a verified token passes exactly when its user is stored, attaches that stored user without password, and is otherwise answered 404 |
| AuthMiddleware.SameDecisionAsSocketGate | backend/src/middleware/auth.middleware.js:14-38 | for the same token, `protectRoute` passes exactly when the socket gate admits, with the same user |
| AuthMiddleware.Request.constructor | backend/src/middleware/auth.middleware.js:14 | a request starts with its `jwt` cookie and no user attached |
| AuthMiddleware.ProtectRoute | backend/src/middleware/auth.middleware.js:10-46 | the outcome equals `Protect`, and `req.user` is set only when `next()` is called; with a look-up that finds by id, `req.user` is the token's user |
| EmailHandlers.IsValidEmail | backend/src/emails/emailHandlers.js:12-13 | `isValidEmail` holds exactly for a string that `/^[^\s@]+@[^\s@]+\.[^\s@]+$/` matches |
| EmailHandlers.FallbackEmailIsValid | backend/src/emails/emailHandlers.js:19 | the fallback address `onboarding@resend.dev` passes the e-mail pattern |
| EmailHandlers.FromEmail | backend/src/emails/emailHandlers.js:17-19 | a valid configured address is used, any other configuration falls back |
| EmailHandlers.FromEmailIsValid | backend/src/emails/emailHandlers.js:17-19 | whatever the configuration, the sender address passes the pattern |
| EmailHandlers.FromName | backend/src/emails/emailHandlers.js:22 | a truthy configured name is used, otherwise "Chatify"; never empty |
| EmailHandlers.FromField | backend/src/emails/emailHandlers.js:25 | the From field is a non-empty name followed by a well-formed address in angle brackets |
| EmailHandlers.DeployedSenderFallsBack | backend/src/lib/resend.js:16-21 | with the sender as deployed, every welcome e-mail is from `Chatify <onboarding@resend.dev>` |
| EmailHandlers.ValidSenderUsed | backend/src/emails/emailHandlers.js:17-25 | a valid configured address and non-empty name are used verbatim |
| EmailHandlers.SendWelcomeEmail | backend/src/emails/emailHandlers.js:8-57 | one request with that From field, recipient, subject and template; it succeeds exactly when the provider reports no error, and fails with "Failed to send welcome email" otherwise |
| AuthController.SignupRejection | backend/src/controllers/auth.controller.js:24-48 | the request passes exactly when all fields are truthy, the password has at least 6 code units, the e-mail matches the pattern and is not taken; missing fields are reported first |
| AuthController.SignupSpec | backend/src/controllers/auth.controller.js:16-110 | 400 exactly on a rejection, with its message; after validation a throwing hasher gives 500 with nothing saved, and otherwise the new user with the hash is saved exactly when insertable (500 with nothing saved when not); 201 exactly when saved and the secret is set, with the public view and the session cookie; 500 otherwise |
| AuthController.PasswordLengthBoundary | backend/src/controllers/auth.controller.js:30-33 | below 6 code units the password is refused as too short, from 6 it is not |
| AuthController.DuplicateEmailRefused | backend/src/controllers/auth.controller.js:44-48 | a taken e-mail gets 400 "Email already exists" and nothing is stored |
| AuthController.SignupKeepsEmailsUnique | backend/src/controllers/auth.controller.js:44-72 | signup never stores a second account with the same e-mail |
| AuthController.SignupStoresHashOnly | backend/src/controllers/auth.controller.js:55-85 | the stored password is the hasher's output and no signup response carries a password |
| AuthController.SignupSavesBeforeSecretCheck | backend/src/controllers/auth.controller.js:72-76 | without a signing secret the account is stored but the client gets 500 |
| AuthController.Signup | backend/src/controllers/auth.controller.js:16-110 | the response and the stored users are those of `SignupSpec`; the welcome e-mail is attempted exactly on 201, to the stored address, and its outcome changes nothing |
| AuthController.Login | backend/src/controllers/auth.controller.js:114-156 | 200 exactly when both fields are truthy, the e-mail is known, the password matches and the secret is set, with the public view and the session cookie; 400 "Invalid credentials" for an unknown e-mail or a wrong password; 500 when the comparison throws or, on a match, when the secret is missing; 400 for missing fields; only 200 sets a cookie |
| AuthController.LoginHidesWhichCredentialFailed | backend/src/controllers/auth.controller.js:126-138 | an unknown e-mail and a wrong password get the same 400 "Invalid credentials" |
| AuthController.Logout | backend/src/controllers/auth.controller.js:160-166 | logout answers 200 "Logged out successfully" and sets exactly one cookie: `jwt`, empty (falsy) and with `maxAge` 0 |
| AuthController.LogoutEndsSession | backend/src/controllers/auth.controller.js:160-166 | logout answers 200 and sets one empty `jwt` cookie with `maxAge` 0, which both the socket gate and `protectRoute` treat as no token |
| AuthController.ProfileUpdateExposesPassword | backend/src/controllers/auth.controller.js:196 | as written, the 200 response for an existing user carries that user's password hash |
| AuthController.ProjectedProfileUpdateHidesPassword | backend/src/controllers/auth.controller.js:187-196 | with the `-password` projection no password is sent, a document is sent exactly when the user exists, and it is the updated public view |
| AuthController.UpdateProfile | backend/src/controllers/auth.controller.js:170-202 | 400 without a truthy picture and 500 when the upload throws, both leaving users unchanged; otherwise the user's picture becomes the upload's URL and the response is the updated document as written |
| MessageController.PublicUsersWhere | backend/src/controllers/message.controller.js:19 | `find(...).select("-password")` returns, without passwords, exactly the users that match the filter |
| MessageController.PublicUsersWhereDistinct | backend/src/controllers/message.controller.js:158-160 | on a collection with unique ids the public views a filter selects are distinct |
| MessageController.Contacts | backend/src/controllers/message.controller.js:19 | the contacts are every other user, without passwords, and never the user asking |
| MessageController.GetAllContacts | backend/src/controllers/message.controller.js:12-28 | 200 with no cookie; a user is listed exactly when they are not the one asking, and only stored users are listed |
| MessageController.Conversation | backend/src/controllers/message.controller.js:43-48 | the conversation holds exactly the messages between the two users, in either direction, under the insertion-order assumption of "## Left out" |
| MessageController.ConversationSymmetric | backend/src/controllers/message.controller.js:43-48 | both participants read the same conversation in the same order, under the insertion-order assumption |
| MessageController.GetMessagesByUserId | backend/src/controllers/message.controller.js:32-57 | 200 with no cookie and exactly the messages between the two users; whichever of the two asks gets the same list |
| MessageController.ConversationIsPrivate | backend/src/controllers/message.controller.js:43-48 | a conversation holds no message to or from a third party |
| MessageController.PartnerIds | backend/src/controllers/message.controller.js:145-151 | the mapped ids are exactly the other parties of the user's messages |
| MessageController.ChatPartnerIds | backend/src/controllers/message.controller.js:137-153 | the partner ids are distinct, are exactly the other parties of the user's messages, and are ordered by first message under the insertion-order assumption |
| MessageController.NotOwnPartner | backend/src/controllers/message.controller.js:143-153 | since no message is to oneself, a user is never their own chat partner |
| MessageController.ChatPartners | backend/src/controllers/message.controller.js:158 | `$in: chatPartnerIds` returns only users whose id is a partner id; the converse is `ChatPartnersAreCorrespondents` |
| MessageController.ChatPartnersAreCorrespondents | backend/src/controllers/message.controller.js:130-167 | a user is listed exactly when a message was exchanged with them |
| MessageController.GetChatPartners | backend/src/controllers/message.controller.js:130-167 | 200 with no cookie; a user is listed exactly when a message was exchanged with them; every entry is a stored user's public view, and on a collection with unique ids each appears once |
| MessageController.UploadedImage | backend/src/controllers/message.controller.js:86-93 | no upload without a truthy image; otherwise the upload's URL, or a throw when the upload throws |
| MessageController.SendSpec | backend/src/controllers/message.controller.js:61-126 | 400 for no content, then for a message to oneself, 404 for an unknown receiver; past those checks a throwing upload gives 500, and otherwise the new trimmed message is stored and answered 201 exactly when insertable (500 when not); a push to the receiver's socket exactly when stored and the receiver is online |
| MessageController.PushNeverReachesSender | backend/src/controllers/message.controller.js:110-117 | with distinct socket ids the push never goes to the sender's socket |
| MessageController.PresenceDecidesOnlyThePush | backend/src/controllers/message.controller.js:108-120 | whether the receiver is online changes neither what is stored nor the response; an offline receiver gets no push |
| MessageController.NewMessageIsVisible | backend/src/controllers/message.controller.js:97-106 | a stored message between two users is in the conversation both read and makes each the other's chat partner |
| MessageController.SentMessageIsVisible | backend/src/controllers/message.controller.js:61-126 | whatever `sendMessage` stores is visible afterwards to both parties |
| MessageController.SendMessage | backend/src/controllers/message.controller.js:61-126 | response, stored messages and emitted push are those of `SendSpec`; users and registry are unchanged |

## Left out

- Failures of MongoDB other than those modelled are not modelled: connection loss, write concerns, and `find` throwing in `getAllContacts`, `getMessagesByUserId` and `getChatPartners`. Those handlers always answer 200 here.
- Mongoose cast errors on malformed ids are not modelled. Ids are compared as strings, which also stands in for `ObjectId.equals` and `toString()`. This is visible for a route id in upper-case hex: the Mongoose cast and `ObjectId.equals` ignore hex case, but `userSocketMap[receiverId]` does not. For an existing receiver the source then answers 201 without a push where the model answers 404, and for one's own id the source answers 400 where the model answers 404.
- Strings are sequences of Unicode scalar values. JavaScript strings with unpaired surrogates, which a request body can carry through a JSON `\ud800` escape, are left out, and with them their `length`, `trim()` and pattern behaviour.
- Properties inherited from `Object.prototype` are left out of the registry look-up. `userSocketMap[userId]` only ever sees ObjectId keys.
- The HTML of the welcome e-mail is left out. `emailTemplates.js` is not part of this model; the template is kept as its two arguments.
- Logging (`console.log`/`console.error`) is left out: it has no effect on the behaviour.
- Concurrency is not modelled. Every handler's synchronous stretch runs to completion on Node's single thread, so each registry update is one step. Interleavings across `await` points in the REST handlers are not modelled.
- The `else` branch of signup that answers "Invalid user data" is left out: `new User(...)` is always truthy, so that branch cannot run.
- Arcjet rate limiting, `server.js`, `db.js`, the route files and the Cloudinary configuration are left out: they are wiring around the core.
- cookie-parser's parsing of `req.cookies.jwt` is left out. The REST middleware receives the parsed value.
- The internals of bcrypt, `jsonwebtoken` (signature, expiry) and Cloudinary are oracle parameters.
- Request bodies whose fields are not strings (numbers, arrays, objects) are left out. A field is a string or missing.
- MessageController.ChatPartners: its own contract states only that listed users are partners. The converse is stated by `MessageController.ChatPartnersAreCorrespondents`, and both directions by `MessageController.GetChatPartners`.
- Result order of `find` is an assumption, not a guarantee: the model returns query results in insertion order, which MongoDB does not promise for a query without a sort. The ordering claims of `Conversation`, `ConversationSymmetric`, `ChatPartnerIds` and `DedupKeepsFirstOccurrenceOrder` hold only under that assumption; their membership claims hold regardless.
- The `User.findById` oracle of the two gates is unconstrained. Claims that the attached user is the token's user are stated under `Store.FindsById`, which the collection's own look-up satisfies (`Store.CollectionFindsById`).

## Findings

| source | as written | input that shows it | evidently intended | confidence | as-written member | corrected member |
|---|---|---|---|---|---|---|
| backend/src/lib/socket.js:76 | `disconnect` deletes `userSocketMap[userId]` whatever socket it holds | user `u` connects on socket `a`, reconnects on `b`, then `a` closes: `u` is shown offline and gets no pushes while `b` is open | delete the entry only while it still holds the closing socket's id | not executed | Presence.StaleDisconnectDropsNewerEntry | Presence.ScopedDisconnectKeepsNewerEntry |
| backend/src/controllers/auth.controller.js:196 | `updateProfile` sends the document returned by `findByIdAndUpdate` without the `-password` projection | any authenticated user with a stored account uploads a picture: the 200 body contains that account's password hash | project the document with `-password`, as every other handler does | not executed | AuthController.ProfileUpdateExposesPassword | AuthController.ProjectedProfileUpdateHidesPassword |
