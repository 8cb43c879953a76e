/** The socket.io handshake gate (backend/src/middleware/socket.auth.middleware.js):
    the `jwt` cookie is parsed out of the raw `Cookie` header, verified, and
    resolved to a user before the connection is admitted. */
module SocketAuth {
  import opened Common
  import opened JsText
  import opened Models
  import opened Store

  /** Separator between the `name=value` entries of a `Cookie` header. */
  const CookieSeparator: string := "; "
  /** The entry the gate looks for. */
  const TokenPrefix: string := "jwt="

  const NoTokenReason: string := "Unauthorized - No Token Provided"
  const InvalidTokenReason: string := "Unauthorized - Invalid Token"
  const UserNotFoundReason: string := "User not found"
  const AuthFailedReason: string := "Unauthorized - Authentication failed"

  /** The payload `jwt.verify` decodes from a token issued by `generateToken`. */
  datatype Claims = Claims(userId: UserId)

  /** `rows.find(row => row.startsWith(prefix))`, as the index found. */
  function FindFirstWithPrefix(rows: seq<string>, prefix: string): (r: Option<nat>)
    ensures r.Some? ==> r.value < |rows| && StartsWith(rows[r.value], prefix)
    ensures r.Some? ==> forall k :: 0 <= k < r.value ==> !StartsWith(rows[k], prefix)
    ensures r.None? ==> forall k :: 0 <= k < |rows| ==> !StartsWith(rows[k], prefix)
  {
    if rows == [] then None
    else if StartsWith(rows[0], prefix) then Some(0)
    else match FindFirstWithPrefix(rows[1..], prefix)
      case None => None
      case Some(i) => Some(i + 1)
  }

  /** `row.split("=")[1]`, which is `undefined` when `row` has no `=`. */
  function SecondField(row: string): Option<string>
  {
    var parts := Split(row, "=");
    if |parts| > 1 then Some(parts[1]) else None
  }

  /** `rows[i]` is the first entry that starts with `jwt=`. */
  predicate FirstTokenEntry(rows: seq<string>, i: nat)
  {
    i < |rows| && StartsWith(rows[i], TokenPrefix) && forall k :: 0 <= k < i ==> !StartsWith(rows[k], TokenPrefix)
  }

  /** `cookie?.split("; ").find(row => row.startsWith("jwt="))?.split("=")[1]`:
      no header, or no entry starting with `jwt=`, gives no token; otherwise
      the token is the text after `jwt=` in the first such entry, up to the
      next `=`. */
  function ExtractToken(cookieHeader: Option<string>): (r: Option<string>)
    ensures cookieHeader.None? ==> r.None?
    ensures cookieHeader.Some? && r.None? ==>
      forall k :: 0 <= k < |Split(cookieHeader.value, CookieSeparator)| ==>
        !StartsWith(Split(cookieHeader.value, CookieSeparator)[k], TokenPrefix)
    ensures r.Some? ==>
      exists i: nat :: FirstTokenEntry(Split(cookieHeader.value, CookieSeparator), i)
        && r.value == UpToEquals(Split(cookieHeader.value, CookieSeparator)[i][|TokenPrefix|..])
  {
    match cookieHeader
    case None => None
    case Some(h) =>
      var rows := Split(h, CookieSeparator);
      match FindFirstWithPrefix(rows, TokenPrefix)
      case None => None
      case Some(i) =>
        SecondFieldOfTokenEntry(rows[i]);
        assert FirstTokenEntry(rows, i);
        SecondField(rows[i])
  }

  /** The text of `s` up to its first `=`. */
  function UpToEquals(s: string): string
  {
    match IndexOf(s, "=")
    case None => s
    case Some(i) => s[..i]
  }

  /** The value taken from an entry `jwt=...` is the text between `jwt=` and
      the next `=`. */
  lemma SecondFieldOfTokenEntry(row: string)
    requires StartsWith(row, TokenPrefix)
    ensures SecondField(row) == Some(UpToEquals(row[|TokenPrefix|..]))
  {
    var rest := row[4..];
    assert row == "jwt" + "=" + rest;
    FirstOccurrenceAfterPiece("jwt", "=", rest);
    assert row[..3] == "jwt" && row[3 + 1..] == rest;
    var parts := Split(row, "=");
    assert parts == ["jwt"] + Split(rest, "=");
    match IndexOf(rest, "=")
    case None =>
    case Some(i) =>
      assert Split(rest, "=")[0] == rest[..i];
  }

  /** The token comes from the first entry starting with `jwt=`; whatever
      follows it, including further `jwt=` entries, is ignored. */
  lemma FirstTokenEntryWins(h: string, i: nat)
    requires var rows := Split(h, CookieSeparator);
      i < |rows| && StartsWith(rows[i], TokenPrefix)
      && forall k :: 0 <= k < i ==> !StartsWith(rows[k], TokenPrefix)
    ensures ExtractToken(Some(h)) == Some(UpToEquals(Split(h, CookieSeparator)[i][|TokenPrefix|..]))
  {
    var rows := Split(h, CookieSeparator);
    var f := FindFirstWithPrefix(rows, TokenPrefix);
    assert f == Some(i);
    SecondFieldOfTokenEntry(rows[i]);
  }

  /** A cookie header assembled from well-formed entries (no `;` inside an
      entry) gives back the token of its first `jwt=` entry, provided the
      token contains no `=`. */
  lemma TokenRoundTrip(before: seq<string>, token: string, after: seq<string>)
    requires forall k :: 0 <= k < |before| ==> ';' !in before[k] && !StartsWith(before[k], TokenPrefix)
    requires forall k :: 0 <= k < |after| ==> ';' !in after[k]
    requires ';' !in token && '=' !in token
    ensures ExtractToken(Some(Join(before + [TokenPrefix + token] + after, CookieSeparator))) == Some(token)
  {
    var rows := before + [TokenPrefix + token] + after;
    var h := Join(rows, CookieSeparator);
    EntriesAvoidSeparator(before, token, after);
    SplitJoin(rows, CookieSeparator);
    var i := |before|;
    TokenEntryComesFirst(before, token, after);
    FirstTokenEntryWins(h, i);
    var entry := rows[i];
    assert entry[|TokenPrefix|..] == token;
    UpToEqualsWithoutEquals(token);
  }

  lemma EntriesAvoidSeparator(before: seq<string>, token: string, after: seq<string>)
    requires forall k :: 0 <= k < |before| ==> ';' !in before[k]
    requires forall k :: 0 <= k < |after| ==> ';' !in after[k]
    requires ';' !in token
    ensures var rows := before + [TokenPrefix + token] + after;
      forall n :: 0 <= n < |rows| ==> CookieSeparator[0] !in rows[n]
  {
    var rows := before + [TokenPrefix + token] + after;
    forall n | 0 <= n < |rows| ensures ';' !in rows[n] {
      if n < |before| {
        assert rows[n] == before[n];
      } else if n > |before| {
        assert rows[n] == after[n - |before| - 1];
      } else {
        assert rows[n] == "jwt=" + token;
      }
    }
  }

  lemma TokenEntryComesFirst(before: seq<string>, token: string, after: seq<string>)
    requires forall k :: 0 <= k < |before| ==> !StartsWith(before[k], TokenPrefix)
    ensures var rows := before + [TokenPrefix + token] + after;
      && StartsWith(rows[|before|], TokenPrefix)
      && forall k :: 0 <= k < |before| ==> !StartsWith(rows[k], TokenPrefix)
  {
    var rows := before + [TokenPrefix + token] + after;
    var entry := rows[|before|];
    assert entry == TokenPrefix + token;
    assert entry[..|TokenPrefix|] == TokenPrefix;
    forall k | 0 <= k < |before| ensures rows[k] == before[k] {
    }
  }

  lemma UpToEqualsWithoutEquals(s: string)
    requires '=' !in s
    ensures UpToEquals(s) == s
  {
    NoOccurrenceWithoutFirstChar(s, "=", 0);
  }

  /** With no `Cookie` header there is no token. */
  lemma NoHeaderNoToken()
    ensures ExtractToken(None) == None
  {
  }

  /** An empty `jwt=` entry yields the empty string, which the gate treats as
      a missing token. */
  lemma EmptyTokenEntry()
    ensures ExtractToken(Some(TokenPrefix)) == Some("")
    ensures !Truthy(ExtractToken(Some(TokenPrefix)))
  {
    var none: seq<string> := [];
    TokenRoundTrip(none, "", none);
    assert TokenPrefix + "" == TokenPrefix;
    assert none + [TokenPrefix + ""] + none == [TokenPrefix];
    assert Join([TokenPrefix], CookieSeparator) == TokenPrefix;
  }

  /** What the gate decides: admit the connection with the user (read without
      its password), or refuse it with a reason. */
  datatype GateDecision = Admit(user: PublicUser) | Refuse(reason: string)

  /** The decision of `socketAuthMiddleware`, given the raw `Cookie` header,
      `jwt.verify` and `User.findById` as oracles. Every failure, expected or
      thrown, refuses. */
  function Gate(cookieHeader: Option<string>,
                verify: string -> Verdict<Option<Claims>>,
                findById: UserId -> Verdict<Option<User>>): (d: GateDecision)
    ensures !Truthy(ExtractToken(cookieHeader)) ==> d == Refuse(NoTokenReason)
    ensures d.Admit? <==>
      && Truthy(ExtractToken(cookieHeader))
      && verify(ExtractToken(cookieHeader).value).Returned?
      && verify(ExtractToken(cookieHeader).value).value.Some?
      && findById(verify(ExtractToken(cookieHeader).value).value.value.userId).Returned?
      && findById(verify(ExtractToken(cookieHeader).value).value.value.userId).value.Some?
    ensures d.Refuse? ==> d.reason in {NoTokenReason, InvalidTokenReason, UserNotFoundReason, AuthFailedReason}
    ensures d.Admit? && FindsById(findById) ==> d.user.id == verify(ExtractToken(cookieHeader).value).value.value.userId
  {
    var token := ExtractToken(cookieHeader);
    if !Truthy(token) then Refuse(NoTokenReason)
    else
      match verify(token.value)
      case Threw => Refuse(AuthFailedReason)
      case Returned(None) => Refuse(InvalidTokenReason)
      case Returned(Some(claims)) =>
        match findById(claims.userId)
        case Threw => Refuse(AuthFailedReason)
        case Returned(None) => Refuse(UserNotFoundReason)
        case Returned(Some(u)) => Admit(WithoutPassword(u))
  }

  /** A missing token is refused before the verifier or the database is
      consulted: the decision does not depend on them. */
  lemma MissingTokenSkipsVerifier(cookieHeader: Option<string>,
                                  v1: string -> Verdict<Option<Claims>>, f1: UserId -> Verdict<Option<User>>,
                                  v2: string -> Verdict<Option<Claims>>, f2: UserId -> Verdict<Option<User>>)
    requires !Truthy(ExtractToken(cookieHeader))
    ensures Gate(cookieHeader, v1, f1) == Gate(cookieHeader, v2, f2) == Refuse(NoTokenReason)
  {
  }

  /** The refusal reasons for a falsy verification result and for an unknown user. */
  lemma GateRefusalReasons(cookieHeader: Option<string>,
                           verify: string -> Verdict<Option<Claims>>, findById: UserId -> Verdict<Option<User>>)
    requires Truthy(ExtractToken(cookieHeader))
    ensures var t := ExtractToken(cookieHeader).value;
      && (verify(t) == Returned(None) ==> Gate(cookieHeader, verify, findById) == Refuse(InvalidTokenReason))
      && (verify(t) == Threw ==> Gate(cookieHeader, verify, findById) == Refuse(AuthFailedReason))
      && (verify(t).Returned? && verify(t).value.Some? ==>
            var id := verify(t).value.value.userId;
            && (findById(id) == Returned(None) ==> Gate(cookieHeader, verify, findById) == Refuse(UserNotFoundReason))
            && (findById(id) == Threw ==> Gate(cookieHeader, verify, findById) == Refuse(AuthFailedReason)))
  {
  }

  /** How the middleware ends: `next()` or `next(new Error(reason))`. */
  datatype NextCall = Proceed | ProceedWithError(message: string)

  /** The handshake socket: its id and raw `Cookie` header, and the two fields
      the gate attaches on success. */
  class HandshakeSocket {
    const id: SocketId
    const cookieHeader: Option<string>
    var user: Option<PublicUser>
    var userId: Option<UserId>

    constructor (id: SocketId, cookieHeader: Option<string>)
      ensures this.id == id && this.cookieHeader == cookieHeader
      ensures user == None && userId == None
    {
      this.id := id;
      this.cookieHeader := cookieHeader;
      user := None;
      userId := None;
    }
  }

  /** `socketAuthMiddleware(socket, next)`: the result is the single call to
      `next`. The socket's `user` and `userId` are written only on the path
      that calls `next()` without an error. */
  method SocketAuthMiddleware(socket: HandshakeSocket,
                              verify: string -> Verdict<Option<Claims>>,
                              findById: UserId -> Verdict<Option<User>>) returns (next: NextCall)
    modifies socket
    ensures var d := Gate(socket.cookieHeader, verify, findById);
      next == (if d.Admit? then Proceed else ProceedWithError(d.reason))
    ensures next.Proceed? ==> && socket.user == Some(Gate(socket.cookieHeader, verify, findById).user)
                              && socket.userId == Some(socket.user.value.id)
    ensures next.ProceedWithError? ==> socket.user == old(socket.user) && socket.userId == old(socket.userId)
    ensures next.Proceed? && FindsById(findById) ==>
      socket.userId == Some(verify(ExtractToken(socket.cookieHeader).value).value.value.userId)
  {
    var token := ExtractToken(socket.cookieHeader);
    if !Truthy(token) {
      return ProceedWithError(NoTokenReason);
    }
    var decoded := verify(token.value);
    if decoded.Threw? {
      return ProceedWithError(AuthFailedReason);
    }
    if decoded.value.None? {
      return ProceedWithError(InvalidTokenReason);
    }
    var found := findById(decoded.value.value.userId);
    if found.Threw? {
      return ProceedWithError(AuthFailedReason);
    }
    if found.value.None? {
      return ProceedWithError(UserNotFoundReason);
    }
    var user := WithoutPassword(found.value.value);
    socket.user := Some(user);
    socket.userId := Some(user.id);
    next := Proceed;
  }
}
