/** The two Mongoose schemas: `User` (backend/src/models/User.js) and
    `Message` (backend/src/models/Message.js), with the validators and the
    setters that `save()` applies. */
module Models {
  import opened Common
  import opened JsText

  const MinPasswordLength: nat := 6
  const MaxTextLength: nat := 2000

  /** A stored user document. `createdAt`/`updatedAt` come from the schema's
      `timestamps` option. */
  datatype User = User(
    id: UserId,
    email: string,
    fullName: string,
    password: string,
    profilePic: string,
    createdAt: Timestamp,
    updatedAt: Timestamp)

  /** A user document read with `.select("-password")`. */
  datatype PublicUser = PublicUser(
    id: UserId,
    email: string,
    fullName: string,
    profilePic: string,
    createdAt: Timestamp,
    updatedAt: Timestamp)

  function WithoutPassword(u: User): PublicUser
  {
    PublicUser(u.id, u.email, u.fullName, u.profilePic, u.createdAt, u.updatedAt)
  }

  /** `new User({ fullName, email, password })` at time `now`: `profilePic`
      takes its schema default and both timestamps are set. */
  function NewUser(id: UserId, fullName: string, email: string, password: string, now: Timestamp): (u: User)
    ensures u.profilePic == ""
    ensures u.createdAt == now && u.updatedAt == now
    ensures WithoutPassword(u) == PublicUser(id, email, fullName, "", now, now)
  {
    User(id, email, fullName, password, "", now, now)
  }

  /** The validators `save()` runs on a user: `email`, `fullName` and
      `password` are required (an empty string fails `required`) and the stored
      password is at least six UTF-16 code units long, which already makes it
      non-empty. */
  predicate UserSchemaValid(u: User)
    ensures UserSchemaValid(u) <==> u.email != "" && u.fullName != "" && JsLength(u.password) >= MinPasswordLength
  {
    && u.email != ""
    && u.fullName != ""
    && u.password != ""
    && JsLength(u.password) >= MinPasswordLength
  }

  /** The `unique: true` index on `email`. */
  predicate UniqueEmails(users: seq<User>)
  {
    forall i, j :: 0 <= i < j < |users| ==> users[i].email != users[j].email
  }

  /** The implicit unique index on `_id`. */
  predicate UniqueUserIds(users: seq<User>)
  {
    forall i, j :: 0 <= i < j < |users| ==> users[i].id != users[j].id
  }

  /** A stored message document. `senderId` and `receiverId` are required, so
      they are not optional here; `text` and `image` are optional. */
  datatype Message = Message(
    id: MessageId,
    senderId: UserId,
    receiverId: UserId,
    text: Option<string>,
    image: Option<string>,
    createdAt: Timestamp,
    updatedAt: Timestamp)

  /** `new Message({ senderId, receiverId, text, image })` at time `now`: the
      `trim` setter runs on `text` when it is given, and both timestamps are set. */
  function NewMessage(id: MessageId, senderId: UserId, receiverId: UserId,
                      text: Option<string>, image: Option<string>, now: Timestamp): (m: Message)
    ensures m.senderId == senderId && m.receiverId == receiverId && m.image == image
    ensures m.text.Some? <==> text.Some?
    ensures m.createdAt == now && m.updatedAt == now
  {
    Message(id, senderId, receiverId, if text.Some? then Some(Trim(text.value)) else None, image, now, now)
  }

  /** The validator `save()` runs on a message: `maxlength: 2000` on the
      (already trimmed) text. */
  predicate MessageSchemaValid(m: Message)
    ensures m.text.None? ==> MessageSchemaValid(m)
    ensures m.text.Some? && |m.text.value| > MaxTextLength ==> !MessageSchemaValid(m)
    ensures m.text.Some? && 2 * |m.text.value| <= MaxTextLength ==> MessageSchemaValid(m)
  {
    m.text.Some? ==> JsLength(m.text.value) <= MaxTextLength
  }

  /** Text is stored trimmed: trimming the stored text again changes nothing. */
  lemma StoredTextIsTrimmed(id: MessageId, s: UserId, r: UserId, text: Option<string>, image: Option<string>, now: Timestamp)
    ensures var m := NewMessage(id, s, r, text, image, now);
            m.text.Some? ==> Trim(m.text.value) == m.text.value
  {
    if text.Some? {
      TrimIdempotent(text.value);
    }
  }

  /** White-space-only text is a truthy JavaScript string, yet it is stored as "". */
  lemma WhitespaceTextStoredEmpty(id: MessageId, s: UserId, r: UserId, t: string, image: Option<string>, now: Timestamp)
    requires t != "" && AllWhitespace(t)
    ensures Truthy(Some(t))
    ensures NewMessage(id, s, r, Some(t), image, now).text == Some("")
  {
    AllWhitespaceTrimsAway(t);
  }

  /** The 2000-unit limit is checked after trimming: any text whose trimmed
      form fits is accepted, however much white space surrounds it, and text
      that fits before trimming always fits after. */
  lemma MaxLengthAfterTrim(id: MessageId, s: UserId, r: UserId, t: string, image: Option<string>, now: Timestamp)
    ensures MessageSchemaValid(NewMessage(id, s, r, Some(t), image, now)) <==> JsLength(Trim(t)) <= MaxTextLength
    ensures JsLength(t) <= MaxTextLength ==> MessageSchemaValid(NewMessage(id, s, r, Some(t), image, now))
  {
    var i, j :| 0 <= i <= j <= |t| && Trim(t) == t[i..j];
    JsLengthSlice(t, i, j);
  }

  /** Neither `text` nor `image` is required by the schema. */
  lemma SchemaAllowsEmptyMessage(id: MessageId, s: UserId, r: UserId, now: Timestamp)
    ensures MessageSchemaValid(NewMessage(id, s, r, None, None, now))
  {
  }

  lemma {:induction false} JsLengthConcat(a: string, b: string)
    ensures JsLength(a + b) == JsLength(a) + JsLength(b)
    decreases |b|
  {
    if b != [] {
      assert (a + b)[..|a + b| - 1] == a + b[..|b| - 1];
      JsLengthConcat(a, b[..|b| - 1]);
    } else {
      assert a + b == a;
    }
  }

  lemma JsLengthSplit(s: string, i: nat)
    requires i <= |s|
    ensures JsLength(s) == JsLength(s[..i]) + JsLength(s[i..])
  {
    assert s[..i] + s[i..] == s;
    JsLengthConcat(s[..i], s[i..]);
  }

  lemma JsLengthSlice(s: string, i: nat, j: nat)
    requires i <= j <= |s|
    ensures JsLength(s[i..j]) <= JsLength(s)
  {
    var p := s[..j];
    JsLengthSplit(s, j);
    JsLengthSplit(p, i);
    assert p[i..] == s[i..j];
  }
}
