/** The MongoDB collections `users` and `messages`, as the controllers use
    them: inserts that run the schema validators and the unique indexes,
    look-ups by id and by e-mail, and `findByIdAndUpdate`. Query results are
    given in insertion order; the model promises no other order. */
module Store {
  import opened Common
  import opened Models

  /** `User.findById(id)`: the user whose `_id` is `id`, if any. */
  function FindById(users: seq<User>, id: UserId): (r: Option<User>)
    ensures r.Some? ==> r.value in users && r.value.id == id
    ensures r.None? ==> forall k :: 0 <= k < |users| ==> users[k].id != id
  {
    if users == [] then None
    else if users[0].id == id then Some(users[0])
    else FindById(users[1..], id)
  }

  /** `User.findOne({ email })`: the first user with that e-mail, if any. */
  function FindByEmail(users: seq<User>, email: string): (r: Option<User>)
    ensures r.Some? ==> r.value in users && r.value.email == email
    ensures r.None? ==> forall k :: 0 <= k < |users| ==> users[k].email != email
  {
    if users == [] then None
    else if users[0].email == email then Some(users[0])
    else FindByEmail(users[1..], email)
  }

  /** A `User.findById` oracle answers as the collection does: a document it
      finds has the `_id` it was asked for. */
  ghost predicate FindsById(findById: UserId -> Verdict<Option<User>>)
  {
    forall id :: findById(id).Returned? && findById(id).value.Some? ==> findById(id).value.value.id == id
  }

  /** The look-up of a users collection is such an oracle. */
  lemma CollectionFindsById(users: seq<User>)
    ensures FindsById(id => Returned(FindById(users, id)))
  {
  }

  /** `User.exists({ _id: id })`, which holds exactly when `User.findById(id)`
      finds a document. */
  predicate UserExists(users: seq<User>, id: UserId)
    ensures UserExists(users, id) <==> FindById(users, id).Some?
  {
    exists k :: 0 <= k < |users| && users[k].id == id
  }

  /** The users collection after `findByIdAndUpdate(id, { profilePic: url })`:
      the matching document gets the new picture and a new `updatedAt`. */
  function SetProfilePic(users: seq<User>, id: UserId, url: string, now: Timestamp): (r: seq<User>)
    ensures |r| == |users|
    ensures forall k :: 0 <= k < |r| ==>
      r[k] == if users[k].id == id then users[k].(profilePic := url, updatedAt := now) else users[k]
  {
    if users == [] then []
    else [if users[0].id == id then users[0].(profilePic := url, updatedAt := now) else users[0]]
         + SetProfilePic(users[1..], id, url, now)
  }

  /** What `save()` of a new user document checks: the schema validators and
      the unique indexes on `_id` and `email`. */
  predicate Insertable(users: seq<User>, u: User)
    ensures Insertable(users, u) <==>
      && UserSchemaValid(u)
      && !UserExists(users, u.id)
      && forall k :: 0 <= k < |users| ==> users[k].email != u.email
    ensures Insertable(users, u) && UniqueEmails(users) && UniqueUserIds(users) ==>
      UniqueEmails(users + [u]) && UniqueUserIds(users + [u])
  {
    UserSchemaValid(u) && FindById(users, u.id).None? && FindByEmail(users, u.email).None?
  }

  /** The document `findByIdAndUpdate(..., { new: true })` resolves to. */
  function UpdatedDocument(users: seq<User>, id: UserId, url: string, now: Timestamp): (r: Option<User>)
    ensures r.Some? <==> UserExists(users, id)
    ensures r.Some? ==> r.value == FindById(users, id).value.(profilePic := url, updatedAt := now)
  {
    match FindById(users, id)
    case None => None
    case Some(u) => Some(u.(profilePic := url, updatedAt := now))
  }

  /** The position of the first user with that id. */
  function FindIndex(users: seq<User>, id: UserId): (k: nat)
    requires UserExists(users, id)
    ensures k < |users| && users[k].id == id && FindById(users, id) == Some(users[k])
  {
    if users[0].id == id then 0
    else
      assert UserExists(users[1..], id) by {
        var j :| 0 <= j < |users| && users[j].id == id;
        assert users[1..][j - 1].id == id;
      }
      1 + FindIndex(users[1..], id)
  }

  /** Changing a profile picture leaves every id, e-mail, name and password in
      place, so the unique indexes and the schema still hold. */
  lemma SetProfilePicKeepsKeys(users: seq<User>, id: UserId, url: string, now: Timestamp)
    requires UniqueEmails(users) && UniqueUserIds(users)
    requires forall k :: 0 <= k < |users| ==> UserSchemaValid(users[k])
    ensures var r := SetProfilePic(users, id, url, now);
      && UniqueEmails(r) && UniqueUserIds(r)
      && forall k :: 0 <= k < |r| ==> UserSchemaValid(r[k])
  {
    var r := SetProfilePic(users, id, url, now);
    assert forall k :: 0 <= k < |r| ==>
      r[k].id == users[k].id && r[k].email == users[k].email && r[k].password == users[k].password
        && r[k].fullName == users[k].fullName;
  }

  predicate MessageIdFree(messages: seq<Message>, id: MessageId)
  {
    forall k :: 0 <= k < |messages| ==> messages[k].id != id
  }

  /** What `save()` of a new message document checks: the schema validators
      and the unique index on `_id`. */
  predicate MessageInsertable(messages: seq<Message>, m: Message)
  {
    MessageSchemaValid(m) && MessageIdFree(messages, m.id)
  }

  /** Both collections. */
  class Database {
    var users: seq<User>
    var messages: seq<Message>

    /** What the schema validators and unique indexes guarantee of every stored document. */
    ghost predicate Valid()
      reads this
    {
      && UniqueEmails(users)
      && UniqueUserIds(users)
      && (forall k :: 0 <= k < |users| ==> UserSchemaValid(users[k]))
      && (forall k :: 0 <= k < |messages| ==> MessageSchemaValid(messages[k]))
    }

    constructor ()
      ensures Valid()
      ensures users == [] && messages == []
    {
      users := [];
      messages := [];
    }

    /** `newUser.save()`: fails on a schema violation or a duplicate `_id` or
        `email` (the unique indexes), otherwise appends the document. */
    method InsertUser(u: User) returns (saved: bool)
      requires Valid()
      modifies this
      ensures Valid()
      ensures saved <==> Insertable(old(users), u)
      ensures users == (if saved then old(users) + [u] else old(users))
      ensures messages == old(messages)
    {
      saved := Insertable(users, u);
      if saved {
        users := users + [u];
      }
    }

    /** `newMessage.save()`: fails when the text is over the limit or the
        `_id` is taken, otherwise appends the document. */
    method InsertMessage(m: Message) returns (saved: bool)
      requires Valid()
      modifies this
      ensures Valid()
      ensures saved <==> MessageInsertable(old(messages), m)
      ensures messages == (if saved then old(messages) + [m] else old(messages))
      ensures users == old(users)
    {
      saved := MessageInsertable(messages, m);
      if saved {
        messages := messages + [m];
      }
    }

    /** `User.findByIdAndUpdate(id, { profilePic: url }, { new: true })`: the
        updated document, or `None` when no user has that id. Update
        validators do not run, and the returned document is not projected. */
    method UpdateProfilePic(id: UserId, url: string, now: Timestamp) returns (updated: Option<User>)
      requires Valid()
      modifies this
      ensures Valid()
      ensures users == SetProfilePic(old(users), id, url, now)
      ensures messages == old(messages)
      ensures updated == UpdatedDocument(old(users), id, url, now)
      ensures updated.Some? ==> updated.value in users
    {
      ghost var before := users;
      updated := UpdatedDocument(users, id, url, now);
      users := SetProfilePic(users, id, url, now);
      SetProfilePicKeepsKeys(before, id, url, now);
      if updated.Some? {
        var k := FindIndex(before, id);
        assert users[k] == updated.value;
      }
    }
  }
}
