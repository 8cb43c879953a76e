/** The message handlers of backend/src/controllers/message.controller.js:
    `getAllContacts`, `getMessagesByUserId`, `sendMessage` and
    `getChatPartners`. */
module MessageController {
  import opened Common
  import opened Models
  import opened Store
  import opened Http
  import opened Presence

  const NoContentMessage: string := "Text or image is required."
  const SelfMessageMessage: string := "Cannot send messages to yourself."
  const ReceiverNotFoundMessage: string := "Receiver not found."

  /** `User.find({ _id: <keep> }).select("-password")`, in collection order. */
  function PublicUsersWhere(users: seq<User>, keep: UserId -> bool): (r: seq<PublicUser>)
    ensures |r| <= |users|
    ensures forall k :: 0 <= k < |r| ==> keep(r[k].id)
    ensures forall k :: 0 <= k < |users| && keep(users[k].id) ==> WithoutPassword(users[k]) in r
    ensures forall p :: p in r ==> exists k :: 0 <= k < |users| && keep(users[k].id) && p == WithoutPassword(users[k])
  {
    if users == [] then []
    else
      var rest := PublicUsersWhere(users[1..], keep);
      assert forall k :: 1 <= k < |users| ==> users[k] == users[1..][k - 1];
      if keep(users[0].id) then [WithoutPassword(users[0])] + rest else rest
  }

  /** On a collection with unique ids, the public views a filter selects are
      distinct. */
  lemma {:induction false} PublicUsersWhereDistinct(users: seq<User>, keep: UserId -> bool)
    requires UniqueUserIds(users)
    ensures NoDuplicates(PublicUsersWhere(users, keep))
  {
    if users != [] {
      var tail := users[1..];
      assert UniqueUserIds(tail) by {
        forall i, j | 0 <= i < j < |tail| ensures tail[i].id != tail[j].id {
          assert tail[i] == users[i + 1] && tail[j] == users[j + 1];
        }
      }
      PublicUsersWhereDistinct(tail, keep);
      var rest := PublicUsersWhere(tail, keep);
      if keep(users[0].id) {
        var x := WithoutPassword(users[0]);
        forall j | 0 <= j < |rest| ensures rest[j] != x {
          assert rest[j] in rest;
          var k :| 0 <= k < |tail| && keep(tail[k].id) && rest[j] == WithoutPassword(tail[k]);
          assert tail[k] == users[k + 1];
        }
        NoDuplicatesPrepend(x, rest);
      }
    }
  }

  lemma NoDuplicatesPrepend(x: PublicUser, s: seq<PublicUser>)
    requires NoDuplicates(s) && forall j :: 0 <= j < |s| ==> s[j] != x
    ensures NoDuplicates([x] + s)
  {
    forall i, j | 0 <= i < j < |[x] + s| ensures ([x] + s)[i] != ([x] + s)[j] {
      if i == 0 {
        assert ([x] + s)[j] == s[j - 1];
      } else {
        assert ([x] + s)[i] == s[i - 1] && ([x] + s)[j] == s[j - 1];
      }
    }
  }

  // ------------------------------------------------------- getAllContacts

  /** Every user except the one asking, without passwords. */
  function Contacts(users: seq<User>, me: UserId): (r: seq<PublicUser>)
    ensures forall k :: 0 <= k < |r| ==> r[k].id != me
    ensures forall k :: 0 <= k < |users| && users[k].id != me ==> WithoutPassword(users[k]) in r
    ensures forall p :: p in r ==> exists k :: 0 <= k < |users| && users[k].id != me && p == WithoutPassword(users[k])
  {
    PublicUsersWhere(users, id => id != me)
  }

  /** `getAllContacts`: 200 with every account but the request's own, which
      is the only one left out. */
  function GetAllContacts(users: seq<User>, me: UserId): (r: HttpResponse)
    ensures r.status == 200 && r.body.PublicUsersBody? && r.cookies == []
    ensures forall k :: 0 <= k < |users| ==> (WithoutPassword(users[k]) in r.body.users <==> users[k].id != me)
    ensures forall p :: p in r.body.users ==> exists k :: 0 <= k < |users| && p == WithoutPassword(users[k])
  {
    Reply(200, PublicUsersBody(Contacts(users, me)))
  }

  // -------------------------------------------------- getMessagesByUserId

  /** The message runs between `a` and `b`, in either direction. */
  predicate Between(m: Message, a: UserId, b: UserId)
  {
    (m.senderId == a && m.receiverId == b) || (m.senderId == b && m.receiverId == a)
  }

  /** The `$or` query of `getMessagesByUserId`, in collection order. */
  function Conversation(messages: seq<Message>, me: UserId, other: UserId): (r: seq<Message>)
    ensures |r| <= |messages|
    ensures forall m :: m in r <==> m in messages && Between(m, me, other)
  {
    if messages == [] then []
    else
      var rest := Conversation(messages[1..], me, other);
      assert messages == [messages[0]] + messages[1..];
      if Between(messages[0], me, other) then [messages[0]] + rest else rest
  }

  /** `getMessagesByUserId`: 200 with the messages between the two users, and
      the same list whichever of the two asks. */
  function GetMessagesByUserId(messages: seq<Message>, me: UserId, other: UserId): (r: HttpResponse)
    ensures r.status == 200 && r.body.MessagesBody? && r.cookies == []
    ensures forall m :: m in r.body.messages <==> m in messages && Between(m, me, other)
    ensures r.body.messages == Conversation(messages, other, me)
  {
    ConversationSymmetric(messages, me, other);
    Reply(200, MessagesBody(Conversation(messages, me, other)))
  }

  /** Both participants read the same conversation, message for message and
      in the same order. */
  lemma {:induction false} ConversationSymmetric(messages: seq<Message>, a: UserId, b: UserId)
    ensures Conversation(messages, a, b) == Conversation(messages, b, a)
  {
    if messages != [] {
      ConversationSymmetric(messages[1..], a, b);
    }
  }

  /** A conversation holds nothing from a third party. */
  lemma ConversationIsPrivate(messages: seq<Message>, a: UserId, b: UserId)
    ensures forall m :: m in Conversation(messages, a, b) ==>
      (m.senderId == a || m.senderId == b) && (m.receiverId == a || m.receiverId == b)
  {
  }

  // ------------------------------------------------------ getChatPartners

  /** The message was sent or received by `me`. */
  predicate Involves(m: Message, me: UserId)
  {
    m.senderId == me || m.receiverId == me
  }

  /** The other party of a message `me` sent or received. */
  function Partner(m: Message, me: UserId): UserId
  {
    if m.senderId == me then m.receiverId else m.senderId
  }

  /** The partners of `me`'s messages, in collection order, repeats included. */
  function PartnerIds(messages: seq<Message>, me: UserId): (r: seq<UserId>)
    ensures forall x :: x in r ==> exists m :: m in messages && Involves(m, me) && x == Partner(m, me)
    ensures forall m :: m in messages && Involves(m, me) ==> Partner(m, me) in r
  {
    if messages == [] then []
    else
      var rest := PartnerIds(messages[1..], me);
      assert messages == [messages[0]] + messages[1..];
      if Involves(messages[0], me) then [Partner(messages[0], me)] + rest else rest
  }

  /** `chatPartnerIds`: the partner ids are distinct, are exactly the other
      parties of `me`'s messages, and come in the order those parties first
      appear. */
  function ChatPartnerIds(messages: seq<Message>, me: UserId): (r: seq<UserId>)
    ensures NoDuplicates(r)
    ensures forall m :: m in messages && Involves(m, me) ==> Partner(m, me) in r
    ensures forall x :: x in r ==> exists m :: m in messages && Involves(m, me) && x == Partner(m, me)
    ensures InFirstOccurrenceOrder(PartnerIds(messages, me), r)
  {
    var p := PartnerIds(messages, me);
    DedupKeepsFirstOccurrenceOrder(p);
    var r := Dedup(p);
    assert forall m :: m in messages && Involves(m, me) ==> Partner(m, me) in r by {
      forall m | m in messages && Involves(m, me)
        ensures Partner(m, me) in r
      {
        var k :| 0 <= k < |p| && p[k] == Partner(m, me);
      }
    }
    assert forall x :: x in r ==> exists m :: m in messages && Involves(m, me) && x == Partner(m, me) by {
      forall x | x in r
        ensures exists m :: m in messages && Involves(m, me) && x == Partner(m, me)
      {
        var k :| 0 <= k < |r| && r[k] == x;
        assert x in p;
      }
    }
    r
  }

  /** Since nobody can message themselves, `me` is never one of its own partners. */
  lemma NotOwnPartner(messages: seq<Message>, me: UserId)
    requires forall m :: m in messages ==> m.senderId != m.receiverId
    ensures me !in ChatPartnerIds(messages, me)
  {
  }

  /** `User.find({ _id: { $in: chatPartnerIds } }).select("-password")`. */
  function ChatPartners(users: seq<User>, messages: seq<Message>, me: UserId): (r: seq<PublicUser>)
    ensures forall k :: 0 <= k < |r| ==> r[k].id in ChatPartnerIds(messages, me)
  {
    var ids := ChatPartnerIds(messages, me);
    PublicUsersWhere(users, id => id in ids)
  }

  /** `getChatPartners`: 200 with exactly the users `me` has exchanged a
      message with, each once, as stored and without password. */
  function GetChatPartners(users: seq<User>, messages: seq<Message>, me: UserId): (r: HttpResponse)
    ensures r.status == 200 && r.body.PublicUsersBody? && r.cookies == []
    ensures forall k :: 0 <= k < |users| ==>
      (WithoutPassword(users[k]) in r.body.users <==>
         exists m :: m in messages && Involves(m, me) && Partner(m, me) == users[k].id)
    ensures forall p :: p in r.body.users ==> exists k :: 0 <= k < |users| && p == WithoutPassword(users[k])
    ensures UniqueUserIds(users) ==> NoDuplicates(r.body.users)
  {
    var ids := ChatPartnerIds(messages, me);
    assert UniqueUserIds(users) ==> NoDuplicates(PublicUsersWhere(users, id => id in ids)) by {
      if UniqueUserIds(users) {
        PublicUsersWhereDistinct(users, id => id in ids);
      }
    }
    var r := Reply(200, PublicUsersBody(ChatPartners(users, messages, me)));
    assert forall k :: 0 <= k < |users| ==>
      (WithoutPassword(users[k]) in r.body.users <==>
         exists m :: m in messages && Involves(m, me) && Partner(m, me) == users[k].id) by {
      forall k | 0 <= k < |users| {
        ChatPartnersAreCorrespondents(users, messages, me, k);
      }
    }
    r
  }

  /** A user is listed exactly when `me` has exchanged a message with them. */
  lemma ChatPartnersAreCorrespondents(users: seq<User>, messages: seq<Message>, me: UserId, k: nat)
    requires k < |users|
    ensures WithoutPassword(users[k]) in ChatPartners(users, messages, me) <==>
      exists m :: m in messages && Involves(m, me) && Partner(m, me) == users[k].id
  {
    var ids := ChatPartnerIds(messages, me);
    var r := ChatPartners(users, messages, me);
    if WithoutPassword(users[k]) in r {
      var j :| 0 <= j < |r| && r[j] == WithoutPassword(users[k]);
      assert users[k].id in ids;
    }
  }

  // ---------------------------------------------------------- sendMessage

  /** What `sendMessage` stores, the response it sends, and the push it makes. */
  datatype SendOutcome = SendOutcome(stored: Option<Message>, response: HttpResponse, push: Option<Emission>)

  function Rejected(status: int, body: Body): SendOutcome
  {
    SendOutcome(None, Reply(status, body), None)
  }

  /** The image URL to store: the upload's `secure_url` when an image was sent. */
  function UploadedImage(image: Option<string>, upload: Uploader): (r: Verdict<Option<string>>)
    ensures !Truthy(image) ==> r == Returned(None)
    ensures Truthy(image) ==> (r.Threw? <==> upload(image.value).Threw?)
    ensures Truthy(image) && r.Returned? ==> r.value == Some(upload(image.value).value)
  {
    if !Truthy(image) then Returned(None)
    else match upload(image.value)
         case Threw => Threw
         case Returned(url) => Returned(Some(url))
  }

  /** The behaviour of `sendMessage` from `senderId` (the authenticated user)
      to `receiverId` (the route parameter), with the new document's id and
      the clock as parameters and the registry as it stands. */
  function SendSpec(users: seq<User>, messages: seq<Message>, presence: PresenceState,
                    senderId: UserId, receiverId: UserId, text: Option<string>, image: Option<string>,
                    upload: Uploader, newId: MessageId, now: Timestamp): (o: SendOutcome)
    ensures o.response.status in {201, 400, 404, 500}
    ensures !Truthy(text) && !Truthy(image) ==> o == Rejected(400, MessageBody(NoContentMessage))
    ensures (Truthy(text) || Truthy(image)) && senderId == receiverId ==>
      o == Rejected(400, MessageBody(SelfMessageMessage))
    ensures (Truthy(text) || Truthy(image)) && senderId != receiverId && !UserExists(users, receiverId) ==>
      o == Rejected(404, MessageBody(ReceiverNotFoundMessage))
    ensures o.response.status == 500 ==> o == Rejected(500, ErrorBody(ServerErrorMessage))
    ensures (Truthy(text) || Truthy(image)) && senderId != receiverId && UserExists(users, receiverId)
            && UploadedImage(image, upload).Threw? ==>
      o == Rejected(500, ErrorBody(ServerErrorMessage))
    ensures (Truthy(text) || Truthy(image)) && senderId != receiverId && UserExists(users, receiverId)
            && UploadedImage(image, upload).Returned? ==>
      var m := NewMessage(newId, senderId, receiverId, text, UploadedImage(image, upload).value, now);
      && (MessageInsertable(messages, m) ==> o.stored == Some(m) && o.response == Reply(201, MessageDocBody(m)))
      && (!MessageInsertable(messages, m) ==> o == Rejected(500, ErrorBody(ServerErrorMessage)))
    ensures o.response.status == 201 <==> o.stored.Some?
    ensures o.stored.Some? ==>
      && (Truthy(text) || Truthy(image)) && senderId != receiverId && UserExists(users, receiverId)
      && UploadedImage(image, upload).Returned?
      && o.stored.value == NewMessage(newId, senderId, receiverId, text, UploadedImage(image, upload).value, now)
      && MessageInsertable(messages, o.stored.value)
      && o.response.body == MessageDocBody(o.stored.value)
    ensures o.push.Some? <==> o.stored.Some? && Truthy(Lookup(presence, receiverId))
    ensures o.push.Some? ==>
      o.push.value == Direct(Lookup(presence, receiverId).value, NewMessageEvent, MessagePayload(o.stored.value))
  {
    if !Truthy(text) && !Truthy(image) then Rejected(400, MessageBody(NoContentMessage))
    else if senderId == receiverId then Rejected(400, MessageBody(SelfMessageMessage))
    else if !UserExists(users, receiverId) then Rejected(404, MessageBody(ReceiverNotFoundMessage))
    else
      match UploadedImage(image, upload)
      case Threw => Rejected(500, ErrorBody(ServerErrorMessage))
      case Returned(imageUrl) =>
        var m := NewMessage(newId, senderId, receiverId, text, imageUrl, now);
        if !MessageInsertable(messages, m) then Rejected(500, ErrorBody(ServerErrorMessage))
        else
          var target := Lookup(presence, receiverId);
          var push := if Truthy(target) then Some(Direct(target.value, NewMessageEvent, MessagePayload(m))) else None;
          SendOutcome(Some(m), Reply(201, MessageDocBody(m)), push)
  }

  /** A push goes to the receiver's socket only: never to the sender's, when
      distinct users hold distinct sockets. */
  lemma PushNeverReachesSender(users: seq<User>, messages: seq<Message>, presence: PresenceState,
                               senderId: UserId, receiverId: UserId, text: Option<string>, image: Option<string>,
                               upload: Uploader, newId: MessageId, now: Timestamp)
    requires DistinctSockets(presence) && senderId in presence.sockets
    ensures var o := SendSpec(users, messages, presence, senderId, receiverId, text, image, upload, newId, now);
      o.push.Some? ==> o.push.value.target != presence.sockets[senderId]
  {
  }

  /** Whether the receiver is online decides only the push: what is stored
      and what the sender is told are the same either way, and an offline
      receiver gets no push. */
  lemma PresenceDecidesOnlyThePush(users: seq<User>, messages: seq<Message>, online: PresenceState,
                                   offline: PresenceState, senderId: UserId, receiverId: UserId,
                                   text: Option<string>, image: Option<string>,
                                   upload: Uploader, newId: MessageId, now: Timestamp)
    requires receiverId !in offline.sockets
    ensures var a := SendSpec(users, messages, online, senderId, receiverId, text, image, upload, newId, now);
            var b := SendSpec(users, messages, offline, senderId, receiverId, text, image, upload, newId, now);
      a.stored == b.stored && a.response == b.response && b.push.None?
  {
  }

  /** A message between two distinct users lands in the conversation both
      read, and makes each a chat partner of the other. */
  lemma NewMessageIsVisible(messages: seq<Message>, m: Message)
    requires m.senderId != m.receiverId
    ensures var after := messages + [m];
      && m in Conversation(after, m.senderId, m.receiverId)
      && m in Conversation(after, m.receiverId, m.senderId)
      && m.receiverId in ChatPartnerIds(after, m.senderId)
      && m.senderId in ChatPartnerIds(after, m.receiverId)
  {
    var after := messages + [m];
    assert m in after;
  }

  /** What `sendMessage` stores is visible to both parties afterwards. */
  lemma SentMessageIsVisible(users: seq<User>, messages: seq<Message>, presence: PresenceState,
                             senderId: UserId, receiverId: UserId, text: Option<string>, image: Option<string>,
                             upload: Uploader, newId: MessageId, now: Timestamp)
    ensures var o := SendSpec(users, messages, presence, senderId, receiverId, text, image, upload, newId, now);
      o.stored.Some? ==>
        var after := messages + [o.stored.value];
        && o.stored.value in Conversation(after, senderId, receiverId)
        && receiverId in ChatPartnerIds(after, senderId)
        && senderId in ChatPartnerIds(after, receiverId)
  {
    var o := SendSpec(users, messages, presence, senderId, receiverId, text, image, upload, newId, now);
    if o.stored.Some? {
      NewMessageIsVisible(messages, o.stored.value);
    }
  }

  /** `sendMessage(req, res)`: validate, upload, store, then push to the
      receiver if online. Nothing is stored or pushed on an error path, and at
      most one push is made. */
  method SendMessage(db: Database, io: SocketServer, senderId: UserId, receiverId: UserId,
                     text: Option<string>, image: Option<string>, upload: Uploader,
                     newId: MessageId, now: Timestamp) returns (response: HttpResponse)
    requires db.Valid() && io.Valid()
    modifies db, io
    ensures db.Valid() && io.Valid()
    ensures var o := SendSpec(old(db.users), old(db.messages), old(io.State()),
                              senderId, receiverId, text, image, upload, newId, now);
      && response == o.response
      && db.messages == old(db.messages) + (if o.stored.Some? then [o.stored.value] else [])
      && io.outbox == old(io.outbox) + (if o.push.Some? then [o.push.value] else [])
    ensures db.users == old(db.users) && io.State() == old(io.State())
  {
    if !Truthy(text) && !Truthy(image) {
      return Reply(400, MessageBody(NoContentMessage));
    }
    if senderId == receiverId {
      return Reply(400, MessageBody(SelfMessageMessage));
    }
    if !UserExists(db.users, receiverId) {
      return Reply(404, MessageBody(ReceiverNotFoundMessage));
    }
    var imageUrl := UploadedImage(image, upload);
    if imageUrl.Threw? {
      return Reply(500, ErrorBody(ServerErrorMessage));
    }
    var newMessage := NewMessage(newId, senderId, receiverId, text, imageUrl.value, now);
    var saved := db.InsertMessage(newMessage);
    if !saved {
      return Reply(500, ErrorBody(ServerErrorMessage));
    }
    var receiverSocketId := io.GetReceiverSocketId(receiverId);
    if Truthy(receiverSocketId) {
      io.EmitTo(receiverSocketId.value, NewMessageEvent, MessagePayload(newMessage));
    }
    response := Reply(201, MessageDocBody(newMessage));
  }
}
