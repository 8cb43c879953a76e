/** The presence registry of backend/src/lib/socket.js: the process-wide
    object `userSocketMap` from user id to socket id, the `connection` and
    `disconnect` handlers that update it and broadcast `Object.keys` of it,
    and `getReceiverSocketId`. Neither handler awaits, so each runs to
    completion on Node's single thread and is modelled as one sequential step. */
module Presence {
  import opened Common
  import opened Models
  import ObjectKeys
  import SocketAuth
  import Store

  /** The contents of `userSocketMap` and the order in which its current keys
      were created (which decides the order of `Object.keys`). */
  datatype PresenceState = PresenceState(sockets: map<UserId, SocketId>, order: seq<UserId>)

  /** `order` lists every key of the map exactly once. */
  ghost predicate Consistent(p: PresenceState)
  {
    NoDuplicates(p.order) && forall u :: u in p.sockets <==> u in p.order
  }

  /** `const userSocketMap = {}`. */
  const Empty: PresenceState := PresenceState(map[], [])

  /** `userSocketMap[userId]`, with `None` for `undefined`. */
  function Lookup(p: PresenceState, u: UserId): (r: Option<SocketId>)
    ensures r.Some? <==> u in p.sockets
    ensures r.Some? ==> r.value == p.sockets[u]
    ensures Consistent(p) ==> (r.Some? <==> u in OnlineUsers(p))
  {
    if u in p.sockets then Some(p.sockets[u]) else None
  }

  /** `Object.keys(userSocketMap)`: the payload of every `getOnlineUsers`
      broadcast, which lists exactly the users in the map, each once. */
  function OnlineUsers(p: PresenceState): (r: seq<UserId>)
    ensures multiset(r) == multiset(p.order)
    ensures Consistent(p) ==> NoDuplicates(r)
    ensures Consistent(p) ==> forall u :: u in r <==> u in p.sockets
  {
    var r := ObjectKeys.OwnKeys(p.order);
    ObjectKeys.OwnKeysPermutation(p.order);
    assert Consistent(p) ==> NoDuplicates(r) by {
      if Consistent(p) {
        NoDuplicatesOfPermutation(r, p.order);
      }
    }
    assert forall u :: u in r <==> u in p.order by {
      forall u ensures u in r <==> u in p.order {
        assert u in r <==> u in multiset(r);
        assert u in p.order <==> u in multiset(p.order);
      }
    }
    r
  }

  /** `order` without `u`. */
  function Without(order: seq<UserId>, u: UserId): (r: seq<UserId>)
    ensures forall v :: v in r <==> v in order && v != u
    ensures NoDuplicates(order) ==> NoDuplicates(r)
    ensures u !in order ==> r == order
  {
    if order == [] then []
    else if order[0] == u then Without(order[1..], u)
    else
      var rest := Without(order[1..], u);
      assert NoDuplicates(order) ==> order[0] !in order[1..];
      [order[0]] + rest
  }

  /** `userSocketMap[userId] = socket.id`: inserts or overwrites the entry of
      `u`; a new key is created last, an existing key keeps its place. */
  function Register(p: PresenceState, u: UserId, s: SocketId): (r: PresenceState)
    ensures Consistent(p) ==> Consistent(r)
    ensures Lookup(r, u) == Some(s)
    ensures forall v :: v != u ==> Lookup(r, v) == Lookup(p, v)
  {
    PresenceState(p.sockets[u := s], if u in p.sockets then p.order else p.order + [u])
  }

  /** `delete userSocketMap[userId]`: removes the entry of `u`, whatever
      socket id it holds. */
  function Unregister(p: PresenceState, u: UserId): (r: PresenceState)
    ensures Consistent(p) ==> Consistent(r)
    ensures Lookup(r, u) == None
    ensures forall v :: v != u ==> Lookup(r, v) == Lookup(p, v)
  {
    PresenceState(p.sockets - {u}, Without(p.order, u))
  }

  /** The connection-scoped alternative: remove the entry of `u` only while it
      still belongs to the disconnecting socket `s`. */
  function UnregisterScoped(p: PresenceState, u: UserId, s: SocketId): (r: PresenceState)
    ensures Consistent(p) ==> Consistent(r)
    ensures Lookup(r, u) == if Lookup(p, u) == Some(s) then None else Lookup(p, u)
    ensures forall v :: v != u ==> Lookup(r, v) == Lookup(p, v)
  {
    if Lookup(p, u) == Some(s) then Unregister(p, u) else p
  }

  /** The registry starts empty: nobody is online and every look-up is absent. */
  lemma EmptyRegistry(u: UserId)
    ensures Consistent(Empty)
    ensures Lookup(Empty, u) == None
    ensures OnlineUsers(Empty) == []
  {
  }

  /** All keys are ObjectId strings, as `socket.userId` always is. */
  predicate KeyedByObjectIds(p: PresenceState)
  {
    forall k :: 0 <= k < |p.order| ==> ObjectKeys.IsObjectIdString(p.order[k])
  }

  /** With ObjectId keys, `Object.keys` lists users in the order their
      entries were created. */
  lemma OnlineUsersInCreationOrder(p: PresenceState)
    requires KeyedByObjectIds(p)
    ensures OnlineUsers(p) == p.order
  {
    forall k | 0 <= k < |p.order| ensures !ObjectKeys.IsArrayIndex(p.order[k]) {
      ObjectKeys.ObjectIdIsNotArrayIndex(p.order[k]);
    }
    ObjectKeys.OwnKeysCreationOrder(p.order);
  }

  /** A first connection appends the user to the broadcast list; a
      reconnection replaces the socket id without moving the user or changing
      the number of online users. */
  lemma RegisterBroadcastOrder(p: PresenceState, u: UserId, s: SocketId)
    requires Consistent(p) && KeyedByObjectIds(p) && ObjectKeys.IsObjectIdString(u)
    ensures u !in p.sockets ==> OnlineUsers(Register(p, u, s)) == OnlineUsers(p) + [u]
    ensures u in p.sockets ==> OnlineUsers(Register(p, u, s)) == OnlineUsers(p)
    ensures u in p.sockets ==> |Register(p, u, s).sockets| == |p.sockets|
  {
    var r := Register(p, u, s);
    assert KeyedByObjectIds(r);
    OnlineUsersInCreationOrder(p);
    OnlineUsersInCreationOrder(r);
  }

  /** Disconnecting a user who is not in the map changes nothing, so a
      repeated disconnect is harmless. */
  lemma UnregisterAbsentIsNoOp(p: PresenceState, u: UserId)
    requires Consistent(p) && u !in p.sockets
    ensures Unregister(p, u) == p
  {
    assert p.sockets - {u} == p.sockets;
  }

  /** No two users share a socket id. */
  predicate DistinctSockets(p: PresenceState)
  {
    forall u, v :: u in p.sockets && v in p.sockets && u != v ==> p.sockets[u] != p.sockets[v]
  }

  /** Registering a socket id no other user holds keeps socket ids distinct
      (socket.io gives every connection a fresh id); unregistering always does. */
  lemma DistinctSocketsPreserved(p: PresenceState, u: UserId, s: SocketId)
    requires DistinctSockets(p)
    requires forall v :: v in p.sockets && v != u ==> p.sockets[v] != s
    ensures DistinctSockets(Register(p, u, s))
    ensures DistinctSockets(Unregister(p, u))
    ensures DistinctSockets(UnregisterScoped(p, u, s))
  {
  }

  /** With distinct socket ids, the socket registered for one user is never
      the socket of a different user. */
  lemma LookupSeparatesUsers(p: PresenceState, u: UserId, v: UserId)
    requires DistinctSockets(p) && u != v && Lookup(p, u).Some?
    ensures Lookup(p, v) != Lookup(p, u)
  {
  }

  // ---------------------------------------------------------------------
  // Traces of connection events

  /** A `connection` or `disconnect` event of socket `socket`, whose
      authenticated user is `user`. */
  datatype ConnEvent = Connected(user: UserId, socket: SocketId) | Disconnected(user: UserId, socket: SocketId)

  /** The handlers as written: the disconnect handler deletes by user id only. */
  function Apply(p: PresenceState, e: ConnEvent): PresenceState
  {
    match e
    case Connected(u, s) => Register(p, u, s)
    case Disconnected(u, _) => Unregister(p, u)
  }

  function Run(p: PresenceState, trace: seq<ConnEvent>): (r: PresenceState)
    ensures Consistent(p) ==> Consistent(r)
  {
    if trace == [] then p else Apply(Run(p, trace[..|trace| - 1]), trace[|trace| - 1])
  }

  /** The connection-scoped handlers. */
  function ApplyScoped(p: PresenceState, e: ConnEvent): PresenceState
  {
    match e
    case Connected(u, s) => Register(p, u, s)
    case Disconnected(u, s) => UnregisterScoped(p, u, s)
  }

  function RunScoped(p: PresenceState, trace: seq<ConnEvent>): (r: PresenceState)
    ensures Consistent(p) ==> Consistent(r)
  {
    if trace == [] then p else ApplyScoped(RunScoped(p, trace[..|trace| - 1]), trace[|trace| - 1])
  }

  /** The most recent event of user `u` in the trace. */
  function LastEventOf(trace: seq<ConnEvent>, u: UserId): (r: Option<nat>)
    ensures r.Some? ==> r.value < |trace| && trace[r.value].user == u
    ensures r.Some? ==> forall i :: r.value < i < |trace| ==> trace[i].user != u
    ensures r.None? ==> forall i :: 0 <= i < |trace| ==> trace[i].user != u
  {
    if trace == [] then None
    else if trace[|trace| - 1].user == u then Some(|trace| - 1)
    else LastEventOf(trace[..|trace| - 1], u)
  }

  /** As written, a user is online exactly when their most recent event was a
      connection, and then with that connection's socket id. */
  lemma {:induction false} RunLookup(trace: seq<ConnEvent>, u: UserId)
    ensures Lookup(Run(Empty, trace), u) ==
      match LastEventOf(trace, u)
      case None => None
      case Some(k) => if trace[k].Connected? then Some(trace[k].socket) else None
  {
    if trace != [] {
      var front := trace[..|trace| - 1];
      RunLookup(front, u);
      if trace[|trace| - 1].user != u {
        assert LastEventOf(trace, u) == LastEventOf(front, u);
        match LastEventOf(front, u)
        case None =>
        case Some(k) => assert trace[k] == front[k];
      }
    }
  }

  /** The most recent connection of user `u` in the trace. */
  function LastConnectionOf(trace: seq<ConnEvent>, u: UserId): (r: Option<nat>)
    ensures r.Some? ==> r.value < |trace| && trace[r.value] == Connected(u, trace[r.value].socket)
    ensures r.Some? ==> forall i :: r.value < i < |trace| ==> !(trace[i].Connected? && trace[i].user == u)
    ensures r.None? ==> forall i :: 0 <= i < |trace| ==> !(trace[i].Connected? && trace[i].user == u)
  {
    if trace == [] then None
    else if trace[|trace| - 1].Connected? && trace[|trace| - 1].user == u then Some(|trace| - 1)
    else LastConnectionOf(trace[..|trace| - 1], u)
  }

  /** Socket `s` of user `u` disconnected after position `k`. */
  predicate ClosedAfter(trace: seq<ConnEvent>, k: nat, u: UserId, s: SocketId)
  {
    exists i :: k < i < |trace| && trace[i] == Disconnected(u, s)
  }

  /** With connection-scoped disconnects, a user is online exactly when their
      most recent connection has not disconnected since, and then with that
      connection's socket id. */
  lemma {:induction false} RunScopedLookup(trace: seq<ConnEvent>, u: UserId)
    ensures Lookup(RunScoped(Empty, trace), u) ==
      match LastConnectionOf(trace, u)
      case None => None
      case Some(k) => if ClosedAfter(trace, k, u, trace[k].socket) then None else Some(trace[k].socket)
  {
    if trace != [] {
      var front := trace[..|trace| - 1];
      var e := trace[|trace| - 1];
      RunScopedLookup(front, u);
      if !(e.Connected? && e.user == u) {
        assert LastConnectionOf(trace, u) == LastConnectionOf(front, u);
        match LastConnectionOf(front, u)
        case None =>
        case Some(k) =>
          assert trace[k] == front[k];
          ClosedAfterExtend(trace, k, u, front[k].socket);
      }
    }
  }

  lemma ClosedAfterExtend(trace: seq<ConnEvent>, k: nat, u: UserId, s: SocketId)
    requires k < |trace| - 1
    ensures ClosedAfter(trace, k, u, s) <==>
      ClosedAfter(trace[..|trace| - 1], k, u, s) || trace[|trace| - 1] == Disconnected(u, s)
  {
    var front := trace[..|trace| - 1];
    if ClosedAfter(front, k, u, s) {
      var i :| k < i < |front| && front[i] == Disconnected(u, s);
      assert trace[i] == front[i];
    }
    if ClosedAfter(trace, k, u, s) {
      var i :| k < i < |trace| && trace[i] == Disconnected(u, s);
      if i < |front| {
        assert front[i] == trace[i];
      }
    }
  }

  /** As written, a stale connection's disconnect removes the newer entry: user
      `u` connects on `a`, reconnects on `b`, and the old socket `a` closes —
      `u` is then shown offline although `b` is still open. */
  lemma StaleDisconnectDropsNewerEntry(p: PresenceState, u: UserId, a: SocketId, b: SocketId)
    requires a != b
    ensures Lookup(Run(p, [Connected(u, a), Connected(u, b), Disconnected(u, a)]), u) == None
  {
    var t := [Connected(u, a), Connected(u, b), Disconnected(u, a)];
    assert t[..2] == [Connected(u, a), Connected(u, b)];
    assert t[..2][..1] == [Connected(u, a)];
  }

  /** With connection-scoped disconnects, `u` ends registered on `b` in both
      orders in which the close of `a` and the connection of `b` can arrive. */
  lemma ScopedDisconnectKeepsNewerEntry(p: PresenceState, u: UserId, a: SocketId, b: SocketId)
    requires a != b
    ensures Lookup(RunScoped(p, [Connected(u, a), Connected(u, b), Disconnected(u, a)]), u) == Some(b)
    ensures Lookup(RunScoped(p, [Connected(u, a), Disconnected(u, a), Connected(u, b)]), u) == Some(b)
  {
    var t1 := [Connected(u, a), Connected(u, b), Disconnected(u, a)];
    assert t1[..2] == [Connected(u, a), Connected(u, b)];
    assert t1[..2][..1] == [Connected(u, a)];
    var t2 := [Connected(u, a), Disconnected(u, a), Connected(u, b)];
    assert t2[..2] == [Connected(u, a), Disconnected(u, a)];
    assert t2[..2][..1] == [Connected(u, a)];
  }

  // ---------------------------------------------------------------------
  // The socket.io server

  /** What an emit carries. */
  datatype Payload = OnlineUsersPayload(users: seq<UserId>) | MessagePayload(message: Message)

  /** `io.emit(event, payload)` to every connection, or
      `io.to(target).emit(event, payload)` to one. */
  datatype Emission = Broadcast(event: string, payload: Payload)
                    | Direct(target: SocketId, event: string, payload: Payload)

  const OnlineUsersEvent: string := "getOnlineUsers"
  const NewMessageEvent: string := "newMessage"

  /** The `getOnlineUsers` broadcast for a registry state. */
  function OnlineUsersBroadcast(p: PresenceState): Emission
  {
    Broadcast(OnlineUsersEvent, OnlineUsersPayload(OnlineUsers(p)))
  }

  /** The socket.io server `io` together with `userSocketMap`; `outbox` is the
      sequence of emits in the order they were made. */
  class SocketServer {
    var userSocketMap: map<UserId, SocketId>
    var keyOrder: seq<UserId>
    var outbox: seq<Emission>

    function State(): PresenceState
      reads this
    {
      PresenceState(userSocketMap, keyOrder)
    }

    ghost predicate Valid()
      reads this
    {
      Consistent(State())
    }

    constructor ()
      ensures Valid()
      ensures State() == Empty && outbox == []
    {
      userSocketMap := map[];
      keyOrder := [];
      outbox := [];
    }

    /** The `connection` handler for an admitted socket: register it, then
        broadcast the keys of the updated map. */
    method OnConnection(userId: UserId, socketId: SocketId)
      requires Valid()
      modifies this
      ensures Valid()
      ensures State() == Register(old(State()), userId, socketId)
      ensures outbox == old(outbox) + [OnlineUsersBroadcast(State())]
    {
      if userId !in userSocketMap {
        keyOrder := keyOrder + [userId];
      }
      userSocketMap := userSocketMap[userId := socketId];
      outbox := outbox + [Broadcast(OnlineUsersEvent, OnlineUsersPayload(ObjectKeys.OwnKeys(keyOrder)))];
    }

    /** The `disconnect` handler as written: delete the entry of `userId`,
        then broadcast the keys of the updated map. */
    method OnDisconnect(userId: UserId)
      requires Valid()
      modifies this
      ensures Valid()
      ensures State() == Unregister(old(State()), userId)
      ensures outbox == old(outbox) + [OnlineUsersBroadcast(State())]
    {
      userSocketMap := userSocketMap - {userId};
      keyOrder := Without(keyOrder, userId);
      outbox := outbox + [Broadcast(OnlineUsersEvent, OnlineUsersPayload(ObjectKeys.OwnKeys(keyOrder)))];
    }

    /** The connection-scoped `disconnect` handler: delete the entry only if it
        still holds the closing socket's id, then broadcast. */
    method OnDisconnectScoped(userId: UserId, socketId: SocketId)
      requires Valid()
      modifies this
      ensures Valid()
      ensures State() == UnregisterScoped(old(State()), userId, socketId)
      ensures outbox == old(outbox) + [OnlineUsersBroadcast(State())]
    {
      if userId in userSocketMap && userSocketMap[userId] == socketId {
        userSocketMap := userSocketMap - {userId};
        keyOrder := Without(keyOrder, userId);
      }
      outbox := outbox + [Broadcast(OnlineUsersEvent, OnlineUsersPayload(ObjectKeys.OwnKeys(keyOrder)))];
    }

    /** `getReceiverSocketId(userId)`: a read without side effects. */
    method GetReceiverSocketId(userId: UserId) returns (r: Option<SocketId>)
      ensures r.Some? <==> userId in userSocketMap
      ensures r.Some? ==> r.value == userSocketMap[userId]
    {
      r := if userId in userSocketMap then Some(userSocketMap[userId]) else None;
    }

    /** `io.to(target).emit(event, payload)`. */
    method EmitTo(target: SocketId, event: string, payload: Payload)
      modifies this
      ensures State() == old(State())
      ensures outbox == old(outbox) + [Direct(target, event, payload)]
    {
      outbox := outbox + [Direct(target, event, payload)];
    }
  }

  /** A handshake: `io.use(socketAuthMiddleware)` runs first, and only an
      admitted socket reaches the `connection` handler. A refused handshake
      leaves the registry and the outbox untouched. */
  method Handshake(io: SocketServer, socket: SocketAuth.HandshakeSocket,
                   verify: string -> Verdict<Option<SocketAuth.Claims>>,
                   findById: UserId -> Verdict<Option<User>>) returns (next: SocketAuth.NextCall)
    requires io.Valid()
    modifies io, socket
    ensures io.Valid()
    ensures var d := SocketAuth.Gate(socket.cookieHeader, verify, findById);
      next == (if d.Admit? then SocketAuth.Proceed else SocketAuth.ProceedWithError(d.reason))
    ensures next.ProceedWithError? ==> io.State() == old(io.State()) && io.outbox == old(io.outbox)
    ensures next.Proceed? ==>
      && socket.userId.Some?
      && io.State() == Register(old(io.State()), socket.userId.value, socket.id)
      && io.outbox == old(io.outbox) + [OnlineUsersBroadcast(io.State())]
    ensures next.Proceed? && Store.FindsById(findById) ==>
      socket.userId == Some(verify(SocketAuth.ExtractToken(socket.cookieHeader).value).value.value.userId)
  {
    next := SocketAuth.SocketAuthMiddleware(socket, verify, findById);
    if next.Proceed? {
      io.OnConnection(socket.userId.value, socket.id);
    }
  }
}
