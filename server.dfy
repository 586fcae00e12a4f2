/** The socket handlers of server.js over one server state: the database
    (users, private messages, room messages, rooms), the in-memory room cache
    and active-user registry, the connected sockets, and the log of every
    event the server emits, in emission order. Each handler runs to completion
    before the next event is handled; the emissions of the helpers the
    handlers call without awaiting (updateFriendsList, updateFriendRequests,
    updateActiveUsers, updateRooms) are appended after the handler's own,
    in call order, and read the state the handler leaves. */
module ChatServer {
  import opened Js
  import opened Records
  import opened Encryption
  import opened History
  import opened Store
  import FriendGraph

  type Users = map<string, User>

  const DefaultRooms := [Room("global", "Anonymous"), Room("chess", "Anonymous")]
  const HourMillis := 3600000

  const NotLoggedIn := "You must be logged in"
  const DeleteNotLoggedIn := "You must be logged in to delete messages"
  const DbUnavailable := "Database connection not available"
  const UsernameTaken := "Username already exists"
  const InvalidCredentials := "Invalid username or password"
  const NotFriends := "You can only send messages to friends"
  const SendFailed := "Failed to send message"
  const MessageNotFound := "Message not found"
  const NotOwner := "You can only delete your own messages"

  /** Who receives an emission: one socket, everybody, the members of a
      socket.io room, the members of a room but the sender, everybody but the sender. */
  datatype Target =
    | ToSocket(id: nat)
    | ToAll
    | ToRoom(room: string)
    | ToRoomExcept(room: string, except: nat)
    | ToAllExcept(except: nat)

  datatype Payload =
    | RegisterSuccess
    | RegisterError(reason: string)
    | LoginSuccess(username: string, privateKey: string)
    | LoginError(reason: string)
    | UpdateChat(from: string, text: string)
    | UpdateFriends(friends: seq<string>)
    | UpdateFriendRequests(requests: seq<FriendRequest>)
    | UpdateUsers(online: set<string>)
    | UpdateRooms(rooms: seq<Room>, current: Option<string>)
    | IncomingPrivate(sender: string, message: string, id: Option<nat>)
    | MessageSent(recipient: string, message: string, timestamp: int, id: Option<nat>)
    | MessageDeleted(messageId: nat, deletedBy: Option<string>)
    | DeleteError(reason: string)
    | ChatHistory(messages: seq<HistoryEntry>)

  datatype Event = Event(to: Target, payload: Payload)

  /** How a handler ended: it did its work, it reported an error to the
      caller, or it returned without a word. */
  datatype Outcome = Ok | Error(reason: string) | Ignored

  /** The MongoDB collections. `nextMessageId` stands for ObjectId allocation. */
  datatype Database = Database(
    users: Users,
    privateMessages: seq<PrivateMessage>,
    nextMessageId: nat,
    roomMessages: seq<RoomMessage>,
    rooms: seq<Room>)

  function Notice(id: nat, text: string): Event
  {
    Event(ToSocket(id), UpdateChat("INFO", text))
  }

  function Failure(id: nat, text: string): Event
  {
    Event(ToSocket(id), UpdateChat("ERROR", text))
  }

  predicate NameTaken(rooms: seq<Room>, name: string)
  {
    exists i :: 0 <= i < |rooms| && rooms[i].name == name
  }

  predicate UniqueNames(rooms: seq<Room>)
  {
    forall i, j :: 0 <= i < j < |rooms| ==> rooms[i].name != rooms[j].name
  }

  /** A room whose name is not taken can be added without a clash. */
  lemma AddFreshName(rooms: seq<Room>, r: Room)
    requires UniqueNames(rooms) && !NameTaken(rooms, r.name)
    ensures UniqueNames(rooms + [r])
  {
    var s := rooms + [r];
    forall i, j | 0 <= i < j < |s| ensures s[i].name != s[j].name {
      if j == |rooms| {
        assert s[i] == rooms[i];
      }
    }
  }

  /** A connection. The session fields are set by login and cleared by logout. */
  class Socket {
    const id: nat
    var username: Option<string>
    var privateKey: Option<string>
    var authenticated: bool
    var currentRoom: Option<string>
    /** Set once logout has assigned `null` to the username; before any
        login the username is `undefined`. */
    var loggedOut: bool

    /** A session is authenticated exactly when it carries a username, and
        then it also carries the user's key and a current room. */
    ghost predicate Valid()
      reads this
    {
      && (authenticated <==> username.Some?)
      && (authenticated ==> privateKey.Some? && currentRoom.Some?)
    }

    constructor (id: nat)
      ensures Valid()
      ensures this.id == id && username == None && privateKey == None
      ensures !authenticated && currentRoom == None && !loggedOut
    {
      this.id := id;
      username := None;
      privateKey := None;
      authenticated := false;
      currentRoom := None;
      loggedOut := false;
    }
  }

  /** `socket.username` as a JavaScript value: the name after a login,
      `null` after a logout, `undefined` before the first login. */
  function NameOf(s: Socket): Nullable
    reads s
  {
    if s.username.Some? then Str(s.username.value)
    else if s.loggedOut then Null
    else Undefined
  }

  /** The index of the first socket, in connection order, whose username is
      strictly equal (`===`) to `u` (findSocketByUsername returns that
      socket). A `null` key finds a logged-out socket and an `undefined`
      key one that never logged in. */
  function FirstOnline(ss: seq<Socket>, u: Nullable): (r: Option<nat>)
    reads ss
    ensures r.Some? ==> r.value < |ss| && NameOf(ss[r.value]) == u
    ensures r.Some? ==> forall j :: 0 <= j < r.value ==> NameOf(ss[j]) != u
    ensures r.None? ==> forall j :: 0 <= j < |ss| ==> NameOf(ss[j]) != u
  {
    if ss == [] then None
    else if NameOf(ss[0]) == u then Some(0)
    else match FirstOnline(ss[1..], u)
      case None => None
      case Some(k) => Some(k + 1)
  }

  /** Strict equality against a missing name: a `null` recipient reaches the
      first socket whose user has logged out, an `undefined` one the first
      socket that never logged in, and no name reaches either socket. */
  lemma MissingRecipientMatches(ss: seq<Socket>, i: nat)
    requires i < |ss| && ss[i].username.None?
    requires forall j :: 0 <= j < i ==> ss[j].username.Some? || ss[j].loggedOut != ss[i].loggedOut
    ensures FirstOnline(ss, if ss[i].loggedOut then Null else Undefined) == Some(i)
    ensures forall n :: FirstOnline(ss, Str(n)) != Some(i)
  {
  }

  /** The id of the socket findSocketByUsername picks for `u`, if any. */
  function OnlineId(ss: seq<Socket>, u: Nullable): Option<nat>
    reads ss
  {
    match FirstOnline(ss, u)
    case None => None
    case Some(i) => Some(ss[i].id)
  }

  /** `sockets` without `s` (socket.io forgets a socket once it disconnects). */
  function Without(ss: seq<Socket>, s: Socket): (r: seq<Socket>)
    ensures |r| <= |ss|
    ensures forall i :: 0 <= i < |r| ==> r[i] in ss && r[i] != s
    ensures forall i :: 0 <= i < |ss| && ss[i] != s ==> ss[i] in r
  {
    if ss == [] then []
    else if ss[0] == s then Without(ss[1..], s)
    else [ss[0]] + Without(ss[1..], s)
  }

  /** updateActiveUsers' list: with the database, every user active in the
      last hour; without it, the in-memory registry. */
  function ActiveList(dbConnection: bool, users: Users, active: map<string, ActiveUser>, now: int): set<string>
  {
    if dbConnection then set u | u in users && users[u].lastActive >= now - HourMillis
    else active.Keys
  }

  /** updateFriendsList(socket): nothing unless the socket has a username, the
      database is up and the user document exists. */
  function FriendsRefresh(dbConnection: bool, users: Users, id: nat, username: Option<string>): seq<Event>
  {
    if Truthy(username) && dbConnection && username.value in users
    then [Event(ToSocket(id), UpdateFriends(users[username.value].friends))]
    else []
  }

  /** updateFriendRequests(socket), under the same conditions. */
  function RequestsRefresh(dbConnection: bool, users: Users, id: nat, username: Option<string>): seq<Event>
  {
    if Truthy(username) && dbConnection && username.value in users
    then [Event(ToSocket(id), UpdateFriendRequests(users[username.value].friendRequests))]
    else []
  }

  /** sendPrivateMessage's gate: with the database, the sender must exist
      (otherwise reading its friends throws) and list the recipient as a
      friend; without the database nothing is checked. */
  function PrivateGate(dbConnection: bool, users: Users, sender: string, recipient: string): Option<string>
  {
    if !dbConnection then None
    else if sender !in users then Some(SendFailed)
    else if recipient !in users[sender].friends then Some(NotFriends)
    else None
  }

  /** With the database, a message passes the gate exactly when the
      sender's document lists the recipient as a friend, and a missing
      sender is reported as a failure to send; without it every message passes. */
  lemma PrivateGateSpec(dbConnection: bool, users: Users, sender: string, recipient: string)
    ensures PrivateGate(dbConnection, users, sender, recipient).None? <==>
      !dbConnection || (sender in users && recipient in users[sender].friends)
    ensures PrivateGate(dbConnection, users, sender, recipient) == Some(SendFailed) <==>
      dbConnection && sender !in users
    ensures PrivateGate(dbConnection, users, sender, recipient) == Some(NotFriends) <==>
      dbConnection && sender in users && recipient !in users[sender].friends
  {
  }

  /** Once b has accepted a's request, either may message the other. */
  lemma AcceptedFriendsMayMessage(users: Users, a: string, b: string, t: int)
    requires a in users && b in users && a != b
    requires FriendGraph.SendRequest(users, a, b, t).Sent?
    ensures var after := FriendGraph.Respond(FriendGraph.SendRequest(users, a, b, t).users, b, a, "accept");
      PrivateGate(true, after, a, b).None? && PrivateGate(true, after, b, a).None?
  {
    var sent := FriendGraph.SendRequest(users, a, b, t).users;
    FriendGraph.SendRequestSpec(users, a, b, t);
    FriendGraph.RespondSpec(sent, b, a, "accept");
    FriendGraph.SendThenAccept(users, a, b, t);
  }

  /** The replay of a room's page to the joining socket, oldest first. */
  function Replay(c: Crypto, page: seq<RoomMessage>, room: string, viewerKey: string, id: nat): (r: seq<Event>)
    ensures |r| == |page|
    ensures forall i :: 0 <= i < |page| ==>
      r[i] == Event(ToSocket(id), UpdateChat(page[i].sender, ResolveRoom(c, page[i], room, viewerKey)))
  {
    if page == [] then []
    else Replay(c, page[..|page| - 1], room, viewerKey, id) +
         [Event(ToSocket(id), UpdateChat(page[|page| - 1].sender, ResolveRoom(c, page[|page| - 1], room, viewerKey)))]
  }

  /** The server: its configuration, the database, the in-memory caches, the
      connected sockets in connection order and the emitted events. */
  class Server {
    const crypto: Crypto
    const dbConnection: bool
    var db: Database
    var roomsCache: seq<Room>
    var activeUsers: map<string, ActiveUser>
    var sockets: seq<Socket>
    var nextSocketId: nat
    var events: seq<Event>

    /** Room names are unique in the cache and in the collection (the
        schema's unique index), message ids are distinct and below the next
        one to be allocated, and every socket id was allocated. */
    ghost predicate Valid()
      reads this
    {
      && UniqueNames(roomsCache)
      && UniqueNames(db.rooms)
      && IdsFresh(db.privateMessages, db.nextMessageId)
      && (forall s :: s in sockets ==> s.id < nextSocketId)
    }

    /** Start-up on an empty database: the default rooms are the cache and,
        when the database is up, initializeRooms stores them too. */
    constructor (crypto: Crypto, dbConnection: bool)
      ensures Valid()
      ensures this.crypto == crypto && this.dbConnection == dbConnection
      ensures db == Database(map[], [], 0, [], if dbConnection then DefaultRooms else [])
      ensures roomsCache == DefaultRooms && activeUsers == map[]
      ensures sockets == [] && nextSocketId == 0 && events == []
    {
      this.crypto := crypto;
      this.dbConnection := dbConnection;
      db := Database(map[], [], 0, [], if dbConnection then DefaultRooms else []);
      roomsCache := DefaultRooms;
      activeUsers := map[];
      sockets := [];
      nextSocketId := 0;
      events := [];
    }

    /** A new connection: an unauthenticated socket with a fresh id. */
    method Connect() returns (s: Socket)
      requires Valid()
      modifies this
      ensures Valid() && fresh(s) && s.Valid()
      ensures s.id == old(nextSocketId) && s.username == None && s.privateKey == None
      ensures !s.authenticated && s.currentRoom == None
      ensures sockets == old(sockets) + [s] && nextSocketId == old(nextSocketId) + 1
      ensures db == old(db) && roomsCache == old(roomsCache) && activeUsers == old(activeUsers)
      ensures events == old(events)
    {
      s := new Socket(nextSocketId);
      sockets := sockets + [s];
      nextSocketId := nextSocketId + 1;
    }

    /** findSocketByUsername (server.js:47-55): the first connected socket
        whose username is `u`, or null when there is none. */
    method FindSocketByUsername(u: Nullable) returns (s: Socket?)
      ensures s == null <==> FirstOnline(sockets, u).None?
      ensures s != null ==> s == sockets[FirstOnline(sockets, u).value] && NameOf(s) == u
    {
      var i := 0;
      while i < |sockets|
        invariant 0 <= i <= |sockets|
        invariant forall j :: 0 <= j < i ==> NameOf(sockets[j]) != u
      {
        if NameOf(sockets[i]) == u {
          return sockets[i];
        }
        i := i + 1;
      }
      return null;
    }

    /** register (server.js:186-224). A new user gets a fresh private key
        and no friends or requests. */
    method Register(socket: Socket, username: string, password: string, randomBytes: seq<Byte>, now: int)
      returns (outcome: Outcome)
      requires Valid() && |randomBytes| == 32
      modifies this
      ensures Valid()
      ensures outcome == (if !dbConnection then Error(DbUnavailable)
                          else if username in old(db.users) then Error(UsernameTaken)
                          else Ok)
      ensures outcome.Ok? ==> db == old(db).(users := old(db.users)[username :=
        User(password, GeneratePrivateKey(randomBytes), [], [], [], now)])
      ensures outcome.Error? ==> db == old(db)
      ensures events == old(events) +
        [Event(ToSocket(socket.id), if outcome.Ok? then RegisterSuccess else RegisterError(outcome.reason))]
      ensures roomsCache == old(roomsCache) && activeUsers == old(activeUsers)
      ensures sockets == old(sockets) && nextSocketId == old(nextSocketId)
    {
      if !dbConnection {
        outcome := Error(DbUnavailable);
      } else if username in db.users {
        outcome := Error(UsernameTaken);
      } else {
        var key := GeneratePrivateKey(randomBytes);
        db := db.(users := db.users[username := User(password, key, [], [], [], now)]);
        outcome := Ok;
      }
      events := events + [Event(ToSocket(socket.id), if outcome.Ok? then RegisterSuccess else RegisterError(outcome.reason))];
    }

    /** login (server.js:226-292). On success the user's lastActive is now,
        the socket holds the session in room "global", the user is in the
        registry, and the socket is sent its data, a welcome and then its
        friends, requests, the users of the last hour and the room list. */
    method Login(socket: Socket, username: string, password: string, now: int) returns (outcome: Outcome)
      requires Valid() && socket.Valid()
      modifies this, socket
      ensures Valid() && socket.Valid()
      ensures outcome == (if !dbConnection then Error(DbUnavailable)
                          else if username !in old(db.users) || old(db.users)[username].password != password
                          then Error(InvalidCredentials)
                          else Ok)
      ensures outcome.Error? ==>
        && db == old(db) && activeUsers == old(activeUsers)
        && socket.username == old(socket.username) && socket.privateKey == old(socket.privateKey)
        && socket.authenticated == old(socket.authenticated) && socket.currentRoom == old(socket.currentRoom)
        && events == old(events) + [Event(ToSocket(socket.id), LoginError(outcome.reason))]
      ensures outcome.Ok? ==>
        var key := old(db.users)[username].privateKey;
        && db == old(db).(users := old(db.users)[username := old(db.users)[username].(lastActive := now)])
        && socket.username == Some(username) && socket.privateKey == Some(key)
        && socket.authenticated && socket.currentRoom == Some("global")
        && activeUsers == old(activeUsers)[username := ActiveUser(username, key)]
        && events == old(events)
          + [Event(ToSocket(socket.id), LoginSuccess(username, key)),
             Notice(socket.id, "Welcome back! You have joined global room")]
          + FriendsRefresh(true, db.users, socket.id, Some(username))
          + RequestsRefresh(true, db.users, socket.id, Some(username))
          + [Event(ToSocket(socket.id), UpdateUsers(ActiveList(true, db.users, activeUsers, now))),
             Event(ToSocket(socket.id), UpdateRooms(db.rooms, Some("global")))]
      ensures outcome.Ok? ==> username in ActiveList(true, db.users, activeUsers, now)
      ensures socket.loggedOut == old(socket.loggedOut)
      ensures roomsCache == old(roomsCache) && sockets == old(sockets) && nextSocketId == old(nextSocketId)
    {
      if !dbConnection {
        outcome := Error(DbUnavailable);
        events := events + [Event(ToSocket(socket.id), LoginError(outcome.reason))];
        return;
      }
      if username !in db.users || db.users[username].password != password {
        outcome := Error(InvalidCredentials);
        events := events + [Event(ToSocket(socket.id), LoginError(outcome.reason))];
        return;
      }
      var user := db.users[username];
      db := db.(users := db.users[username := user.(lastActive := now)]);
      socket.username := Some(username);
      socket.privateKey := Some(user.privateKey);
      socket.authenticated := true;
      socket.currentRoom := Some("global");
      activeUsers := activeUsers[username := ActiveUser(username, user.privateKey)];
      events := events
        + [Event(ToSocket(socket.id), LoginSuccess(username, user.privateKey)),
           Notice(socket.id, "Welcome back! You have joined global room")]
        + FriendsRefresh(true, db.users, socket.id, Some(username))
        + RequestsRefresh(true, db.users, socket.id, Some(username))
        + [Event(ToSocket(socket.id), UpdateUsers(ActiveList(true, db.users, activeUsers, now))),
           Event(ToSocket(socket.id), UpdateRooms(db.rooms, Some("global")))];
      outcome := Ok;
    }

    /** logout (server.js:294-309): nothing unless the socket has a username;
        otherwise the session is cleared (the current room is kept), the
        user leaves the registry and everybody gets the user list. */
    method Logout(socket: Socket, now: int) returns (outcome: Outcome)
      requires Valid() && socket.Valid()
      modifies this, socket
      ensures Valid() && socket.Valid()
      ensures outcome == (if Truthy(old(socket.username)) then Ok else Ignored)
      ensures outcome.Ignored? ==>
        && activeUsers == old(activeUsers) && events == old(events)
        && socket.username == old(socket.username) && socket.privateKey == old(socket.privateKey)
        && socket.authenticated == old(socket.authenticated) && socket.loggedOut == old(socket.loggedOut)
      ensures outcome.Ok? ==>
        && activeUsers == old(activeUsers) - {old(socket.username).value}
        && socket.username == None && socket.privateKey == None && !socket.authenticated && socket.loggedOut
        && events == old(events) + [Event(ToAll, UpdateUsers(ActiveList(dbConnection, db.users, activeUsers, now)))]
      ensures socket.currentRoom == old(socket.currentRoom)
      ensures db == old(db) && roomsCache == old(roomsCache)
      ensures sockets == old(sockets) && nextSocketId == old(nextSocketId)
    {
      if !Truthy(socket.username) {
        return Ignored;
      }
      activeUsers := activeUsers - {socket.username.value};
      socket.username := None;
      socket.privateKey := None;
      socket.authenticated := false;
      socket.loggedOut := true;
      events := events + [Event(ToAll, UpdateUsers(ActiveList(dbConnection, db.users, activeUsers, now)))];
      outcome := Ok;
    }
  
    /** sendFriendRequest (server.js:338-406): after the session and database
        checks, the refusals and updates of FriendGraph.SendRequest; on
        success the sender is told, and an online recipient is told and then
        sent its refreshed requests. */
    method SendFriendRequest(socket: Socket, recipient: string, now: int) returns (outcome: Outcome)
      requires Valid() && socket.Valid()
      modifies this
      ensures Valid()
      ensures !socket.authenticated ==> outcome == Error(NotLoggedIn)
      ensures socket.authenticated && !dbConnection ==> outcome == Error(DbUnavailable)
      ensures socket.authenticated && dbConnection ==>
        match FriendGraph.SendRequest(old(db.users), socket.username.value, recipient, now)
        case Refused(reason) => outcome == Error(reason)
        case Sent(after) =>
          && outcome == Ok
          && db == old(db).(users := after)
          && events == old(events) + [Notice(socket.id, "Friend request sent to " + recipient)] +
            match OnlineId(sockets, Str(recipient))
            case None => []
            case Some(rid) =>
              [Notice(rid, socket.username.value + " sent you a friend request")] +
              RequestsRefresh(true, after, rid, Some(recipient))
      ensures outcome.Error? ==> db == old(db) && events == old(events) + [Failure(socket.id, outcome.reason)]
      ensures roomsCache == old(roomsCache) && activeUsers == old(activeUsers)
      ensures sockets == old(sockets) && nextSocketId == old(nextSocketId)
    {
      if !socket.authenticated {
        outcome := Error(NotLoggedIn);
        events := events + [Failure(socket.id, outcome.reason)];
        return;
      }
      if !dbConnection {
        outcome := Error(DbUnavailable);
        events := events + [Failure(socket.id, outcome.reason)];
        return;
      }
      var sender := socket.username.value;
      match FriendGraph.SendRequest(db.users, sender, recipient, now)
      case Refused(reason) =>
        outcome := Error(reason);
        events := events + [Failure(socket.id, outcome.reason)];
      case Sent(after) =>
        db := db.(users := after);
        events := events + [Notice(socket.id, "Friend request sent to " + recipient)];
        var rs := FindSocketByUsername(Str(recipient));
        if rs != null {
          events := events + [Notice(rs.id, sender + " sent you a friend request")] +
            RequestsRefresh(true, db.users, rs.id, Some(recipient));
        }
        outcome := Ok;
    }

    /** respondToFriendRequest (server.js:408-472): the updates of
        FriendGraph.Respond; an accept tells both sides and refreshes both
        friends lists, a reject tells the responder, and every response
        refreshes the responder's requests. */
    method RespondToFriendRequest(socket: Socket, from: string, response: string) returns (outcome: Outcome)
      requires Valid() && socket.Valid()
      modifies this
      ensures Valid()
      ensures !socket.authenticated ==> outcome == Error(NotLoggedIn)
      ensures socket.authenticated && !dbConnection ==> outcome == Error(DbUnavailable)
      ensures outcome.Error? ==> db == old(db) && events == old(events) + [Failure(socket.id, outcome.reason)]
      ensures socket.authenticated && dbConnection ==>
        var me := socket.username.value;
        var after := FriendGraph.Respond(old(db.users), me, from, response);
        && outcome == Ok
        && db == old(db).(users := after)
        && events == old(events) +
          (if response == "accept" then
             [Notice(socket.id, "You are now friends with " + from)] +
             (match OnlineId(sockets, Str(from))
              case None => []
              case Some(oid) => [Notice(oid, me + " accepted your friend request")]) +
             FriendsRefresh(true, after, socket.id, socket.username) +
             (match OnlineId(sockets, Str(from))
              case None => []
              case Some(oid) => FriendsRefresh(true, after, oid, Some(from)))
           else if response == "reject" then
             [Notice(socket.id, "Friend request from " + from + " rejected")]
           else []) +
          RequestsRefresh(true, after, socket.id, socket.username)
      ensures roomsCache == old(roomsCache) && activeUsers == old(activeUsers)
      ensures sockets == old(sockets) && nextSocketId == old(nextSocketId)
    {
      if !socket.authenticated {
        outcome := Error(NotLoggedIn);
        events := events + [Failure(socket.id, outcome.reason)];
        return;
      }
      if !dbConnection {
        outcome := Error(DbUnavailable);
        events := events + [Failure(socket.id, outcome.reason)];
        return;
      }
      var me := socket.username.value;
      db := db.(users := FriendGraph.Respond(db.users, me, from, response));
      var emitted: seq<Event> := [];
      if response == "accept" {
        emitted := [Notice(socket.id, "You are now friends with " + from)];
        var other := FindSocketByUsername(Str(from));
        if other != null {
          emitted := emitted + [Notice(other.id, me + " accepted your friend request")];
        }
        emitted := emitted + FriendsRefresh(true, db.users, socket.id, socket.username);
        if other != null {
          emitted := emitted + FriendsRefresh(true, db.users, other.id, Some(from));
        }
      } else if response == "reject" {
        emitted := [Notice(socket.id, "Friend request from " + from + " rejected")];
      }
      events := events + emitted + RequestsRefresh(true, db.users, socket.id, socket.username);
      outcome := Ok;
    }

    /** deleteMessage (server.js:475-530): the checks and the soft delete of
        Store.SoftDelete; the sender is told, and so is the socket of the
        recipient named by the client, if online. */
    method DeleteMessage(socket: Socket, messageId: nat, recipient: Nullable) returns (outcome: Outcome)
      requires Valid() && socket.Valid()
      modifies this
      ensures Valid()
      ensures !socket.authenticated ==> outcome == Error(DeleteNotLoggedIn)
      ensures socket.authenticated && !dbConnection ==> outcome == Error(DbUnavailable)
      ensures socket.authenticated && dbConnection ==>
        match SoftDelete(old(db.privateMessages), messageId, socket.username.value)
        case NotFound => outcome == Error(MessageNotFound)
        case Forbidden => outcome == Error(NotOwner)
        case Deleted(after) =>
          && outcome == Ok
          && db == old(db).(privateMessages := after)
          && events == old(events) + [Event(ToSocket(socket.id), MessageDeleted(messageId, None))] +
            match OnlineId(sockets, recipient)
            case None => []
            case Some(rid) => [Event(ToSocket(rid), MessageDeleted(messageId, socket.username))]
      ensures outcome.Error? ==>
        db == old(db) && events == old(events) + [Event(ToSocket(socket.id), DeleteError(outcome.reason))]
      ensures roomsCache == old(roomsCache) && activeUsers == old(activeUsers)
      ensures sockets == old(sockets) && nextSocketId == old(nextSocketId)
    {
      if !socket.authenticated {
        outcome := Error(DeleteNotLoggedIn);
        events := events + [Event(ToSocket(socket.id), DeleteError(outcome.reason))];
        return;
      }
      if !dbConnection {
        outcome := Error(DbUnavailable);
        events := events + [Event(ToSocket(socket.id), DeleteError(outcome.reason))];
        return;
      }
      SoftDeleteKeepsIdsFresh(db.privateMessages, db.nextMessageId, messageId, socket.username.value);
      match SoftDelete(db.privateMessages, messageId, socket.username.value)
      case NotFound =>
        outcome := Error(MessageNotFound);
        events := events + [Event(ToSocket(socket.id), DeleteError(outcome.reason))];
      case Forbidden =>
        outcome := Error(NotOwner);
        events := events + [Event(ToSocket(socket.id), DeleteError(outcome.reason))];
      case Deleted(after) =>
        db := db.(privateMessages := after);
        events := events + [Event(ToSocket(socket.id), MessageDeleted(messageId, None))];
        var rs := FindSocketByUsername(recipient);
        if rs != null {
          events := events + [Event(ToSocket(rs.id), MessageDeleted(messageId, socket.username))];
        }
        outcome := Ok;
    }

    /** sendPrivateMessage (server.js:533-616): after the gate, the message is
        encrypted under the conversation key, stored when the database is up
        and the schema accepts it, delivered to the recipient's socket if
        online and confirmed to the sender; both emissions carry the stored
        id or none. */
    method SendPrivateMessage(socket: Socket, recipient: string, message: string, now: int) returns (outcome: Outcome)
      requires Valid() && socket.Valid()
      modifies this
      ensures Valid()
      ensures !socket.authenticated ==> outcome == Error(NotLoggedIn)
      ensures socket.authenticated && PrivateGate(dbConnection, old(db.users), socket.username.value, recipient).Some? ==>
        outcome == Error(PrivateGate(dbConnection, old(db.users), socket.username.value, recipient).value)
      ensures outcome.Error? ==> db == old(db) && events == old(events) + [Failure(socket.id, outcome.reason)]
      ensures socket.authenticated && PrivateGate(dbConnection, old(db.users), socket.username.value, recipient).None? ==>
        var me := socket.username.value;
        var sealed := EncryptMessage(crypto, message, socket.privateKey.value, socket.username, Some(recipient));
        var stored := dbConnection && me != "" && recipient != "" && Storable(sealed, message);
        var id := if stored then Some(old(db.nextMessageId)) else None;
        && outcome == Ok
        && db == (if stored
                  then old(db).(privateMessages := old(db.privateMessages) +
                                  [PrivateMessage(old(db.nextMessageId), me, recipient, sealed, message, true, false, now)],
                                nextMessageId := old(db.nextMessageId) + 1)
                  else old(db))
        && events == old(events) +
          (match OnlineId(sockets, Str(recipient))
           case None => []
           case Some(rid) => [Event(ToSocket(rid), IncomingPrivate(me, message, id))]) +
          [Event(ToSocket(socket.id), MessageSent(recipient, message, now, id))]
      ensures roomsCache == old(roomsCache) && activeUsers == old(activeUsers)
      ensures sockets == old(sockets) && nextSocketId == old(nextSocketId)
    {
      if !socket.authenticated {
        outcome := Error(NotLoggedIn);
        events := events + [Failure(socket.id, outcome.reason)];
        return;
      }
      var me := socket.username.value;
      var gate := PrivateGate(dbConnection, db.users, me, recipient);
      if gate.Some? {
        outcome := Error(gate.value);
        events := events + [Failure(socket.id, outcome.reason)];
        return;
      }
      outcome := Ok;
      var sealed := EncryptMessage(crypto, message, socket.privateKey.value, socket.username, Some(recipient));
      Deliver(socket.id, me, recipient, message, sealed, now);
    }

    /** The sending half of sendPrivateMessage (server.js:560-610) once the
        gate has passed and `message` has been encrypted to `sealed`: store
        when the database is up and the schema accepts the record, deliver
        and confirm. */
    method Deliver(senderId: nat, me: string, recipient: string, message: string, sealed: string, now: int)
      requires Valid()
      modifies this
      ensures Valid()
      ensures
        var stored := dbConnection && me != "" && recipient != "" && Storable(sealed, message);
        var id := if stored then Some(old(db.nextMessageId)) else None;
        && db == (if stored
                  then old(db).(privateMessages := old(db.privateMessages) +
                                  [PrivateMessage(old(db.nextMessageId), me, recipient, sealed, message, true, false, now)],
                                nextMessageId := old(db.nextMessageId) + 1)
                  else old(db))
        && events == old(events) +
          (match OnlineId(sockets, Str(recipient))
           case None => []
           case Some(rid) => [Event(ToSocket(rid), IncomingPrivate(me, message, id))]) +
          [Event(ToSocket(senderId), MessageSent(recipient, message, now, id))]
      ensures roomsCache == old(roomsCache) && activeUsers == old(activeUsers)
      ensures sockets == old(sockets) && nextSocketId == old(nextSocketId)
    {
      var id: Option<nat> := None;
      if dbConnection && me != "" && recipient != "" && Storable(sealed, message) {
        var record := PrivateMessage(db.nextMessageId, me, recipient, sealed, message, true, false, now);
        id := Some(db.nextMessageId);
        AppendKeepsIdsFresh(db.privateMessages, db.nextMessageId, record);
        db := db.(privateMessages := db.privateMessages + [record], nextMessageId := db.nextMessageId + 1);
      }
      var delivered: seq<Event> := [];
      var rs := FindSocketByUsername(Str(recipient));
      if rs != null {
        delivered := [Event(ToSocket(rs.id), IncomingPrivate(me, message, id))];
      }
      events := events + delivered + [Event(ToSocket(senderId), MessageSent(recipient, message, now, id))];
    }

    /** getChatHistory (server.js:618-703): the oldest page of the
        conversation, each entry resolved for the viewer's key; an empty
        history without the database. */
    method GetChatHistory(socket: Socket, other: string) returns (outcome: Outcome)
      requires Valid() && socket.Valid()
      modifies this
      ensures Valid()
      ensures outcome == (if socket.authenticated then Ok else Error(NotLoggedIn))
      ensures outcome.Error? ==> events == old(events) + [Failure(socket.id, outcome.reason)]
      ensures outcome.Ok? ==> events == old(events) + [Event(ToSocket(socket.id), ChatHistory(
        if dbConnection
        then HistoryEntries(crypto, ConversationPage(db.privateMessages, socket.username.value, other), socket.privateKey.value)
        else []))]
      ensures db == old(db) && roomsCache == old(roomsCache) && activeUsers == old(activeUsers)
      ensures sockets == old(sockets) && nextSocketId == old(nextSocketId)
    {
      if !socket.authenticated {
        outcome := Error(NotLoggedIn);
        events := events + [Failure(socket.id, outcome.reason)];
        return;
      }
      var entries: seq<HistoryEntry> := [];
      if dbConnection {
        entries := HistoryEntries(crypto, ConversationPage(db.privateMessages, socket.username.value, other), socket.privateKey.value);
      }
      events := events + [Event(ToSocket(socket.id), ChatHistory(entries))];
      outcome := Ok;
    }

    /** sendMessage (server.js:784-823): nothing unless the socket has a
        username and a current room; the text is encrypted under the key of
        the pair (user, "room_" + room), stored when the database is up and
        the schema accepts it, and sent in the clear to the room. */
    method SendMessage(socket: Socket, data: string, now: int) returns (outcome: Outcome)
      requires Valid() && socket.Valid()
      modifies this
      ensures Valid()
      ensures outcome == (if Truthy(socket.username) && Truthy(socket.currentRoom) then Ok else Ignored)
      ensures outcome.Ignored? ==> db == old(db) && events == old(events)
      ensures outcome.Ok? ==>
        var me := socket.username.value;
        var room := socket.currentRoom.value;
        var sealed := EncryptMessage(crypto, data, socket.privateKey.value, socket.username, Some("room_" + room));
        && db == (if dbConnection && Storable(sealed, data)
                  then old(db).(roomMessages := old(db.roomMessages) + [RoomMessage(me, room, sealed, data, true, now)])
                  else old(db))
        && events == old(events) + [Event(ToRoom(room), UpdateChat(me, data))]
      ensures roomsCache == old(roomsCache) && activeUsers == old(activeUsers)
      ensures sockets == old(sockets) && nextSocketId == old(nextSocketId)
    {
      if !Truthy(socket.username) || !Truthy(socket.currentRoom) {
        return Ignored;
      }
      var me := socket.username.value;
      var room := socket.currentRoom.value;
      var sealed := EncryptMessage(crypto, data, socket.privateKey.value, socket.username, Some("room_" + room));
      if dbConnection && Storable(sealed, data) {
        db := db.(roomMessages := db.roomMessages + [RoomMessage(me, room, sealed, data, true, now)]);
      }
      events := events + [Event(ToRoom(room), UpdateChat(me, data))];
      outcome := Ok;
    }

    /** createRoom (server.js:825-867): nothing without a room or a username;
        a name already in the cache is refused; otherwise the room joins the
        cache and, with the database, the collection under its trimmed name
        unless that name is stored already (a blank name fails validation
        and the cache is broadcast instead); everybody gets the room list. */
    method CreateRoom(socket: Socket, room: Option<string>) returns (outcome: Outcome)
      requires Valid() && socket.Valid()
      modifies this
      ensures Valid()
      ensures room.None? || !Truthy(socket.username) ==>
        outcome == Ignored && db == old(db) && roomsCache == old(roomsCache) && events == old(events)
      ensures room.Some? && Truthy(socket.username) && NameTaken(old(roomsCache), room.value) ==>
        && outcome == Error("Room " + room.value + " already exists.")
        && db == old(db) && roomsCache == old(roomsCache)
        && events == old(events) + [Failure(socket.id, outcome.reason)]
      ensures room.Some? && Truthy(socket.username) && !NameTaken(old(roomsCache), room.value) ==>
        var me := socket.username.value;
        var name := Trim(room.value);
        && outcome == Ok
        && roomsCache == old(roomsCache) + [Room(room.value, me)]
        && db == (if dbConnection && name != "" && !NameTaken(old(db.rooms), name)
                  then old(db).(rooms := old(db.rooms) + [Room(name, me)])
                  else old(db))
        && events == old(events) + [Event(ToAll, UpdateRooms(
             if dbConnection && name != "" then db.rooms else roomsCache, None))]
      ensures activeUsers == old(activeUsers) && sockets == old(sockets) && nextSocketId == old(nextSocketId)
    {
      if room.None? || !Truthy(socket.username) {
        return Ignored;
      }
      var me := socket.username.value;
      if NameTaken(roomsCache, room.value) {
        outcome := Error("Room " + room.value + " already exists.");
        events := events + [Failure(socket.id, outcome.reason)];
        return;
      }
      AddFreshName(roomsCache, Room(room.value, me));
      roomsCache := roomsCache + [Room(room.value, me)];
      var name := Trim(room.value);
      if dbConnection && name != "" {
        if !NameTaken(db.rooms, name) {
          AddFreshName(db.rooms, Room(name, me));
          db := db.(rooms := db.rooms + [Room(name, me)]);
        }
        events := events + [Event(ToAll, UpdateRooms(db.rooms, None))];
      } else {
        events := events + [Event(ToAll, UpdateRooms(roomsCache, None))];
      }
      outcome := Ok;
    }

    /** The updateRooms event (server.js:869-956), which moves the socket to
        another room: nothing without a username; otherwise the old room
        hears that the user left, the socket and the new room are told, and
        with the database the newest page of the room is replayed to the
        socket oldest first, each message resolved for the user's key. */
    method JoinRoom(socket: Socket, room: string) returns (outcome: Outcome)
      requires Valid() && socket.Valid()
      modifies this, socket
      ensures Valid() && socket.Valid()
      ensures socket.username == old(socket.username) && socket.privateKey == old(socket.privateKey)
      ensures socket.authenticated == old(socket.authenticated) && socket.loggedOut == old(socket.loggedOut)
      ensures db == old(db) && roomsCache == old(roomsCache) && activeUsers == old(activeUsers)
      ensures sockets == old(sockets) && nextSocketId == old(nextSocketId)
      ensures outcome == (if Truthy(socket.username) then Ok else Ignored)
      ensures outcome.Ignored? ==> events == old(events) && socket.currentRoom == old(socket.currentRoom)
      ensures outcome.Ok? ==>
        var me := socket.username.value;
        && socket.currentRoom == Some(room)
        && events == old(events)
          + [Event(ToRoomExcept(old(socket.currentRoom).value, socket.id), UpdateChat("INFO", me + " left room")),
             Notice(socket.id, "You have joined " + room + " room"),
             Event(ToRoomExcept(room, socket.id), UpdateChat("INFO", me + " has joined " + room + " room"))]
          + (if dbConnection then Replay(crypto, RoomPage(db.roomMessages, room), room, socket.privateKey.value, socket.id)
             else [])
    {
      if !Truthy(socket.username) {
        return Ignored;
      }
      var me := socket.username.value;
      var left := Event(ToRoomExcept(socket.currentRoom.value, socket.id), UpdateChat("INFO", me + " left room"));
      socket.currentRoom := Some(room);
      var joined := [left, Notice(socket.id, "You have joined " + room + " room"),
                     Event(ToRoomExcept(room, socket.id), UpdateChat("INFO", me + " has joined " + room + " room"))];
      var replayed: seq<Event> := [];
      if dbConnection {
        replayed := ReplayPage(RoomPage(db.roomMessages, room), room, socket.privateKey.value, socket.id);
      }
      events := events + joined + replayed;
      outcome := Ok;
    }

    /** The forEach of the updateRooms event over a room's page
        (server.js:905-944): one updateChat per message, in page order, with
        the message's sender and its content resolved for `key`. */
    method ReplayPage(page: seq<RoomMessage>, room: string, key: string, id: nat) returns (replayed: seq<Event>)
      ensures replayed == Replay(crypto, page, room, key, id)
    {
      replayed := [];
      var i := 0;
      while i < |page|
        invariant 0 <= i <= |page|
        invariant replayed == Replay(crypto, page[..i], room, key, id)
      {
        replayed := replayed + [Event(ToSocket(id), UpdateChat(page[i].sender, ResolveRoom(crypto, page[i], room, key)))];
        assert page[..i + 1][..i] == page[..i];
        i := i + 1;
      }
      assert page[..|page|] == page;
    }

    /** disconnect (server.js:958-1015): the socket is forgotten; if it had a
        username, the user's lastActive becomes now (with the database), the
        user leaves the registry, everybody gets the user list and everybody
        else hears of the departure. */
    method Disconnect(socket: Socket, now: int) returns (outcome: Outcome)
      requires Valid() && socket.Valid()
      modifies this
      ensures Valid()
      ensures sockets == Without(old(sockets), socket)
      ensures outcome == (if Truthy(socket.username) then Ok else Ignored)
      ensures outcome.Ignored? ==> db == old(db) && activeUsers == old(activeUsers) && events == old(events)
      ensures outcome.Ok? ==>
        var me := socket.username.value;
        && db == (if dbConnection && me in old(db.users)
                  then old(db).(users := old(db.users)[me := old(db.users)[me].(lastActive := now)])
                  else old(db))
        && activeUsers == old(activeUsers) - {me}
        && events == old(events)
          + [Event(ToAll, UpdateUsers(ActiveList(dbConnection, db.users, activeUsers, now))),
             Event(ToAllExcept(socket.id), UpdateChat("INFO", me + " has disconnected"))]
      ensures outcome.Ok? && dbConnection && socket.username.value in old(db.users) ==>
        socket.username.value in ActiveList(dbConnection, db.users, activeUsers, now)
      ensures roomsCache == old(roomsCache) && nextSocketId == old(nextSocketId)
    {
      sockets := Without(sockets, socket);
      if !Truthy(socket.username) {
        return Ignored;
      }
      var me := socket.username.value;
      if dbConnection && me in db.users {
        db := db.(users := db.users[me := db.users[me].(lastActive := now)]);
      }
      activeUsers := activeUsers - {me};
      events := events
        + [Event(ToAll, UpdateUsers(ActiveList(dbConnection, db.users, activeUsers, now))),
           Event(ToAllExcept(socket.id), UpdateChat("INFO", me + " has disconnected"))];
      outcome := Ok;
    }
  }
}
