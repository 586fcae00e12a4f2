/** The friend-request transitions of server.js over the user store: what the
    `$push`/`$pull` updates of sendFriendRequest and respondToFriendRequest do
    to the user documents, as sequential updates of a map. An update whose
    filter matches no document (an unknown username) changes nothing. */
module FriendGraph {
  import opened Records

  type Users = map<string, User>

  const UserNotFound := "User not found"
  const AlreadyFriends := "You are already friends with this user"
  const AlreadySent := "Friend request already sent"

  predicate HasRequestFrom(u: User, from: string)
  {
    exists i :: 0 <= i < |u.friendRequests| && u.friendRequests[i].from == from
  }

  predicate HasSentTo(u: User, to: string)
  {
    exists i :: 0 <= i < |u.sentRequests| && u.sentRequests[i].to == to
  }

  /** MongoDB's `$pull` with a condition: every element that matches goes,
      every other element stays, as often as it occurred. */
  function Pull<T(!new)>(s: seq<T>, matches: T -> bool): (r: seq<T>)
    ensures |r| <= |s|
  {
    if s == [] then []
    else
      assert s == [s[0]] + s[1..];
      (if matches(s[0]) then [] else [s[0]]) + Pull(s[1..], matches)
  }

  /** `$pull` works element by element: pulling from a concatenation is
      concatenating the pulls, so the kept elements stay in their order. */
  lemma {:induction false} PullAppend<T(!new)>(a: seq<T>, b: seq<T>, matches: T -> bool)
    ensures Pull(a + b, matches) == Pull(a, matches) + Pull(b, matches)
  {
    if a != [] {
      var head := if matches(a[0]) then [] else [a[0]];
      assert (a + b)[0] == a[0];
      assert (a + b)[1..] == a[1..] + b;
      PullAppend(a[1..], b, matches);
      calc {
        Pull(a + b, matches);
        head + Pull(a[1..] + b, matches);
        head + (Pull(a[1..], matches) + Pull(b, matches));
        (head + Pull(a[1..], matches)) + Pull(b, matches);
        Pull(a, matches) + Pull(b, matches);
      }
    } else {
      assert a + b == b;
    }
  }

  /** An element is left after `$pull` exactly when it was there and does not match. */
  lemma {:induction false} PullMember<T(!new)>(s: seq<T>, matches: T -> bool, x: T)
    ensures x in Pull(s, matches) <==> x in s && !matches(x)
  {
    if s != [] {
      assert s == [s[0]] + s[1..];
      PullMember(s[1..], matches, x);
    }
  }

  /** `$pull` keeps every element that does not match as often as it occurred
      and drops every element that does. */
  lemma {:induction false} PullCount<T(!new)>(s: seq<T>, matches: T -> bool, x: T)
    ensures multiset(Pull(s, matches))[x] == if matches(x) then 0 else multiset(s)[x]
  {
    if s != [] {
      assert s == [s[0]] + s[1..];
      PullCount(s[1..], matches, x);
    }
  }

  /** `$pull: { friendRequests: { from } }`. */
  function PullRequestsFrom(reqs: seq<FriendRequest>, from: string): seq<FriendRequest>
  {
    Pull(reqs, (q: FriendRequest) => q.from == from)
  }

  /** `$pull: { sentRequests: { to } }`. */
  function PullSentTo(reqs: seq<SentRequest>, to: string): seq<SentRequest>
  {
    Pull(reqs, (q: SentRequest) => q.to == to)
  }

  // ---------------------------------------------------------------------------
  // sendFriendRequest

  datatype SendOutcome = Sent(users: Users) | Refused(reason: string)

  /** The checks and the two `$push` updates of sendFriendRequest (server.js:348-391),
      for an authenticated sender with the database available. */
  function SendRequest(users: Users, from: string, to: string, now: int): SendOutcome
  {
    if to !in users then Refused(UserNotFound)
    else if from in users[to].friends then Refused(AlreadyFriends)
    else if HasRequestFrom(users[to], from) then Refused(AlreadySent)
    else
      var withRequest := users[to := users[to].(friendRequests := users[to].friendRequests + [FriendRequest(from, Pending, now)])];
      if from in withRequest then
        Sent(withRequest[from := withRequest[from].(sentRequests := withRequest[from].sentRequests + [SentRequest(to, Pending, now)])])
      else Sent(withRequest)
  }

  /** The refusals in the order the handler checks them, and on success the
      exact change: a pending request appended to the recipient's
      friendRequests and to the sender's sentRequests, nothing else touched
      (when sender and recipient are the same user both appends hit it). */
  lemma SendRequestSpec(users: Users, from: string, to: string, now: int)
    ensures SendRequest(users, from, to, now) == Refused(UserNotFound) <==> to !in users
    ensures SendRequest(users, from, to, now) == Refused(AlreadyFriends) <==>
      to in users && from in users[to].friends
    ensures SendRequest(users, from, to, now) == Refused(AlreadySent) <==>
      to in users && from !in users[to].friends && HasRequestFrom(users[to], from)
    ensures SendRequest(users, from, to, now).Sent? <==>
      to in users && from !in users[to].friends && !HasRequestFrom(users[to], from)
    ensures SendRequest(users, from, to, now).Sent? ==>
      var after := SendRequest(users, from, to, now).users;
      && after.Keys == users.Keys
      && forall n :: n in users ==>
        after[n] == users[n].(
          friendRequests := if n == to then users[n].friendRequests + [FriendRequest(from, Pending, now)]
                            else users[n].friendRequests,
          sentRequests := if n == from then users[n].sentRequests + [SentRequest(to, Pending, now)]
                          else users[n].sentRequests)
  {
  }

  // ---------------------------------------------------------------------------
  // respondToFriendRequest

  /** The responder's side of an accept: `$push friends from`, `$pull friendRequests {from}`. */
  function AcceptOnResponder(u: User, from: string): User
  {
    u.(friends := u.friends + [from], friendRequests := PullRequestsFrom(u.friendRequests, from))
  }

  /** The requester's side of an accept: `$push friends responder`, `$pull sentRequests {to: responder}`. */
  function AcceptOnRequester(u: User, responder: string): User
  {
    u.(friends := u.friends + [responder], sentRequests := PullSentTo(u.sentRequests, responder))
  }

  /** The database updates of respondToFriendRequest (server.js:420-463). No
      check that a request exists is made. */
  function Respond(users: Users, responder: string, from: string, response: string): Users
  {
    if response == "accept" then
      var u1 := if responder in users then users[responder := AcceptOnResponder(users[responder], from)] else users;
      if from in u1 then u1[from := AcceptOnRequester(u1[from], responder)] else u1
    else if response == "reject" then
      var u1 := if responder in users
                then users[responder := users[responder].(friendRequests := PullRequestsFrom(users[responder].friendRequests, from))]
                else users;
      if from in u1 then u1[from := u1[from].(sentRequests := PullSentTo(u1[from].sentRequests, responder))] else u1
    else users
  }

  /** What each response does to every user document. */
  lemma RespondSpec(users: Users, responder: string, from: string, response: string)
    ensures Respond(users, responder, from, response).Keys == users.Keys
    ensures response == "accept" ==> forall n :: n in users ==>
      Respond(users, responder, from, response)[n] == users[n].(
        friends := users[n].friends + (if n == responder then [from] else []) + (if n == from then [responder] else []),
        friendRequests := if n == responder then PullRequestsFrom(users[n].friendRequests, from) else users[n].friendRequests,
        sentRequests := if n == from then PullSentTo(users[n].sentRequests, responder) else users[n].sentRequests)
    ensures response == "reject" ==> forall n :: n in users ==>
      Respond(users, responder, from, response)[n] == users[n].(
        friendRequests := if n == responder then PullRequestsFrom(users[n].friendRequests, from) else users[n].friendRequests,
        sentRequests := if n == from then PullSentTo(users[n].sentRequests, responder) else users[n].sentRequests)
    ensures response != "accept" && response != "reject" ==> Respond(users, responder, from, response) == users
  {
    if response == "accept" {
      forall n | n in users
        ensures Respond(users, responder, from, response)[n] == users[n].(
          friends := users[n].friends + (if n == responder then [from] else []) + (if n == from then [responder] else []),
          friendRequests := if n == responder then PullRequestsFrom(users[n].friendRequests, from) else users[n].friendRequests,
          sentRequests := if n == from then PullSentTo(users[n].sentRequests, responder) else users[n].sentRequests)
      {
      }
    }
  }

  // ---------------------------------------------------------------------------
  // Scenarios and as-written behaviour

  /** After a request from a to b is sent and b accepts it, each is in the
      other's friends, b holds no request from a and a no sent request to b. */
  lemma SendThenAccept(users: Users, a: string, b: string, t: int)
    requires a in users && b in users && a != b
    requires SendRequest(users, a, b, t).Sent?
    ensures var after := Respond(SendRequest(users, a, b, t).users, b, a, "accept");
      && a in after[b].friends && b in after[a].friends
      && !HasRequestFrom(after[b], a) && !HasSentTo(after[a], b)
  {
    var u1 := SendRequest(users, a, b, t).users;
    SendRequestSpec(users, a, b, t);
    RespondSpec(u1, b, a, "accept");
    var after := Respond(u1, b, a, "accept");
    assert after[b].friends == u1[b].friends + [a];
    assert after[a].friends == u1[a].friends + [b];
    forall i | 0 <= i < |after[b].friendRequests| ensures after[b].friendRequests[i].from != a {
      PullMember(u1[b].friendRequests, (q: FriendRequest) => q.from == a, after[b].friendRequests[i]);
    }
    forall i | 0 <= i < |after[a].sentRequests| ensures after[a].sentRequests[i].to != b {
      PullMember(u1[a].sentRequests, (q: SentRequest) => q.to == b, after[a].sentRequests[i]);
    }
  }

  /** Sending the same request twice in a row: the second is refused. */
  lemma SendTwiceIsDuplicate(users: Users, a: string, b: string, t1: int, t2: int)
    requires SendRequest(users, a, b, t1).Sent?
    ensures SendRequest(SendRequest(users, a, b, t1).users, a, b, t2) == Refused(AlreadySent)
  {
    SendRequestSpec(users, a, b, t1);
    var u1 := SendRequest(users, a, b, t1).users;
    var k := |users[b].friendRequests|;
    assert u1[b].friendRequests[k].from == a;
    SendRequestSpec(u1, a, b, t2);
  }

  /** Once b has accepted a, a request in either direction is refused as
      already friends. */
  lemma SendAfterAcceptRefused(users: Users, a: string, b: string, t1: int, t2: int)
    requires a in users && b in users && a != b
    requires SendRequest(users, a, b, t1).Sent?
    ensures var after := Respond(SendRequest(users, a, b, t1).users, b, a, "accept");
      SendRequest(after, a, b, t2) == Refused(AlreadyFriends) &&
      SendRequest(after, b, a, t2) == Refused(AlreadyFriends)
  {
    SendThenAccept(users, a, b, t1);
  }

  /** Accepting needs no pending request: any accept makes the two friends. */
  lemma AcceptWithoutRequest(users: Users, responder: string, from: string)
    requires responder in users && from in users && responder != from
    requires !HasRequestFrom(users[responder], from)
    ensures var after := Respond(users, responder, from, "accept");
      from in after[responder].friends && responder in after[from].friends
  {
    RespondSpec(users, responder, from, "accept");
    var after := Respond(users, responder, from, "accept");
    assert after[responder].friends[|after[responder].friends| - 1] == from;
    assert after[from].friends[|after[from].friends| - 1] == responder;
  }

  /** `$push` does not deduplicate: accepting again adds the name once more. */
  lemma RepeatedAcceptDuplicatesFriend(users: Users, responder: string, from: string)
    requires responder in users && from in users && responder != from
    ensures var after := Respond(users, responder, from, "accept");
      multiset(after[responder].friends)[from] == multiset(users[responder].friends)[from] + 1
  {
    RespondSpec(users, responder, from, "accept");
  }

  /** Rejecting removes the request entries and leaves every friends list as it was. */
  lemma RejectKeepsFriends(users: Users, responder: string, from: string)
    requires responder in users
    ensures var after := Respond(users, responder, from, "reject");
      && (forall n :: n in users ==> after[n].friends == users[n].friends)
      && !HasRequestFrom(after[responder], from)
  {
    RespondSpec(users, responder, from, "reject");
    var after := Respond(users, responder, from, "reject");
    forall i | 0 <= i < |after[responder].friendRequests| ensures after[responder].friendRequests[i].from != from {
      PullMember(users[responder].friendRequests, (q: FriendRequest) => q.from == from, after[responder].friendRequests[i]);
    }
  }

  /** Accepting a's request leaves a request that b had sent to a in place:
      only one direction is cleared. */
  lemma CrossRequestSurvivesAccept(users: Users, a: string, b: string)
    requires a in users && b in users && a != b
    requires HasRequestFrom(users[a], b)
    ensures HasRequestFrom(Respond(users, b, a, "accept")[a], b)
  {
    RespondSpec(users, b, a, "accept");
  }

  /** The duplicate check looks only at the recipient's received requests:
      alice's request to bob goes through while bob's request to alice is pending. */
  lemma DuplicateCheckIsOneDirectional()
    ensures var users := map[
        "alice" := User("pa", "ka", [], [FriendRequest("bob", Pending, 0)], [], 0),
        "bob" := User("pb", "kb", [], [], [SentRequest("alice", Pending, 0)], 0)];
      HasRequestFrom(users["alice"], "bob") && SendRequest(users, "alice", "bob", 1).Sent?
  {
    var users := map[
        "alice" := User("pa", "ka", [], [FriendRequest("bob", Pending, 0)], [], 0),
        "bob" := User("pb", "kb", [], [], [SentRequest("alice", Pending, 0)], 0)];
    assert users["alice"].friendRequests[0].from == "bob";
    assert !HasRequestFrom(users["bob"], "alice");
  }
}
