# ChatApp in Dafny

A model of the core of ChatApp, a Socket.IO chat server with MongoDB
persistence and a browser client, and proofs about that model.

- **Js** (`js.dfy`): the JavaScript conventions the rest relies on:
  - `null`/`undefined` as `Option`;
  - string truthiness;
  - `String.prototype.trim` over the ECMAScript white-space set.
- **Encryption** (`encryption.dfy`): `utils/encryption.js`:
  - private-key generation as the hex encoding of caller-supplied random bytes;
  - the conversation key of a pair of usernames;
  - the selection between that key and the private key;
  - fail-open encryption;
  - the decryption pipeline, with its private-key fallback and its three placeholder results.

  SHA-256, AES and the process secret are fields of a `Crypto` value. Every
  operation receives one; nothing is assumed about it except what a lemma's
  `requires` states (`Sound`: a ciphertext decrypts, under the same key, to
  its message).
- **Records** (`records.dfy`): the documents of the User, PrivateMessage,
  Message and Room collections, and the in-memory registry of active users.
- **FriendGraph** (`friendgraph.dfy`): what the `$push`/`$pull` updates of
  `sendFriendRequest` and `respondToFriendRequest` do to the user documents.
- **History** (`history.dfy`): reading history back:
  - which records the queries select, in which order, and how many (a sort by timestamp, paging; the model fixes insertion order among equal timestamps, which the store leaves unspecified);
  - how the content shown for one record is chosen among its plaintext mirror, its decryption and a `[Message from …]` placeholder.
- **Store** (`store.dfy`):
  - lookup of a private message by id;
  - the ownership-checked soft delete;
  - the schema's `required` validation, which decides whether a message is stored;
  - freshness of message ids.
- **ChatServer** (`server.dfy`): the socket handlers of `server.js` as
  methods of a `Server` class.
  - Its state is:
    - the database;
    - the room cache;
    - the registry of active users;
    - the connected sockets, in connection order;
    - the log of emitted events.
  - Each emission is an `Event(target, payload)`.
  - The helpers that refresh friends, requests, active users and rooms
    (`updateFriendsList`, `updateFriendRequests`, `updateActiveUsers`,
    `updateRooms`) are called without `await`. Their emissions are
    appended after the handler's own, in call order, and read the state the
    handler leaves.
- **Client** (`client.dfy`):
  - the HTML escaping done by `displayMessage`;
  - the `updateChat` classification;
  - the `chatHistory` rendering;
  - the room switch of `changeRoom`.

  The client's globals, its chat panel (a sequence of rendered lines) and its
  emissions are the fields of a `ClientState` class.

Behaviour the model reproduces as written:

- **History paging.** `getChatHistory` sorts ascending and then limits, so
  it returns the *oldest* fifty messages of a conversation
  (`ConversationPageSpec`).
- **Responding to friend requests.**
  - `respondToFriendRequest` does not check that a request exists
    (`AcceptWithoutRequest`).
  - `$push` adds a friend again on a repeated accept
    (`RepeatedAcceptDuplicatesFriend`).
  - Only the direction being answered is cleared (`CrossRequestSurvivesAccept`).
- **Sending friend requests.** The duplicate check of `sendFriendRequest`
  looks only at the recipient's received requests
  (`DuplicateCheckIsOneDirectional`).
- **Private-message gate.** The friendship check of `sendPrivateMessage` is
  skipped without a database connection (`PrivateGateSpec`).
- **Deleting a message.**
  - The recipient notified by `deleteMessage` is the one the client names,
    not the stored one.
  - The lookup is by strict equality, so a `null` recipient notifies the
    first socket whose user has logged out, and an `undefined` recipient the
    first socket that never logged in (`MissingRecipientMatches`).
- **Conversation keys.**
  - Joining two usernames with `_` is not injective
    (`ConversationKeyCollision`).
  - Room messages are encrypted under the key of the pair
    (sender, `"room_" + room`).
- **Client rendering.**
  - Announcements and errors are inserted into the panel without escaping
    (`AnnouncementKeepsMarkup`).
  - The sender name of a chat bubble, and its first letter in the avatar,
    are inserted without escaping (`BubbleSenderKeepsMarkup`).
  - History entries of a different user named "You" also show as "You"
    (`HistoryLineName`).
- **Sessions.**
  - `disconnect` sets the departing user's `lastActive` to now before it
    broadcasts the users of the last hour, so that user is still listed.
  - `disconnect` removes the registry entry even when another socket of the
    same user is still connected.
  - `logout` keeps the socket's current room.
- **Creating a room.** A blank room name fails the schema's validation, and
  `createRoom` then broadcasts the cache, which already holds the new room.
  The `trim` setter of the Room schema is taken to apply to the `findOne`
  query of `createRoom` as well, as Mongoose casts query values through
  the schema.

## Model

| member | source | states |
|---|---|---|
| `Js.TrimStartSpec` | public/app.js:415 | leading trim leaves a suffix of the input that is empty or starts with a non-white-space character; everything removed is white space |
| `Js.TrimEndSpec` | public/app.js:415 | trailing trim leaves a prefix that is empty or ends with a non-white-space character; everything removed is white space |
| `Js.Trim` | public/app.js:415 | `String.prototype.trim` as leading then trailing removal of white space; specified by TrimStartSpec, TrimEndSpec and TrimEmptyIffBlank |
| `Js.TrimEmptyIffBlank` | public/app.js:415 | `s.trim() === ''` holds exactly when `s` is empty or all white space |
| `Encryption.SentinelsDistinct` | utils/encryption.js:46-86 | the three placeholder results of decryption are distinct from one another |
| `Encryption.HexEncode` | utils/encryption.js:7 | the hex encoding has two characters per byte |
| `Encryption.HexEncodeDigits` | utils/encryption.js:7 | every character of the encoding is a lower-case hex digit |
| `Encryption.GeneratePrivateKey` | utils/encryption.js:6-8 | a private key is 64 lower-case hex digits |
| `Encryption.HexRoundTrip` | utils/encryption.js:7 | decoding the hex encoding gives back the bytes |
| `Encryption.PrivateKeysDistinct` | utils/encryption.js:6-8 | distinct random bytes give distinct private keys |
| `Encryption.SortedJoinSymmetric` | utils/encryption.js:11 | sorting the pair before joining makes the result independent of argument order |
| `Encryption.ConversationKey` | utils/encryption.js:10-14 | SHA-256 of the sorted, joined pair and the secret, `None` when hashing throws; specified by ConversationKeySymmetric and ConversationKeyCollision |
| `Encryption.ConversationKeySymmetric` | utils/encryption.js:10-14 | the conversation key of (a, b) is that of (b, a) |
| `Encryption.ConversationKeyCollision` | utils/encryption.js:11 | the pairs ("a_b", "c") and ("a", "b_c") share a conversation key |
| `Encryption.ChooseKey` | utils/encryption.js:19-28 | the conversation key is chosen exactly when sender and recipient are both truthy, for that pair; otherwise the private key |
| `Encryption.KeyChoiceSymmetric` | utils/encryption.js:19-28 | swapping sender and recipient selects the same key material |
| `Encryption.EncryptMessage` | utils/encryption.js:17-37 | when key derivation or AES throws, the plaintext is returned unchanged; otherwise the AES ciphertext under the selected key |
| `Encryption.Attempt` | utils/encryption.js:58-62 | one guarded AES decryption, empty when it throws; the inner try blocks at 58-62 and 69-73; specified through FallbackToPrivateKey and RoundTrip |
| `Encryption.FirstAttempt` | utils/encryption.js:54-63 | the conversation-key attempt, made only when both names are truthy; specified by ConversationResultWins and FallbackToPrivateKey |
| `Encryption.DecryptMessage` | utils/encryption.js:40-87 | the result is never empty; a missing or empty input gives "[Invalid Message]"; a throwing key derivation gives "[Encrypted Message]" |
| `Encryption.DecryptIgnoresCipherOnInvalidInput` | utils/encryption.js:46-49 | for a missing or empty input the result is the same under any cipher |
| `Encryption.ConversationResultWins` | utils/encryption.js:54-65 | a non-empty result of the conversation-key attempt is returned, whatever the private key |
| `Encryption.FallbackToPrivateKey` | utils/encryption.js:65-79 | the private-key attempt decides the result exactly when the first attempt was skipped or empty; both empty give "[Decryption Failed]" |
| `Encryption.RoundTrip` | utils/encryption.js:17-87 | under a sound cipher, decrypting what was encrypted for the same pair (in either order) gives the non-empty message back |
| `Encryption.EmptyMessageFails` | utils/encryption.js:65-79 | an empty message encrypted under the private key decrypts to "[Decryption Failed]" |
| `Encryption.EmptyConversationMessage` | utils/encryption.js:54-79 | an empty message under a conversation key falls through to the private-key attempt, whose non-empty result is returned, else "[Decryption Failed]" |
| `FriendGraph.Pull` | server.js:426 | MongoDB's conditional `$pull`: the list never grows; specified by PullMember, PullCount and PullAppend |
| `FriendGraph.PullMember` | server.js:426 | an element remains after the pull exactly when it was in the list and does not match the condition |
| `FriendGraph.PullCount` | server.js:426 | each non-matching element remains as many times as it occurred, and matching ones are all removed |
| `FriendGraph.PullAppend` | server.js:426 | pulling from a concatenation concatenates the pulls, so the remaining elements keep their order |
| `FriendGraph.PullRequestsFrom` | server.js:426 | `$pull` of friendRequests with condition `{ from }`, an instance of Pull |
| `FriendGraph.PullSentTo` | server.js:434 | `$pull` of sentRequests with condition `{ to: responder }`, an instance of Pull |
| `FriendGraph.SendRequest` | server.js:348-391 | the refusals and the two `$push` updates of sendFriendRequest; specified by SendRequestSpec |
| `FriendGraph.SendRequestSpec` | server.js:348-391 | each refusal happens exactly under its condition, in the handler's order (unknown user, already friends, request already sent); on success a pending request is appended to the recipient's friendRequests and to the sender's sentRequests, and nothing else changes |
| `FriendGraph.Respond` | server.js:420-463 | the `$push`/`$pull` updates of each response; specified by RespondSpec |
| `FriendGraph.RespondSpec` | server.js:420-463 | accept adds each to the other's friends and pulls both request entries; reject only pulls them; any other response changes nothing; the set of users stays |
| `FriendGraph.SendThenAccept` | server.js:338-472 | after a request and its acceptance, each is the other's friend and no request entry between them in that direction remains |
| `FriendGraph.SendTwiceIsDuplicate` | server.js:359-363 | a second identical request is refused as already sent |
| `FriendGraph.SendAfterAcceptRefused` | server.js:354-357 | once accepted, a request in either direction is refused as already friends |
| `FriendGraph.AcceptWithoutRequest` | server.js:420-436 | accepting without a pending request still makes the two friends |
| `FriendGraph.RepeatedAcceptDuplicatesFriend` | server.js:422-436 | every accept adds one more copy of the friend's name |
| `FriendGraph.RejectKeepsFriends` | server.js:450-460 | a rejection leaves every friends list unchanged and removes the request |
| `FriendGraph.CrossRequestSurvivesAccept` | server.js:420-436 | accepting a's request leaves a request in the other direction in place |
| `FriendGraph.DuplicateCheckIsOneDirectional` | server.js:359-363 | a request is let through while the opposite request is pending |
| `History.SortBy` | server.js:636 | the result is sorted by the key and is a permutation of the input |
| `History.OldestSpec` | server.js:636 | sort then limit keeps at most n elements, ascending, all when there are no more, and nothing left out is smaller than what is kept |
| `History.NewestSpec` | server.js:896-905 | descending sort, limit and reverse keep the n greatest, ascending, and nothing left out is greater than what is kept |
| `History.Conversation` | server.js:631-635 | the `$or` filter keeps exactly the messages between the two users, in either direction |
| `History.ConversationSymmetric` | server.js:631-635 | the conversation of (a, b) is the conversation of (b, a) |
| `History.ConversationPage` | server.js:631-636 | filter, ascending sort and a limit of fifty; specified by ConversationPageSpec |
| `History.ConversationPageSpec` | server.js:631-636 | the page holds only the pair's messages, ascending, at most fifty, all when there are no more, never dropping an older one for a newer; the same page for either user |
| `History.RoomMessagesOf` | server.js:896-898 | the room query keeps exactly the messages of that room |
| `History.RoomPage` | server.js:896-905 | room filter, descending sort, a limit of twenty and reverse; specified by RoomPageSpec |
| `History.RoomPageSpec` | server.js:896-905 | the room page holds only that room's messages, oldest first, at most twenty, all when there are no more, never dropping a newer one for an older |
| `History.MessageFrom` | server.js:675 | the placeholder is non-empty and is none of the decryption placeholders |
| `History.Decrypted` | server.js:665-676 | the shown content is never empty and never a decryption placeholder |
| `History.ResolvePrivate` | server.js:651-684 | a non-empty plaintext mirror is shown; otherwise an encrypted record shows a non-placeholder text, and a clear record its content |
| `History.ResolveRoom` | server.js:909-934 | the same rule for room messages |
| `History.RoomRuleIsPrivateRule` | server.js:909-934 | the room rule is the private rule with recipient `"room_" + room` |
| `History.EncryptedRecordReadable` | server.js:655-676 | an encrypted record without plaintext shows its original text to any viewer, whatever that viewer's private key |
| `History.HistoryEntries` | server.js:651-695 | one entry per record, in order, with its sender, id and timestamp and the content the resolution rule gives for that record; an encrypted record never shows a placeholder |
| `History.UndecryptableShowsSender` | server.js:660-676 | an encrypted record without plaintext shows "[Message from " + sender + "]" when its content is empty, when deriving the conversation key throws, or when neither attempt yields text |
| `History.UndecryptableRoomShowsSender` | server.js:914-931 | the same fallback for a room record, with the pair (sender, "room_" + room) |
| `Store.IndexOfId` | server.js:490 | the index found holds the id and is the first such; absence means no record has it |
| `Store.SoftDelete` | server.js:490-506 | not found, forbidden or the updated collection; specified by SoftDeleteSpec |
| `Store.SoftDeleteSpec` | server.js:490-506 | an unknown id is not found, another user's record is forbidden; on success only that record's content and plaintext become "[Message deleted]" |
| `Store.DeletedRecordShowsMarker` | server.js:503-506 | the deleted record stays in its conversation and is shown as the marker to any viewer |
| `Store.AppendKeepsIdsFresh` | server.js:565-571 | storing under the next id keeps the ids distinct and below the next one |
| `Store.SoftDeleteKeepsIdsFresh` | server.js:503-506 | a soft delete changes no id |
| `Store.Storable` | models/PrivateMessage.js:14-21 | the `required` validators of content and plaintext reject the empty string; the store condition of Deliver and SendMessage |
| `ChatServer.AddFreshName` | models/Room.js:3-9 | adding a room whose name is not taken keeps names unique |
| `ChatServer.Socket.constructor` | server.js:182-184 | a new connection is unauthenticated, with no session data |
| `ChatServer.NameOf` | server.js:50 | `socket.username` as a JavaScript value: the name, `null` after a logout, `undefined` before any login |
| `ChatServer.FirstOnline` | server.js:47-55 | the index of the first socket whose username is strictly equal (`===`) to the key, which may be a name, `null` or `undefined`; none when no socket matches |
| `ChatServer.MissingRecipientMatches` | server.js:47-55 | a `null` key finds the first logged-out socket, an `undefined` key the first socket never logged in, and no name finds either |
| `ChatServer.FriendsRefresh` | server.js:58-69 | the friends-list emission, made only with a username, the database and an existing user; its events are part of the handlers' ensures |
| `ChatServer.RequestsRefresh` | server.js:72-83 | the friend-requests emission under the same conditions; its events are part of the handlers' ensures |
| `ChatServer.ActiveList` | server.js:86-115 | with the database the users active in the last hour, otherwise the registry; sent to the socket by Login and broadcast by Logout and Disconnect |
| `ChatServer.PrivateGate` | server.js:542-547 | the friendship gate of sendPrivateMessage; specified by PrivateGateSpec |
| `ChatServer.PrivateGateSpec` | server.js:542-547 | with the database, a message passes exactly when the sender exists and the recipient is a friend; a missing sender is a send failure, a non-friend a refusal; without it everything passes |
| `ChatServer.AcceptedFriendsMayMessage` | server.js:542-547 | once b has accepted a's request, messages pass the gate in both directions |
| `ChatServer.Replay` | server.js:905-945 | one updateChat per page message, to the joining socket, in page order |
| `ChatServer.Server.constructor` | server.js:142-178 | the cache is the default rooms; with a database they are also stored; no sockets, users or events |
| `ChatServer.Server.Connect` | server.js:182-184 | a fresh unauthenticated socket is appended; nothing else changes |
| `ChatServer.Server.FindSocketByUsername` | server.js:47-55 | the first connected socket whose username is strictly equal to the key (name, `null` or `undefined`), or null when there is none |
| `ChatServer.Server.Register` | server.js:186-224 | each refusal with its message; on success a user with the password, a fresh 64-digit key and empty lists, and the success event |
| `ChatServer.Server.Login` | server.js:226-292 | wrong credentials report an error; on success the session is set in "global", lastActive is now, the user joins the registry, and the events follow in the source's order |
| `ChatServer.Server.Logout` | server.js:294-309 | nothing without a username; otherwise the session is cleared (room kept), the registry entry goes and everybody gets the user list |
| `ChatServer.Server.SendFriendRequest` | server.js:338-406 | the session and database checks, then the refusals and updates of SendRequest, with the notices to both sides and the recipient's refreshed requests |
| `ChatServer.Server.RespondToFriendRequest` | server.js:408-472 | the updates of Respond; an accept notifies and refreshes both sides, a reject the responder; the responder's requests are always refreshed |
| `ChatServer.Server.DeleteMessage` | server.js:475-530 | the session, database, existence and ownership checks with their errors; on success the soft delete, the sender's confirmation and a notice to the first socket whose username is strictly equal to the recipient the client sent (a name, `null` or `undefined`), if any |
| `ChatServer.Server.SendPrivateMessage` | server.js:533-616 | the gate's errors; otherwise the message is encrypted under the pair's key, stored when the database is up and the schema accepts it, delivered if the recipient is online, and confirmed, with the stored id or none |
| `ChatServer.Server.Deliver` | server.js:560-610 | the record is stored under the next id exactly when the database is up and the schema accepts it; recipient delivery and sender confirmation carry that id |
| `ChatServer.Server.GetChatHistory` | server.js:618-703 | not logged in is an error; without the database an empty history; otherwise the entries of the conversation page resolved for the viewer's key |
| `ChatServer.Server.SendMessage` | server.js:784-823 | nothing without a username and a room; the text is encrypted under the (user, "room_" + room) key, stored when the database is up and the schema accepts it, and broadcast in the clear to the room |
| `ChatServer.Server.CreateRoom` | server.js:825-867 | nothing without a room or a username; a cached name is refused; otherwise the room joins the cache and, unless already stored or blank, the collection; everybody gets the room list |
| `ChatServer.Server.JoinRoom` | server.js:869-956 | nothing without a username; the old room hears of the leave, the socket and new room are told; with the database the room page is replayed oldest first |
| `ChatServer.Server.ReplayPage` | server.js:905-944 | the loop emits exactly the replay of the page |
| `ChatServer.Server.Disconnect` | server.js:958-1015 | the socket is forgotten; with a username, lastActive becomes now (with the database), the registry entry goes, everybody gets the user list and the others hear of the departure |
| `Client.SanitizeChar` | public/app.js:510-515 | on one character the replacement chain is the reference escape |
| `Client.SanitizeIsEscapeEach` | public/app.js:510-515 | the replacement chain equals escaping each character by itself |
| `Client.EscapeRoundTrip` | public/app.js:510-515 | reading the entities back recovers the input |
| `Client.EscapeNoMarkup` | public/app.js:510-515 | the escape contains no `<`, `>`, `"` or `'` |
| `Client.EscapeEntities` | public/app.js:510-515 | every `&` in the escape begins one of the five entities |
| `Client.SanitizeSpec` | public/app.js:510-515 | the sanitizer's output has no markup characters, every `&` begins an entity, it is no shorter than the input, and unescaping gives the input back |
| `Client.SanitizePlain` | public/app.js:510-515 | text without special characters is unchanged |
| `Client.Sanitize` | public/app.js:510-515 | the five global replacements in source order; specified by SanitizeIsEscapeEach and SanitizeSpec |
| `Client.DisplayMessage` | public/app.js:502-515 | the placeholder for a missing message and the sanitized bubble; specified by DisplayMessageSpec |
| `Client.DisplayMessageSpec` | public/app.js:502-515 | the bubble keeps sender, flag and id; its text has no markup and reads back as the message, or as the placeholder when there is none |
| `Client.Classify` | public/app.js:440-449 | the updateChat choice between announcement, error and bubble; specified by ClassifySpec |
| `Client.ClassifySpec` | public/app.js:440-449 | INFO is an announcement and ERROR an error, both unescaped; any other name is a bubble from that name, mine exactly when it is my username |
| `Client.AnnouncementKeepsMarkup` | public/app.js:440-448 | an INFO text that starts with a name beginning with `<` reaches the panel with that `<`, while the same text from a user holds no `<` |
| `Client.BubbleSenderKeepsMarkup` | public/app.js:440-449 | a message whose sender name begins with `<` becomes a bubble carrying that name unchanged; displayMessage writes it into the header and avatar without escaping (public/app.js:532-537) |
| `Client.SkippedIffBlank` | public/app.js:415 | an entry is skipped exactly when its content is empty or white space |
| `Client.HistoryLines` | public/app.js:413-428 | the skip-or-show forEach over the entries; specified by HistoryLinesSpec and HistoryLinesInOrder |
| `Client.HistoryLinesSpec` | public/app.js:413-428 | each line is the bubble of a non-blank entry, each non-blank entry has its bubble, there are no more lines than entries, and all-blank histories give no lines |
| `Client.HistoryLinesInOrder` | public/app.js:413-428 | the lines equal the front-to-back filter-then-map reference: the bubbles of the non-blank entries, each once, in entry order |
| `Client.RenderHistory` | public/app.js:413-428 | the loop produces exactly the history lines of the entries |
| `Client.HistoryLineName` | public/app.js:420-427 | my entries show as "You" and are mine; others show their sender's name |
| `Client.ShowHistory` | public/app.js:401-432 | the notice for a missing or empty history, otherwise the history lines; specified by ShowHistoryEmpty and HistoryLinesInOrder |
| `Client.ShowHistoryEmpty` | public/app.js:407-410 | an empty history shows the notice; one of blank entries shows nothing |
| `Client.ClientState.constructor` | public/app.js:51-54 | the initial globals: no user, room "global", empty panel, no emissions |
| `Client.ClientState.ChangeRoom` | public/app.js:572-585 | the current room is a no-op; otherwise one updateRooms emission and the room becomes current |
| `Client.ClientState.OnUpdateChat` | public/app.js:440-449 | one classified line is appended to the panel |
| `Client.ClientState.OnChatHistory` | public/app.js:401-432 | the panel is replaced by the notice for an empty history or by the bubbles of the non-blank entries |

## Left out

- Transport: the Socket.IO transport, socket.io room membership and the
  HTTP/static server are events and targets here, not simulated.
- Concurrency: handlers are sequential; interleaving between awaits is not modelled.
- Passwords: bcrypt hashing is modelled as equality of the stored password.
- Cryptography: SHA-256, AES, UTF-8 decoding and the process secret are
  parameters of the `Crypto` value. `crypto.randomBytes` is a caller-supplied
  byte sequence.
- Clock: the clock is a `now` parameter.
- Registration timestamp: the default `lastActive` of a new user is taken
  to be now. The User schema is not part of this model.
- Logging: console logging is not modelled.
- Post-save check: `sendPrivateMessage` re-reads and decrypts a stored
  message only for logging.
- Handlers not modelled: `createUser` and `searchUsers` (server.js:312-336,
  706-782), `public/mobile.js`, the DOM rendering and handlers of `public/app.js`
  other than `chatHistory`, `updateChat` and `changeRoom`, and the base64
  helpers of the client. These are outside the modelled core.
- String ordering: usernames are compared character by character; UTF-16
  code units and Unicode code points are not distinguished.
- Database failures: MongoDB exceptions and ObjectId cast errors, and so the
  "Failed to …" replies of the catch blocks. The store is a total in-memory
  value.
- Start-up on a non-empty database: `initializeRooms` (server.js:142-178) is modelled for an empty
  database only, and the loading of stored rooms into the cache on restart is not.
- Unreachable paths: the inner `catch` of the room replay (server.js:940-944)
  is unreachable in the model, because `decryptMessage` never throws.
- History.ConversationPage, History.RoomPage: the model picks one order for
  equal timestamps (insertion order), which the store leaves unspecified;
  ConversationPageSpec and RoomPageSpec do not depend on the order chosen among ties.
- ChatServer.Server.Valid: keeps only that socket ids are below the next id
  to be allocated; it does not state that socket ids are pairwise distinct.
