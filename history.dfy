/** Reading history back (server.js getChatHistory and the room-join handler):
    which records a query selects, in which order and how many, and how each
    record's displayed content is chosen from its plaintext mirror, its
    ciphertext or a sender-attributed placeholder. */
module History {
  import opened Js
  import opened Records
  import opened Encryption

  // ---------------------------------------------------------------------------
  // Ordering by timestamp

  predicate SortedBy<T>(s: seq<T>, key: T -> int)
  {
    forall i, j :: 0 <= i < j < |s| ==> key(s[i]) <= key(s[j])
  }

  /** Inserts `x` after every element whose key is not greater than its own. */
  function Insert<T>(x: T, s: seq<T>, key: T -> int): seq<T>
  {
    if s == [] then [x]
    else if key(x) < key(s[0]) then [x] + s
    else [s[0]] + Insert(x, s[1..], key)
  }

  /** A lower bound on the keys of `s` and of `x` bounds the keys after the insertion. */
  lemma {:induction false} InsertBound<T>(x: T, s: seq<T>, key: T -> int, b: int)
    requires b <= key(x) && forall k :: 0 <= k < |s| ==> b <= key(s[k])
    ensures forall k :: 0 <= k < |Insert(x, s, key)| ==> b <= key(Insert(x, s, key)[k])
  {
    if s != [] && key(s[0]) <= key(x) {
      var rest := Insert(x, s[1..], key);
      InsertBound(x, s[1..], key, b);
      var r := [s[0]] + rest;
      forall k | 1 <= k < |r| ensures b <= key(r[k]) {
        assert r[k] == rest[k - 1];
      }
    }
  }

  /** Insertion adds exactly `x`. */
  lemma {:induction false} InsertMultiset<T>(x: T, s: seq<T>, key: T -> int)
    ensures multiset(Insert(x, s, key)) == multiset(s) + multiset{x}
  {
    if s != [] && key(s[0]) <= key(x) {
      assert s == [s[0]] + s[1..];
      InsertMultiset(x, s[1..], key);
    }
  }

  /** Inserting into a sorted sequence keeps it sorted. */
  lemma {:induction false} InsertSorted<T>(x: T, s: seq<T>, key: T -> int)
    requires SortedBy(s, key)
    ensures SortedBy(Insert(x, s, key), key)
  {
    if s == [] {
    } else if key(x) < key(s[0]) {
      var r := [x] + s;
      forall i, j | 0 <= i < j < |r| ensures key(r[i]) <= key(r[j]) {
        assert r[j] == s[j - 1];
        if i > 0 {
          assert r[i] == s[i - 1];
        } else {
          assert key(s[0]) <= key(s[j - 1]);
        }
      }
    } else {
      var tail := s[1..];
      InsertSorted(x, tail, key);
      InsertBound(x, tail, key, key(s[0]));
      var rest := Insert(x, tail, key);
      var r := [s[0]] + rest;
      forall i, j | 0 <= i < j < |r| ensures key(r[i]) <= key(r[j]) {
        assert r[j] == rest[j - 1];
        if i > 0 {
          assert r[i] == rest[i - 1];
        }
      }
    }
  }

  /** A stable insertion sort by ascending key, standing for the
      `.sort({ timestamp: 1 })` of the store. The store leaves the order of
      equal timestamps unspecified; this model fixes it to insertion order. */
  function SortBy<T>(s: seq<T>, key: T -> int): (r: seq<T>)
    ensures SortedBy(r, key)
    ensures multiset(r) == multiset(s)
    ensures |r| == |s|
  {
    if s == [] then []
    else
      var init := s[..|s| - 1];
      assert s == init + [s[|s| - 1]];
      var sorted := SortBy(init, key);
      InsertSorted(s[|s| - 1], sorted, key);
      InsertMultiset(s[|s| - 1], sorted, key);
      var r := Insert(s[|s| - 1], sorted, key);
      assert |r| == |multiset(r)| == |multiset(init)| + 1 == |s|;
      r
  }

  function PmTime(m: PrivateMessage): int { m.timestamp }

  function RmTime(m: RoomMessage): int { m.timestamp }

  /** A slice of a sorted sequence is sorted. */
  lemma SortedSlice<T>(s: seq<T>, key: T -> int, lo: nat, hi: nat)
    requires SortedBy(s, key) && lo <= hi <= |s|
    ensures SortedBy(s[lo..hi], key)
  {
    var t := s[lo..hi];
    forall i, j | 0 <= i < j < |t| ensures key(t[i]) <= key(t[j]) {
      assert t[i] == s[lo + i] && t[j] == s[lo + j];
    }
  }

  /** Cutting a permutation of `s` at `n`: the two parts together are `s`. */
  lemma SplitMembers<T>(sorted: seq<T>, s: seq<T>, n: nat)
    requires multiset(sorted) == multiset(s) && n <= |sorted|
    ensures multiset(sorted[..n]) + multiset(sorted[n..]) == multiset(s)
    ensures forall y :: y in sorted[..n] ==> y in s
    ensures forall y :: y in sorted[n..] ==> y in s
    ensures forall x :: x in s ==> x in sorted[..n] || x in sorted[n..]
  {
    var front, back := sorted[..n], sorted[n..];
    assert sorted == front + back;
    assert multiset(sorted) == multiset(front) + multiset(back);
    forall y | y in front ensures y in s {
      assert multiset(s)[y] >= multiset(front)[y] > 0;
      assert y in multiset(s);
    }
    forall y | y in back ensures y in s {
      assert multiset(s)[y] >= multiset(back)[y] > 0;
      assert y in multiset(s);
    }
    forall x | x in s ensures x in front || x in back {
      assert x in multiset(s);
    }
  }

  /** Cutting a sorted sequence at `n`: every key of the front is at most
      every key of the back. */
  lemma SplitOrdered<T>(sorted: seq<T>, key: T -> int, n: nat)
    requires SortedBy(sorted, key) && n <= |sorted|
    ensures forall x, y :: x in sorted[n..] && y in sorted[..n] ==> key(y) <= key(x)
  {
    forall x, y | x in sorted[n..] && y in sorted[..n] ensures key(y) <= key(x) {
      var i :| 0 <= i < |sorted| - n && sorted[n..][i] == x;
      var j :| 0 <= j < n && sorted[..n][j] == y;
      assert sorted[n + i] == x && sorted[j] == y;
    }
  }

  /** The first `n` elements of a sorted permutation of `s`: at most `n`,
      sorted, drawn from `s`, all of `s` when it is no longer, exactly `n`
      otherwise, and nothing left out has a smaller key than what is kept. */
  lemma TakeSpec<T>(sorted: seq<T>, s: seq<T>, key: T -> int, n: nat)
    requires SortedBy(sorted, key) && multiset(sorted) == multiset(s) && |sorted| == |s|
    ensures var r := if |sorted| <= n then sorted else sorted[..n];
      && |r| <= n && SortedBy(r, key)
      && multiset(r) <= multiset(s)
      && (forall y :: y in r ==> y in s)
      && (|s| <= n ==> multiset(r) == multiset(s))
      && (|s| > n ==> |r| == n)
      && (forall x, y :: x in s && x !in r && y in r ==> key(y) <= key(x))
  {
    var m := if |sorted| <= n then |sorted| else n;
    SplitMembers(sorted, s, m);
    SplitOrdered(sorted, key, m);
    SortedSlice(sorted, key, 0, m);
    assert sorted[..m] == sorted[0..m];
    if |sorted| <= n {
      assert sorted[..m] == sorted;
    }
  }

  /** The last `n` elements of a sorted permutation of `s`, with nothing left
      out having a greater key than what is kept. */
  lemma DropSpec<T>(sorted: seq<T>, s: seq<T>, key: T -> int, n: nat)
    requires SortedBy(sorted, key) && multiset(sorted) == multiset(s) && |sorted| == |s|
    ensures var r := if |sorted| <= n then sorted else sorted[|sorted| - n..];
      && |r| <= n && SortedBy(r, key)
      && multiset(r) <= multiset(s)
      && (forall y :: y in r ==> y in s)
      && (|s| <= n ==> multiset(r) == multiset(s))
      && (|s| > n ==> |r| == n)
      && (forall x, y :: x in s && x !in r && y in r ==> key(x) <= key(y))
  {
    var cut := if |sorted| <= n then 0 else |sorted| - n;
    SplitMembers(sorted, s, cut);
    SplitOrdered(sorted, key, cut);
    SortedSlice(sorted, key, cut, |sorted|);
    assert sorted[cut..] == sorted[cut..|sorted|];
    if |sorted| <= n {
      assert sorted[cut..] == sorted;
    }
  }

  /** The first `n` elements after sorting by ascending key. */
  function Oldest<T>(s: seq<T>, key: T -> int, n: nat): seq<T>
  {
    var sorted := SortBy(s, key);
    if |sorted| <= n then sorted else sorted[..n]
  }

  /** The last `n` elements after sorting by ascending key, still ascending. */
  function Newest<T>(s: seq<T>, key: T -> int, n: nat): seq<T>
  {
    var sorted := SortBy(s, key);
    if |sorted| <= n then sorted else sorted[|sorted| - n..]
  }

  /** Oldest keeps the `n` smallest keys, ascending. */
  lemma OldestSpec<T>(s: seq<T>, key: T -> int, n: nat)
    ensures var r := Oldest(s, key, n);
      && |r| <= n && SortedBy(r, key)
      && multiset(r) <= multiset(s)
      && (forall y :: y in r ==> y in s)
      && (|s| <= n ==> multiset(r) == multiset(s))
      && (|s| > n ==> |r| == n)
      && (forall x, y :: x in s && x !in r && y in r ==> key(y) <= key(x))
  {
    TakeSpec(SortBy(s, key), s, key, n);
  }

  /** Newest keeps the `n` greatest keys, ascending. */
  lemma NewestSpec<T>(s: seq<T>, key: T -> int, n: nat)
    ensures var r := Newest(s, key, n);
      && |r| <= n && SortedBy(r, key)
      && multiset(r) <= multiset(s)
      && (forall y :: y in r ==> y in s)
      && (|s| <= n ==> multiset(r) == multiset(s))
      && (|s| > n ==> |r| == n)
      && (forall x, y :: x in s && x !in r && y in r ==> key(x) <= key(y))
  {
    var sorted := SortBy(s, key);
    DropSpec(sorted, s, key, n);
    assert Newest(s, key, n) == if |sorted| <= n then sorted else sorted[|sorted| - n..];
  }

  // ---------------------------------------------------------------------------
  // Private history

  const HistoryLimit := 50

  /** The `$or` filter of getChatHistory: the pair in either order. */
  predicate InConversation(m: PrivateMessage, a: string, b: string)
  {
    (m.sender == a && m.recipient == b) || (m.sender == b && m.recipient == a)
  }

  function Conversation(store: seq<PrivateMessage>, a: string, b: string): (r: seq<PrivateMessage>)
    ensures multiset(r) <= multiset(store)
    ensures forall m :: m in r <==> m in store && InConversation(m, a, b)
  {
    if store == [] then []
    else
      assert store == [store[0]] + store[1..];
      (if InConversation(store[0], a, b) then [store[0]] else []) + Conversation(store[1..], a, b)
  }

  lemma {:induction false} ConversationSymmetric(store: seq<PrivateMessage>, a: string, b: string)
    ensures Conversation(store, a, b) == Conversation(store, b, a)
  {
    if store != [] {
      ConversationSymmetric(store[1..], a, b);
    }
  }

  /** `.find({$or: ...}).sort({ timestamp: 1 }).limit(50)`. */
  function ConversationPage(store: seq<PrivateMessage>, a: string, b: string): seq<PrivateMessage>
  {
    Oldest(Conversation(store, a, b), PmTime, HistoryLimit)
  }

  /** The page holds only messages of the pair, ascending by timestamp, at most
      fifty of them, all of them when there are no more than fifty, and the
      messages left out are never older than one that is kept: the query keeps
      the OLDEST fifty. It is the same page whichever of the two asks. */
  lemma ConversationPageSpec(store: seq<PrivateMessage>, a: string, b: string)
    ensures var page := ConversationPage(store, a, b);
      && |page| <= HistoryLimit
      && SortedBy(page, PmTime)
      && (forall m :: m in page ==> m in store && InConversation(m, a, b))
      && multiset(page) <= multiset(Conversation(store, a, b))
      && (|Conversation(store, a, b)| <= HistoryLimit ==> multiset(page) == multiset(Conversation(store, a, b)))
      && (|Conversation(store, a, b)| > HistoryLimit ==> |page| == HistoryLimit)
      && (forall x, y :: x in Conversation(store, a, b) && x !in page && y in page ==> PmTime(y) <= PmTime(x))
      && page == ConversationPage(store, b, a)
  {
    ConversationSymmetric(store, a, b);
    OldestSpec(Conversation(store, a, b), PmTime, HistoryLimit);
  }

  // ---------------------------------------------------------------------------
  // Room history

  const RoomHistoryLimit := 20

  function RoomMessagesOf(store: seq<RoomMessage>, room: string): (r: seq<RoomMessage>)
    ensures multiset(r) <= multiset(store)
    ensures forall m :: m in r <==> m in store && m.room == room
  {
    if store == [] then []
    else
      assert store == [store[0]] + store[1..];
      (if store[0].room == room then [store[0]] else []) + RoomMessagesOf(store[1..], room)
  }

  /** `.find({room}).sort({ timestamp: -1 }).limit(20)` followed by `.reverse()`:
      the newest twenty, oldest first. */
  function RoomPage(store: seq<RoomMessage>, room: string): seq<RoomMessage>
  {
    Newest(RoomMessagesOf(store, room), RmTime, RoomHistoryLimit)
  }

  /** The room page holds only that room's messages, oldest first, at most
      twenty, all of them when there are no more, and no message left out is
      newer than one that is kept. */
  lemma RoomPageSpec(store: seq<RoomMessage>, room: string)
    ensures var page := RoomPage(store, room);
      && |page| <= RoomHistoryLimit
      && SortedBy(page, RmTime)
      && (forall m :: m in page ==> m in store && m.room == room)
      && multiset(page) <= multiset(RoomMessagesOf(store, room))
      && (|RoomMessagesOf(store, room)| <= RoomHistoryLimit ==> multiset(page) == multiset(RoomMessagesOf(store, room)))
      && (|RoomMessagesOf(store, room)| > RoomHistoryLimit ==> |page| == RoomHistoryLimit)
      && (forall x, y :: x in RoomMessagesOf(store, room) && x !in page && y in page ==> RmTime(x) <= RmTime(y))
  {
    NewestSpec(RoomMessagesOf(store, room), RmTime, RoomHistoryLimit);
  }

  // ---------------------------------------------------------------------------
  // Content resolution

  /** The placeholder shown for a message whose content is unavailable. */
  function MessageFrom(sender: string): (r: string)
    ensures r != "" && !IsSentinel(r)
  {
    var r := "[Message from " + sender + "]";
    assert r[1] == 'M';
    assert InvalidMessage[1] == 'I' && DecryptionFailed[1] == 'D' && EncryptedPlaceholder[1] == 'E';
    r
  }

  /** The decrypt-or-placeholder step shared by both histories. */
  function Decrypted(c: Crypto, content: string, viewerKey: string, sender: string, other: string): (r: string)
    ensures r != "" && !IsSentinel(r)
  {
    var d := DecryptMessage(c, Some(content), viewerKey, Some(sender), Some(other));
    if d == "" || IsSentinel(d) then MessageFrom(sender) else d
  }

  /** The content getChatHistory shows for one record: the plaintext mirror
      when it is non-empty; otherwise, for an encrypted record, the decryption
      under the viewer's private key and the (sender, recipient) pair, never a
      sentinel; otherwise the raw content. */
  function ResolvePrivate(c: Crypto, m: PrivateMessage, viewerKey: string): (r: string)
    ensures m.plaintext != "" ==> r == m.plaintext
    ensures m.plaintext == "" && m.encrypted ==> r != "" && !IsSentinel(r)
    ensures m.plaintext == "" && !m.encrypted ==> r == m.content
  {
    if m.plaintext != "" then m.plaintext
    else if m.encrypted then Decrypted(c, m.content, viewerKey, m.sender, m.recipient)
    else m.content
  }

  /** The content the room-join handler shows for one record of `room`; the
      decryption uses the pair (sender, "room_" + room). */
  function ResolveRoom(c: Crypto, m: RoomMessage, room: string, viewerKey: string): (r: string)
    ensures m.plaintext != "" ==> r == m.plaintext
    ensures m.plaintext == "" && m.encrypted ==> r != "" && !IsSentinel(r)
    ensures m.plaintext == "" && !m.encrypted ==> r == m.content
  {
    if m.plaintext != "" then m.plaintext
    else if m.encrypted then Decrypted(c, m.content, viewerKey, m.sender, "room_" + room)
    else m.content
  }

  /** The room rule is the private rule with "room_" + room as the recipient. */
  lemma RoomRuleIsPrivateRule(c: Crypto, m: RoomMessage, room: string, viewerKey: string)
    ensures ResolveRoom(c, m, room, viewerKey) ==
      ResolvePrivate(c, PrivateMessage(0, m.sender, "room_" + room, m.content, m.plaintext, m.encrypted, false, m.timestamp), viewerKey)
  {
  }

  /** A record that lost its plaintext mirror but whose content was encrypted
      under the conversation key of its two participants shows the original
      text to whichever user views it, whatever that viewer's private key. */
  lemma EncryptedRecordReadable(c: Crypto, m: PrivateMessage, text: string, senderKey: string, viewerKey: string)
    requires Sound(c) && text != "" && !IsSentinel(text)
    requires m.sender != "" && m.recipient != "" && m.plaintext == "" && m.encrypted
    requires EncryptSucceeds(c, text, senderKey, Some(m.sender), Some(m.recipient))
    requires m.content == EncryptMessage(c, text, senderKey, Some(m.sender), Some(m.recipient))
    ensures ResolvePrivate(c, m, viewerKey) == text
  {
    var key := ConversationKey(c, m.sender, m.recipient).value;
    assert c.aesDecrypt(key, m.content) == Some(text);
    assert FirstAttempt(c, m.content, viewerKey, Some(m.sender), Some(m.recipient)) == text;
  }

  /** An encrypted record without a plaintext mirror whose content cannot be
      read is shown as "[Message from <sender>]": the content is empty, or
      deriving the conversation key throws, or no attempt yields text (the
      conversation-key attempt, made when both names are non-empty, and the
      private-key attempt). */
  lemma UndecryptableShowsSender(c: Crypto, m: PrivateMessage, viewerKey: string)
    requires m.plaintext == "" && m.encrypted
    requires || m.content == ""
             || (m.sender != "" && m.recipient != "" && ConversationKey(c, m.sender, m.recipient).None?)
             || (&& Attempt(c, viewerKey + c.secret, m.content) == ""
                 && (m.sender != "" && m.recipient != "" ==>
                       ConversationKey(c, m.sender, m.recipient).Some? &&
                       Attempt(c, ConversationKey(c, m.sender, m.recipient).value, m.content) == ""))
    ensures ResolvePrivate(c, m, viewerKey) == "[Message from " + m.sender + "]"
  {
  }

  /** The same fallback for a room record, whose conversation pair is
      (sender, "room_" + room). */
  lemma UndecryptableRoomShowsSender(c: Crypto, m: RoomMessage, room: string, viewerKey: string)
    requires m.plaintext == "" && m.encrypted
    requires || m.content == ""
             || (m.sender != "" && ConversationKey(c, m.sender, "room_" + room).None?)
             || (&& Attempt(c, viewerKey + c.secret, m.content) == ""
                 && (m.sender != "" ==>
                       ConversationKey(c, m.sender, "room_" + room).Some? &&
                       Attempt(c, ConversationKey(c, m.sender, "room_" + room).value, m.content) == ""))
    ensures ResolveRoom(c, m, room, viewerKey) == "[Message from " + m.sender + "]"
  {
    var pm := PrivateMessage(0, m.sender, "room_" + room, m.content, m.plaintext, m.encrypted, false, m.timestamp);
    assert pm.recipient != "" by { assert pm.recipient[0] == 'r'; }
    RoomRuleIsPrivateRule(c, m, room, viewerKey);
    UndecryptableShowsSender(c, pm, viewerKey);
  }

  /** One entry of the `chatHistory` payload. */
  datatype HistoryEntry = HistoryEntry(sender: string, content: string, timestamp: int, id: nat)

  /** The `messages.map(...)` of getChatHistory. */
  function HistoryEntries(c: Crypto, page: seq<PrivateMessage>, viewerKey: string): (r: seq<HistoryEntry>)
    ensures |r| == |page|
    ensures forall i :: 0 <= i < |page| ==>
      r[i].sender == page[i].sender && r[i].id == page[i].id && r[i].timestamp == page[i].timestamp
    ensures forall i :: 0 <= i < |page| ==> r[i].content == ResolvePrivate(c, page[i], viewerKey)
    ensures forall i :: 0 <= i < |page| && page[i].plaintext == "" && page[i].encrypted ==> !IsSentinel(r[i].content)
  {
    seq(|page|, i requires 0 <= i < |page| =>
      HistoryEntry(page[i].sender, ResolvePrivate(c, page[i], viewerKey), page[i].timestamp, page[i].id))
  }
}
