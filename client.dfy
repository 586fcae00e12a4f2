/** The pure helpers and the chat-panel state of public/app.js: the HTML
    escaping of displayMessage, the filtering and naming of chatHistory, the
    classification of updateChat and the room switch of changeRoom. The
    chat panel is a sequence of rendered lines rather than DOM nodes. */
module Client {
  import opened Js
  import opened History

  // ---------------------------------------------------------------------------
  // The sanitizer of displayMessage

  /** `s.replace(/c/g, rep)` for a single-character pattern. */
  function ReplaceAll(s: string, c: char, rep: string): string
  {
    if s == [] then []
    else (if s[0] == c then rep else [s[0]]) + ReplaceAll(s[1..], c, rep)
  }

  /** The five replacements of displayMessage, in the source's order. */
  function Sanitize(s: string): string
  {
    ReplaceAll(ReplaceAll(ReplaceAll(ReplaceAll(ReplaceAll(s,
      '&', "&amp;"), '<', "&lt;"), '>', "&gt;"), '"', "&quot;"), '\'', "&#039;")
  }

  /** The reference escape of one character. */
  function EscapeChar(c: char): string
  {
    if c == '&' then "&amp;"
    else if c == '<' then "&lt;"
    else if c == '>' then "&gt;"
    else if c == '"' then "&quot;"
    else if c == '\'' then "&#039;"
    else [c]
  }

  /** The reference escape of a string: every character by itself. */
  function EscapeEach(s: string): string
  {
    if s == [] then [] else EscapeChar(s[0]) + EscapeEach(s[1..])
  }

  const Entities := ["&amp;", "&lt;", "&gt;", "&quot;", "&#039;"]

  predicate IsMarkup(c: char)
  {
    c == '<' || c == '>' || c == '"' || c == '\''
  }

  /** `t` begins with one of the five entities. */
  predicate StartsWithEntity(t: string)
  {
    || (|t| >= 5 && t[..5] == "&amp;")
    || (|t| >= 4 && t[..4] == "&lt;")
    || (|t| >= 4 && t[..4] == "&gt;")
    || (|t| >= 6 && t[..6] == "&quot;")
    || (|t| >= 6 && t[..6] == "&#039;")
  }

  /** One of the five entities starts at position i of r. */
  predicate EntityAt(r: string, i: int)
  {
    0 <= i <= |r| && StartsWithEntity(r[i..])
  }

  /** The inverse of the escape: each entity back to its character. */
  function Unescape(r: string): string
    decreases |r|
  {
    if r == [] then []
    else if |r| >= 5 && r[..5] == "&amp;" then "&" + Unescape(r[5..])
    else if |r| >= 4 && r[..4] == "&lt;" then "<" + Unescape(r[4..])
    else if |r| >= 4 && r[..4] == "&gt;" then ">" + Unescape(r[4..])
    else if |r| >= 6 && r[..6] == "&quot;" then "\"" + Unescape(r[6..])
    else if |r| >= 6 && r[..6] == "&#039;" then "'" + Unescape(r[6..])
    else [r[0]] + Unescape(r[1..])
  }

  lemma {:induction false} ReplaceAppend(a: string, b: string, c: char, rep: string)
    ensures ReplaceAll(a + b, c, rep) == ReplaceAll(a, c, rep) + ReplaceAll(b, c, rep)
  {
    if a == [] {
      assert a + b == b;
    } else {
      assert (a + b)[0] == a[0];
      assert (a + b)[1..] == a[1..] + b;
      ReplaceAppend(a[1..], b, c, rep);
    }
  }

  lemma {:induction false} ReplaceAbsent(s: string, c: char, rep: string)
    requires c !in s
    ensures ReplaceAll(s, c, rep) == s
  {
    if s != [] {
      assert s[0] in s;
      assert forall x :: x in s[1..] ==> x in s;
      ReplaceAbsent(s[1..], c, rep);
      assert [s[0]] + s[1..] == s;
    }
  }

  lemma ReplaceSingle(x: char, c: char, rep: string)
    ensures ReplaceAll([x], c, rep) == if x == c then rep else [x]
  {
    assert [x][1..] == [];
  }

  /** The chain distributes over concatenation. */
  lemma SanitizeAppend(a: string, b: string)
    ensures Sanitize(a + b) == Sanitize(a) + Sanitize(b)
  {
    var a1, b1 := ReplaceAll(a, '&', "&amp;"), ReplaceAll(b, '&', "&amp;");
    ReplaceAppend(a, b, '&', "&amp;");
    var a2, b2 := ReplaceAll(a1, '<', "&lt;"), ReplaceAll(b1, '<', "&lt;");
    ReplaceAppend(a1, b1, '<', "&lt;");
    var a3, b3 := ReplaceAll(a2, '>', "&gt;"), ReplaceAll(b2, '>', "&gt;");
    ReplaceAppend(a2, b2, '>', "&gt;");
    var a4, b4 := ReplaceAll(a3, '"', "&quot;"), ReplaceAll(b3, '"', "&quot;");
    ReplaceAppend(a3, b3, '"', "&quot;");
    ReplaceAppend(a4, b4, '\'', "&#039;");
  }

  lemma AmpCase(c: char) requires c == '&' ensures Sanitize([c]) == "&amp;" {
    ReplaceSingle(c, '&', "&amp;");
    var t := ReplaceAll([c], '&', "&amp;");
    assert '<' !in t && '>' !in t && '"' !in t && '\'' !in t;
    ReplaceAbsent(t, '<', "&lt;"); ReplaceAbsent(t, '>', "&gt;"); ReplaceAbsent(t, '"', "&quot;"); ReplaceAbsent(t, '\'', "&#039;");
  }

  lemma LtCase(c: char) requires c == '<' ensures Sanitize([c]) == "&lt;" {
    ReplaceSingle(c, '&', "&amp;");
    ReplaceSingle(c, '<', "&lt;");
    var t := ReplaceAll(ReplaceAll([c], '&', "&amp;"), '<', "&lt;");
    assert t == "&lt;";
    assert '>' !in t && '"' !in t && '\'' !in t;
    ReplaceAbsent(t, '>', "&gt;"); ReplaceAbsent(t, '"', "&quot;"); ReplaceAbsent(t, '\'', "&#039;");
  }
  lemma GtCase(c: char) requires c == '>' ensures Sanitize([c]) == "&gt;" {
    ReplaceSingle(c, '&', "&amp;");
    ReplaceSingle(c, '<', "&lt;");
    ReplaceSingle(c, '>', "&gt;");
    var t := ReplaceAll(ReplaceAll(ReplaceAll([c], '&', "&amp;"), '<', "&lt;"), '>', "&gt;");
    assert t == "&gt;";
    assert '"' !in t && '\'' !in t;
    ReplaceAbsent(t, '"', "&quot;"); ReplaceAbsent(t, '\'', "&#039;");
  }
  lemma QuotCase(c: char) requires c == '"' ensures Sanitize([c]) == "&quot;" {
    ReplaceSingle(c, '&', "&amp;");
    ReplaceSingle(c, '<', "&lt;");
    ReplaceSingle(c, '>', "&gt;");
    ReplaceSingle(c, '"', "&quot;");
    var t := ReplaceAll(ReplaceAll(ReplaceAll(ReplaceAll([c], '&', "&amp;"), '<', "&lt;"), '>', "&gt;"), '"', "&quot;");
    assert t == "&quot;";
    ReplaceAbsent(t, '\'', "&#039;");
  }
  lemma OtherCase(c: char) requires c != '&' && c != '<' && c != '>' && c != '"' ensures Sanitize([c]) == if c == '\'' then "&#039;" else [c] {
    ReplaceSingle(c, '&', "&amp;");
    ReplaceSingle(c, '<', "&lt;");
    ReplaceSingle(c, '>', "&gt;");
    ReplaceSingle(c, '"', "&quot;");
    ReplaceSingle(c, '\'', "&#039;");
  }

  /** On one character the chain is the reference escape: `&` goes first,
      so the ampersands the later replacements introduce are left alone. */
  lemma SanitizeChar(c: char)
    ensures Sanitize([c]) == EscapeChar(c)
  {
    if c == '&' {
      AmpCase(c);
    } else if c == '<' {
      LtCase(c);
    } else if c == '>' {
      GtCase(c);
    } else if c == '"' {
      QuotCase(c);
    } else {
      OtherCase(c);
    }
  }

  /** The chain of replacements equals the character-by-character escape. */
  lemma {:induction false} SanitizeIsEscapeEach(s: string)
    ensures Sanitize(s) == EscapeEach(s)
  {
    if s == [] {
    } else {
      assert s == [s[0]] + s[1..];
      SanitizeAppend([s[0]], s[1..]);
      SanitizeChar(s[0]);
      SanitizeIsEscapeEach(s[1..]);
    }
  }

  lemma UnescapeOther(c: char, t: string)
    requires c != '&'
    ensures Unescape([c] + t) == [c] + Unescape(t)
  {
    var r := [c] + t;
    assert r[0] == c && r[1..] == t;
    assert |r| >= 4 ==> r[..4][0] == c;
    assert |r| >= 5 ==> r[..5][0] == c;
    assert |r| >= 6 ==> r[..6][0] == c;
  }

  /** Reading back the escape of one character gives that character. */
  lemma UnescapeChar(c: char, t: string)
    ensures Unescape(EscapeChar(c) + t) == [c] + Unescape(t)
  {
    var r := EscapeChar(c) + t;
    if c == '&' {
      assert r[..5] == "&amp;" && r[5..] == t;
    } else if c == '<' {
      assert r[1] == 'l' && r[..4] == "&lt;" && r[4..] == t;
    } else if c == '>' {
      assert r[1] == 'g' && r[..4] == "&gt;" && r[4..] == t;
    } else if c == '"' {
      assert r[1] == 'q' && r[..6] == "&quot;" && r[6..] == t;
    } else if c == '\'' {
      assert r[1] == '#' && r[..6] == "&#039;" && r[6..] == t;
    } else {
      UnescapeOther(c, t);
    }
  }

  lemma {:induction false} EscapeRoundTrip(s: string)
    ensures Unescape(EscapeEach(s)) == s
  {
    if s != [] {
      UnescapeChar(s[0], EscapeEach(s[1..]));
      EscapeRoundTrip(s[1..]);
      assert [s[0]] + s[1..] == s;
    }
  }

  lemma {:induction false} EscapeLength(s: string)
    ensures |EscapeEach(s)| >= |s|
  {
    if s != [] {
      EscapeLength(s[1..]);
    }
  }

  lemma {:induction false} EscapeNoMarkup(s: string)
    ensures forall i :: 0 <= i < |EscapeEach(s)| ==> !IsMarkup(EscapeEach(s)[i])
  {
    if s != [] {
      var e, rest := EscapeChar(s[0]), EscapeEach(s[1..]);
      EscapeNoMarkup(s[1..]);
      forall i | 0 <= i < |e + rest|
        ensures !IsMarkup((e + rest)[i])
      {
        if i >= |e| {
          assert (e + rest)[i] == rest[i - |e|];
        }
      }
    }
  }

  /** An escape is an entity, whose only `&` is its first character, or the
      character itself when that is not `&`. */
  lemma EscapeCharShape(c: char)
    ensures EscapeChar(c) in Entities || (EscapeChar(c) == [c] && c != '&')
    ensures EscapeChar(c) in Entities ==> EscapeChar(c)[0] == '&'
    ensures forall i :: 0 < i < |EscapeChar(c)| ==> EscapeChar(c)[i] != '&'
  {
  }

  lemma EntityAtShift(e: string, rest: string, j: int)
    requires EntityAt(rest, j)
    ensures EntityAt(e + rest, j + |e|)
  {
    assert (e + rest)[j + |e|..] == rest[j..];
  }

  lemma EntityAtFront(e: string, rest: string)
    requires e in Entities
    ensures EntityAt(e + rest, 0)
  {
    assert (e + rest)[0..] == e + rest;
    assert (e + rest)[..|e|] == e;
  }

  /** An `&` inside the escape of the first character begins an entity. */
  lemma EntitiesWithin(c: char, rest: string)
    ensures var r := EscapeChar(c) + rest;
      forall i :: 0 <= i < |EscapeChar(c)| && r[i] == '&' ==> EntityAt(r, i)
  {
    var e := EscapeChar(c);
    EscapeCharShape(c);
    if e in Entities {
      EntityAtFront(e, rest);
    }
    forall i | 0 <= i < |e| && (e + rest)[i] == '&' ensures EntityAt(e + rest, i) {
      assert e[i] == '&';
    }
  }

  /** The entities of `rest` stay entities behind a prefix. */
  lemma EntitiesAfter(e: string, rest: string)
    requires forall i :: 0 <= i < |rest| && rest[i] == '&' ==> EntityAt(rest, i)
    ensures forall i :: |e| <= i < |e + rest| && (e + rest)[i] == '&' ==> EntityAt(e + rest, i)
  {
    forall i | |e| <= i < |e + rest| && (e + rest)[i] == '&'
      ensures EntityAt(e + rest, i)
    {
      assert rest[i - |e|] == '&';
      EntityAtShift(e, rest, i - |e|);
    }
  }

  lemma {:induction false} EscapeEntities(s: string)
    ensures forall i :: 0 <= i < |EscapeEach(s)| && EscapeEach(s)[i] == '&' ==> EntityAt(EscapeEach(s), i)
  {
    if s != [] {
      var e, rest := EscapeChar(s[0]), EscapeEach(s[1..]);
      assert EscapeEach(s) == e + rest;
      EscapeEntities(s[1..]);
      EntitiesWithin(s[0], rest);
      EntitiesAfter(e, rest);
    }
  }

  /** What displayMessage's sanitizer guarantees: the output contains no
      `<`, `>`, `"` or `'`, every `&` in it begins one of the five entities,
      it is at least as long as the input, and the input is recovered by
      reading the entities back, so every other character stays, in order. */
  lemma SanitizeSpec(s: string)
    ensures var r := Sanitize(s);
      && |r| >= |s|
      && (forall i :: 0 <= i < |r| ==> !IsMarkup(r[i]))
      && (forall i :: 0 <= i < |r| && r[i] == '&' ==> EntityAt(r, i))
      && Unescape(r) == s
  {
    SanitizeIsEscapeEach(s);
    EscapeLength(s);
    EscapeNoMarkup(s);
    EscapeEntities(s);
    EscapeRoundTrip(s);
  }

  /** A string without any of the five special characters is left as it is. */
  lemma {:induction false} SanitizePlain(s: string)
    requires forall i :: 0 <= i < |s| ==> !IsMarkup(s[i]) && s[i] != '&'
    ensures Sanitize(s) == s
  {
    SanitizeIsEscapeEach(s);
    PlainEscape(s);
  }

  lemma {:induction false} PlainEscape(s: string)
    requires forall i :: 0 <= i < |s| ==> !IsMarkup(s[i]) && s[i] != '&'
    ensures EscapeEach(s) == s
  {
    if s != [] {
      assert !IsMarkup(s[0]) && s[0] != '&';
      PlainEscape(s[1..]);
      assert [s[0]] + s[1..] == s;
    }
  }

  // ---------------------------------------------------------------------------
  // Rendered lines

  const Unavailable := "[Message could not be displayed]"

  /** A line of the chat panel: the empty-history notice, an announcement or
      an error (inserted as given), or a message bubble holding escaped text. */
  datatype Line =
    | NoMessages
    | Announcement(text: string)
    | ErrorNotice(text: string)
    | Bubble(sender: string, html: string, fromMe: bool, messageId: Option<nat>)

  /** displayMessage (public/app.js:502-515): a missing message becomes the
      placeholder, and the text is escaped. */
  function DisplayMessage(sender: string, message: Option<string>, isFromMe: bool, messageId: Option<nat>): Line
  {
    Bubble(sender, Sanitize(if message.None? then Unavailable else message.value), isFromMe, messageId)
  }

  /** The bubble carries the sender, the flag and the id as given; its text
      holds no markup and reads back as the message, or as the placeholder
      when there is no message. */
  lemma DisplayMessageSpec(sender: string, message: Option<string>, isFromMe: bool, messageId: Option<nat>)
    ensures var l := DisplayMessage(sender, message, isFromMe, messageId);
      && l.Bubble? && l.sender == sender && l.fromMe == isFromMe && l.messageId == messageId
      && Unescape(l.html) == (if message.None? then Unavailable else message.value)
      && (forall i :: 0 <= i < |l.html| ==> !IsMarkup(l.html[i]))
  {
    SanitizeSpec(if message.None? then Unavailable else message.value);
  }

  /** The updateChat handler's choice (public/app.js:440-449). */
  function Classify(username: string, data: string, me: string): Line
  {
    if username == "INFO" then Announcement(data)
    else if username == "ERROR" then ErrorNotice(data)
    else DisplayMessage(username, Some(data), username == me, None)
  }

  /** "INFO" is an announcement and "ERROR" an error, both shown with the
      text as sent (not escaped); any other name gives a bubble from that
      name, marked as mine exactly when it is my username, whose text reads
      back as sent and holds no markup. */
  lemma ClassifySpec(username: string, data: string, me: string)
    ensures Classify(username, data, me) == Announcement(data) <==> username == "INFO"
    ensures Classify(username, data, me) == ErrorNotice(data) <==> username == "ERROR"
    ensures Classify(username, data, me).Bubble? <==> username != "INFO" && username != "ERROR"
    ensures var l := Classify(username, data, me);
      l.Bubble? ==>
        && l.sender == username && (l.fromMe <==> username == me)
        && Unescape(l.html) == data
        && (forall i :: 0 <= i < |l.html| ==> !IsMarkup(l.html[i]))
  {
    DisplayMessageSpec(username, Some(data), username == me, None);
  }

  /** Announcements are not escaped: a server text that embeds a username
      beginning with markup, such as "<b> has joined global room", reaches
      the panel with that markup, while the same text sent by a user is
      shown without it. */
  lemma AnnouncementKeepsMarkup(name: string, rest: string, sender: string, me: string)
    requires |name| > 0 && name[0] == '<'
    requires sender != "INFO" && sender != "ERROR"
    ensures Classify("INFO", name + rest, me).text[0] == '<'
    ensures forall i :: 0 <= i < |Classify(sender, name + rest, me).html| ==> Classify(sender, name + rest, me).html[i] != '<'
  {
    ClassifySpec(sender, name + rest, me);
  }

  /** The sender's name is not escaped either: it is written into the bubble
      header (and its first letter into the avatar) as given, so a username
      beginning with markup reaches the panel as markup. */
  lemma BubbleSenderKeepsMarkup(name: string, data: string, me: string)
    requires |name| > 0 && name[0] == '<'
    ensures Classify(name, data, me).Bubble? && Classify(name, data, me).sender == name
  {
    assert name != "INFO" && name != "ERROR" by { assert "INFO"[0] == 'I' && "ERROR"[0] == 'E'; }
  }

  // ---------------------------------------------------------------------------
  // The chatHistory handler

  /** The skip test of the chatHistory handler: no content or blank content. */
  predicate Skipped(content: string)
  {
    content == "" || Trim(content) == ""
  }

  /** The bubble of one history entry: "You" for my own messages. */
  function HistoryLine(m: HistoryEntry, me: string): Line
  {
    DisplayMessage(if m.sender == me then "You" else m.sender, Some(m.content), m.sender == me, Some(m.id))
  }

  /** A forEach that skips some elements and shows the others, in order. */
  function ShowUnskipped<T, U>(s: seq<T>, skip: T -> bool, show: T -> U): seq<U>
  {
    if s == [] then []
    else ShowUnskipped(s[..|s| - 1], skip, show) + (if skip(s[|s| - 1]) then [] else [show(s[|s| - 1])])
  }

  lemma {:induction false} ShowUnskippedSound<T, U>(s: seq<T>, skip: T -> bool, show: T -> U)
    ensures |ShowUnskipped(s, skip, show)| <= |s|
    ensures forall u :: u in ShowUnskipped(s, skip, show) ==> exists i :: 0 <= i < |s| && !skip(s[i]) && u == show(s[i])
  {
    if s != [] {
      var init := s[..|s| - 1];
      ShowUnskippedSound(init, skip, show);
      forall u | u in ShowUnskipped(s, skip, show)
        ensures exists i :: 0 <= i < |s| && !skip(s[i]) && u == show(s[i])
      {
        if u in ShowUnskipped(init, skip, show) {
          var i :| 0 <= i < |init| && !skip(init[i]) && u == show(init[i]);
          assert s[i] == init[i];
        } else {
          assert !skip(s[|s| - 1]) && u == show(s[|s| - 1]);
        }
      }
    }
  }

  lemma {:induction false} ShowUnskippedComplete<T, U>(s: seq<T>, skip: T -> bool, show: T -> U)
    ensures forall i :: 0 <= i < |s| && !skip(s[i]) ==> show(s[i]) in ShowUnskipped(s, skip, show)
  {
    if s != [] {
      var init := s[..|s| - 1];
      ShowUnskippedComplete(init, skip, show);
      forall i | 0 <= i < |s| && !skip(s[i])
        ensures show(s[i]) in ShowUnskipped(s, skip, show)
      {
        if i < |init| {
          assert s[i] == init[i];
        }
      }
    }
  }

  lemma {:induction false} ShowUnskippedNone<T, U>(s: seq<T>, skip: T -> bool, show: T -> U)
    requires forall i :: 0 <= i < |s| ==> skip(s[i])
    ensures ShowUnskipped(s, skip, show) == []
  {
    if s != [] {
      var init := s[..|s| - 1];
      assert forall i :: 0 <= i < |init| ==> init[i] == s[i];
      ShowUnskippedNone(init, skip, show);
      assert skip(s[|s| - 1]);
    }
  }

  /** The bubbles of the forEach of the chatHistory handler, in order. */
  function HistoryLines(messages: seq<HistoryEntry>, me: string): seq<Line>
  {
    ShowUnskipped(messages, (m: HistoryEntry) => Skipped(m.content), (m: HistoryEntry) => HistoryLine(m, me))
  }

  lemma HistoryLinesSnoc(init: seq<HistoryEntry>, m: HistoryEntry, me: string)
    ensures HistoryLines(init + [m], me) ==
      HistoryLines(init, me) + (if Skipped(m.content) then [] else [HistoryLine(m, me)])
  {
    assert (init + [m])[..|init + [m]| - 1] == init;
  }

  /** What the chatHistory handler leaves in the panel (public/app.js:401-432). */
  function ShowHistory(messages: Option<seq<HistoryEntry>>, me: string): seq<Line>
  {
    if messages.None? || |messages.value| == 0 then [NoMessages]
    else HistoryLines(messages.value, me)
  }

  /** Skipping is exactly blankness: empty or ECMAScript white space only. */
  lemma SkippedIffBlank(content: string)
    ensures Skipped(content) <==> IsBlank(content)
  {
    TrimEmptyIffBlank(content);
  }

  /** The history lines are the bubbles of the non-blank entries: each line
      is the bubble of such an entry, each such entry has its bubble, and a
      history of blank entries has no lines. */
  lemma HistoryLinesSpec(messages: seq<HistoryEntry>, me: string)
    ensures |HistoryLines(messages, me)| <= |messages|
    ensures forall l :: l in HistoryLines(messages, me) ==>
      exists i :: 0 <= i < |messages| && !IsBlank(messages[i].content) && l == HistoryLine(messages[i], me)
    ensures forall i :: 0 <= i < |messages| && !IsBlank(messages[i].content) ==>
      HistoryLine(messages[i], me) in HistoryLines(messages, me)
    ensures (forall i :: 0 <= i < |messages| ==> IsBlank(messages[i].content)) ==> HistoryLines(messages, me) == []
  {
    var skip := (m: HistoryEntry) => Skipped(m.content);
    var show := (m: HistoryEntry) => HistoryLine(m, me);
    forall i | 0 <= i < |messages|
      ensures skip(messages[i]) <==> IsBlank(messages[i].content)
    {
      SkippedIffBlank(messages[i].content);
    }
    ShowUnskippedSound(messages, skip, show);
    ShowUnskippedComplete(messages, skip, show);
    if forall i :: 0 <= i < |messages| ==> IsBlank(messages[i].content) {
      ShowUnskippedNone(messages, skip, show);
    }
  }

  /** My own entries show as "You" and are marked as mine; any other entry
      shows its sender's name, so a different user named "You" also shows as
      "You", unmarked. */
  lemma HistoryLineName(m: HistoryEntry, me: string)
    ensures HistoryLine(m, me).fromMe <==> m.sender == me
    ensures HistoryLine(m, me).sender == "You" <==> m.sender == me || m.sender == "You"
    ensures Unescape(HistoryLine(m, me).html) == m.content
  {
    DisplayMessageSpec(if m.sender == me then "You" else m.sender, Some(m.content), m.sender == me, Some(m.id));
  }

  /** A reference for the forEach, read front to back: the bubbles of the
      entries that are not blank, in the order of the entries. */
  function NonBlankBubbles(messages: seq<HistoryEntry>, me: string): seq<Line>
  {
    if messages == [] then []
    else (if IsBlank(messages[0].content) then [] else [HistoryLine(messages[0], me)]) + NonBlankBubbles(messages[1..], me)
  }

  lemma {:induction false} NonBlankBubblesSnoc(init: seq<HistoryEntry>, m: HistoryEntry, me: string)
    ensures NonBlankBubbles(init + [m], me) ==
      NonBlankBubbles(init, me) + (if IsBlank(m.content) then [] else [HistoryLine(m, me)])
  {
    if init == [] {
      assert [] + [m] == [m];
      assert [m][1..] == [];
    } else {
      var head := if IsBlank(init[0].content) then [] else [HistoryLine(init[0], me)];
      var last := if IsBlank(m.content) then [] else [HistoryLine(m, me)];
      assert (init + [m])[0] == init[0];
      assert (init + [m])[1..] == init[1..] + [m];
      NonBlankBubblesSnoc(init[1..], m, me);
      calc {
        NonBlankBubbles(init + [m], me);
        head + NonBlankBubbles(init[1..] + [m], me);
        head + (NonBlankBubbles(init[1..], me) + last);
        (head + NonBlankBubbles(init[1..], me)) + last;
        NonBlankBubbles(init, me) + last;
      }
    }
  }

  /** The history lines are exactly the bubbles of the non-blank entries,
      each once and in the order of the entries. */
  lemma {:induction false} HistoryLinesInOrder(messages: seq<HistoryEntry>, me: string)
    ensures HistoryLines(messages, me) == NonBlankBubbles(messages, me)
  {
    if messages != [] {
      var init := messages[..|messages| - 1];
      var m := messages[|messages| - 1];
      assert messages == init + [m];
      HistoryLinesInOrder(init, me);
      HistoryLinesSnoc(init, m, me);
      NonBlankBubblesSnoc(init, m, me);
      SkippedIffBlank(m.content);
    }
  }

  /** An empty history shows the notice; a history of blank entries shows nothing. */
  lemma ShowHistoryEmpty(messages: seq<HistoryEntry>, me: string)
    ensures ShowHistory(Some([]), me) == [NoMessages] && ShowHistory(None, me) == [NoMessages]
    ensures messages != [] && (forall i :: 0 <= i < |messages| ==> IsBlank(messages[i].content)) ==>
      ShowHistory(Some(messages), me) == []
  {
    HistoryLinesSpec(messages, me);
  }

  /** The forEach of the chatHistory handler (public/app.js:413-428): one
      bubble per entry that is not skipped, in the order of the entries. */
  method RenderHistory(msgs: seq<HistoryEntry>, myUsername: string) returns (shown: seq<Line>)
    ensures shown == HistoryLines(msgs, myUsername)
  {
    shown := [];
    var i := 0;
    while i < |msgs|
      invariant 0 <= i <= |msgs|
      invariant shown == HistoryLines(msgs[..i], myUsername)
    {
      var msg := msgs[i];
      assert msgs[..i + 1] == msgs[..i] + [msg];
      HistoryLinesSnoc(msgs[..i], msg, myUsername);
      if !(msg.content == "" || Trim(msg.content) == "") {
        var isFromMe := msg.sender == myUsername;
        var displayName := if isFromMe then "You" else msg.sender;
        shown := shown + [DisplayMessage(displayName, Some(msg.content), isFromMe, Some(msg.id))];
      }
      i := i + 1;
    }
    assert msgs[..|msgs|] == msgs;
  }

  // ---------------------------------------------------------------------------
  // The client's state

  /** An emission of the client to the server. */
  datatype Request = UpdateRoomsRequest(room: string)

  /** The globals of public/app.js that the modelled handlers read and write,
      the chat panel and the emissions sent to the server. */
  class ClientState {
    var currentRoom: string
    var myUsername: string
    var currentChatRecipient: Option<string>
    var display: seq<Line>
    var outbox: seq<Request>

    constructor ()
      ensures currentRoom == "global" && myUsername == "" && currentChatRecipient == None
      ensures display == [] && outbox == []
    {
      currentRoom := "global";
      myUsername := "";
      currentChatRecipient := None;
      display := [];
      outbox := [];
    }

    /** changeRoom (public/app.js:572-585): a no-op for the current room;
        otherwise one updateRooms emission and the new current room. */
    method ChangeRoom(room: string)
      modifies this
      ensures room == old(currentRoom) ==> currentRoom == old(currentRoom) && outbox == old(outbox)
      ensures room != old(currentRoom) ==> currentRoom == room && outbox == old(outbox) + [UpdateRoomsRequest(room)]
      ensures display == old(display) && myUsername == old(myUsername)
      ensures currentChatRecipient == old(currentChatRecipient)
    {
      if room != currentRoom {
        outbox := outbox + [UpdateRoomsRequest(room)];
        currentRoom := room;
      }
    }

    /** The updateChat handler: one classified line appended to the panel. */
    method OnUpdateChat(username: string, data: string)
      modifies this
      ensures display == old(display) + [Classify(username, data, myUsername)]
      ensures currentRoom == old(currentRoom) && myUsername == old(myUsername)
      ensures currentChatRecipient == old(currentChatRecipient) && outbox == old(outbox)
    {
      display := display + [Classify(username, data, myUsername)];
    }

    /** The chatHistory handler: the panel is cleared, then shows the notice
        for an empty history or the bubble of every non-blank entry. */
    method OnChatHistory(messages: Option<seq<HistoryEntry>>)
      modifies this
      ensures display == ShowHistory(messages, myUsername)
      ensures currentRoom == old(currentRoom) && myUsername == old(myUsername)
      ensures currentChatRecipient == old(currentChatRecipient) && outbox == old(outbox)
    {
      if messages.None? || |messages.value| == 0 {
        display := [NoMessages];
        return;
      }
      display := RenderHistory(messages.value, myUsername);
    }
  }
}
