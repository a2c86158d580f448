/** RSS rendering: a channel and its newest stored messages become a feed
    value. The flat `FeedService` and the layered feed service are the same
    code; both are modelled by the functions here. Serialising the feed value
    to XML belongs to the feed library and is not modelled. */
module Feeds {
  import opened Results
  import opened Text
  import opened Domain
  import opened Folders
  import opened Stores

  /** The fields of a feed item the service sets. */
  datatype Item = Item(
    title: string,
    link: string,
    description: string,
    content: string,
    author: string,
    created: int,
    id: string)

  /** The fields of a feed the service sets. */
  datatype Feed = Feed(
    title: string,
    link: string,
    description: string,
    author: string,
    created: int,
    updated: int,
    items: seq<Item>)

  /** How many stored messages a feed shows. */
  const FeedWindow: int := 50

  /** How many units of the text an item title keeps. */
  const TitleLimit: nat := 100

  /** The description of an item whose message has no text. */
  const NoText: string := "No text content"

  // ---------------------------------------------------------------------
  // truncate
  // ---------------------------------------------------------------------

  /** `truncate`: the text itself when it fits, otherwise its first `maxLen`
      units followed by "...". */
  function Truncate(s: string, maxLen: nat): (r: string)
    ensures |s| <= maxLen ==> r == s
    ensures |s| > maxLen ==> |r| == maxLen + 3 && r[..maxLen] == s[..maxLen] && r[maxLen..] == "..."
    ensures |r| <= maxLen + 3
  {
    if |s| <= maxLen then s else s[..maxLen] + "..."
  }

  /** A 150-unit text gives a 103-unit title: 100 units and the ellipsis. */
  lemma TruncateLongText(s: string)
    requires |s| == 150
    ensures |Truncate(s, TitleLimit)| == 103
    ensures Truncate(s, TitleLimit)[100..] == "..."
  {
  }

  // ---------------------------------------------------------------------
  // escapeHTML
  // ---------------------------------------------------------------------

  /** The five characters `escapeHTML` replaces. */
  predicate Special(c: char) { c == '<' || c == '>' || c == '&' || c == '"' || c == '\'' }

  /** The replacement of one character. */
  function EscapeChar(c: char): (r: string)
    ensures !Special(c) ==> r == [c]
    ensures |r| >= 1 && r[0] == (if Special(c) then '&' else c)
  {
    if c == '<' then "&lt;"
    else if c == '>' then "&gt;"
    else if c == '&' then "&amp;"
    else if c == '"' then "&quot;"
    else if c == '\'' then "&#39;"
    else [c]
  }

  /** `escapeHTML`: each of the five characters becomes its entity, every
      other character is copied, in order. */
  function EscapeHTML(s: string): (r: string)
    ensures |r| >= |s|
  {
    if s == [] then [] else EscapeChar(s[0]) + EscapeHTML(s[1..])
  }

  /** The escaped text holds no raw `<`, `>`, `"` or `'`. */
  lemma {:induction false} EscapeSafe(s: string)
    ensures forall i :: 0 <= i < |EscapeHTML(s)| ==> !Special(EscapeHTML(s)[i]) || EscapeHTML(s)[i] == '&'
  {
    if s != [] {
      EscapeSafe(s[1..]);
      var e, r := EscapeChar(s[0]), EscapeHTML(s[1..]);
      assert EscapeHTML(s) == e + r;
      assert forall i :: 0 <= i < |e| ==> !Special(e[i]) || e[i] == '&';
    }
  }

  /** Text free of the five characters is left as it is. */
  lemma {:induction false} EscapePlain(s: string)
    requires forall i :: 0 <= i < |s| ==> !Special(s[i])
    ensures EscapeHTML(s) == s
  {
    if s != [] {
      EscapePlain(s[1..]);
      assert s == [s[0]] + s[1..];
    }
  }

  /** Decoding of the five entities, the inverse `escapeHTML` is written against. */
  function Unescape(t: string): string
    decreases |t|
  {
    if t == [] then []
    else if |t| >= 4 && t[0] == '&' && t[1] == 'l' && t[2] == 't' && t[3] == ';' then
      "<" + Unescape(t[4..])
    else if |t| >= 4 && t[0] == '&' && t[1] == 'g' && t[2] == 't' && t[3] == ';' then
      ">" + Unescape(t[4..])
    else if |t| >= 5 && t[0] == '&' && t[1] == 'a' && t[2] == 'm' && t[3] == 'p' && t[4] == ';' then
      "&" + Unescape(t[5..])
    else if |t| >= 6 && t[0] == '&' && t[1] == 'q' && t[2] == 'u' && t[3] == 'o' && t[4] == 't' && t[5] == ';' then
      "\"" + Unescape(t[6..])
    else if |t| >= 5 && t[0] == '&' && t[1] == '#' && t[2] == '3' && t[3] == '9' && t[4] == ';' then
      "'" + Unescape(t[5..])
    else [t[0]] + Unescape(t[1..])
  }

  /** Escaping loses nothing: decoding gives the original text back. */
  lemma {:induction false} UnescapeEscape(s: string)
    ensures Unescape(EscapeHTML(s)) == s
  {
    if s != [] {
      UnescapeEscape(s[1..]);
      UnescapeChar(s[0], EscapeHTML(s[1..]));
      assert s == [s[0]] + s[1..];
    }
  }

  lemma UnescapeChar(c: char, rest: string)
    ensures Unescape(EscapeChar(c) + rest) == [c] + Unescape(rest)
  {
    var e := EscapeChar(c);
    var t := e + rest;
    assert t[|e|..] == rest;
    assert forall k :: 0 <= k < |e| ==> t[k] == e[k];
  }

  /** Escaping a concatenation escapes each part. */
  lemma {:induction false} EscapeAppend(a: string, b: string)
    ensures EscapeHTML(a + b) == EscapeHTML(a) + EscapeHTML(b)
  {
    if a != [] {
      EscapeAppend(a[1..], b);
      TailOfAppend(a, b);
    } else {
      EmptyAppend(a, b);
    }
  }

  /** The example of the feed's HTML content: "Hello <world>" becomes
      "Hello &lt;world&gt;". */
  lemma EscapeExample()
    ensures EscapeHTML("Hello " + "<" + "world" + ">") == "Hello " + "&lt;" + "world" + "&gt;"
  {
    EscapeWords("Hello ", "world");
  }

  lemma EscapeWords(a: string, b: string)
    requires forall i :: 0 <= i < |a| ==> !Special(a[i])
    requires forall i :: 0 <= i < |b| ==> !Special(b[i])
    ensures EscapeHTML(a + "<" + b + ">") == a + "&lt;" + b + "&gt;"
  {
    EscapeAppend(a + "<" + b, ">");
    EscapeAppend(a + "<", b);
    EscapeAppend(a, "<");
    EscapePlain(a);
    EscapePlain(b);
    assert EscapeHTML("<") == "&lt;";
    assert EscapeHTML(">") == "&gt;";
  }

  // ---------------------------------------------------------------------
  // messageToFeedItem
  // ---------------------------------------------------------------------

  /** The description line of one attachment, with its caption line if any. */
  function MediaLine(md: Media): (r: string)
    ensures |r| >= 2 && r[..2] == "- " && r[|r| - 1] == '\n'
  {
    "- " + md.kind.Name() + ": " + md.fileId + "\n"
    + (if md.caption != [] then "  Caption: " + md.caption + "\n" else "")
  }

  /** A description line is "- type: fileID" and a newline, followed by a
      caption line exactly when the caption is non-empty. */
  lemma MediaLineParts(md: Media)
    ensures var head := "- " + md.kind.Name() + ": " + md.fileId + "\n";
            var r := MediaLine(md);
            && |head| <= |r| && r[..|head|] == head
            && (|r| == |head| <==> md.caption == [])
            && (md.caption != [] ==> r[|head|..] == "  Caption: " + md.caption + "\n")
  {
    var head := "- " + md.kind.Name() + ": " + md.fileId + "\n";
    var tail := if md.caption != [] then "  Caption: " + md.caption + "\n" else "";
    assert MediaLine(md) == head + tail;
    assert (head + tail)[..|head|] == head;
    assert (head + tail)[|head|..] == tail;
  }

  function MediaLines(media: seq<Media>): (r: string)
    ensures r == [] <==> media == []
  {
    if media == [] then "" else MediaLine(media[0]) + MediaLines(media[1..])
  }

  /** Attachment lines follow the attachment order. */
  lemma {:induction false} MediaLinesAppend(a: seq<Media>, b: seq<Media>)
    ensures MediaLines(a + b) == MediaLines(a) + MediaLines(b)
  {
    if a != [] {
      MediaLinesAppend(a[1..], b);
      TailOfAppend(a, b);
    } else {
      EmptyAppend(a, b);
    }
  }

  /** The text, or the placeholder when the message has none. */
  function Body(m: Message): (r: string)
    ensures r != []
    ensures m.text != [] ==> r == m.text
  {
    if m.text == [] then NoText else m.text
  }

  /** The item description: the body, then the attachment list when there
      are attachments. */
  function Description(m: Message): (r: string)
    ensures m.media == [] ==> r == Body(m)
    ensures m.media != [] ==> r == Body(m) + "\n\nMedia:\n" + MediaLines(m.media)
  {
    Body(m) + (if m.media == [] then "" else "\n\nMedia:\n" + MediaLines(m.media))
  }

  /** The list entry of one attachment in the HTML content; not escaped. */
  function Attachment(md: Media): (r: string)
    ensures |r| >= 9 && r[..4] == "<li>" && r[|r| - 5..] == "</li>"
  {
    "<li>" + md.kind.Name() + ": " + md.fileId + "</li>"
  }

  function Attachments(media: seq<Media>): (r: string)
    ensures r == [] <==> media == []
  {
    if media == [] then "" else Attachment(media[0]) + Attachments(media[1..])
  }

  /** List entries follow the attachment order. */
  lemma {:induction false} AttachmentsAppend(a: seq<Media>, b: seq<Media>)
    ensures Attachments(a + b) == Attachments(a) + Attachments(b)
  {
    if a != [] {
      AttachmentsAppend(a[1..], b);
      TailOfAppend(a, b);
    } else {
      EmptyAppend(a, b);
    }
  }

  /** One attachment is listed as "<li>type: fileID</li>", unescaped. */
  lemma AttachmentsSingle(md: Media)
    ensures Attachments([md]) == "<li>" + md.kind.Name() + ": " + md.fileId + "</li>"
  {
    assert [md][1..] == [];
  }

  /** The heading and list opening of the attachment block. */
  const MediaHeading: string := "<p><strong>Media attachments:</strong></p><ul>"

  /** The attachment block of the HTML content: nothing without
      attachments, otherwise a heading and one list entry per attachment. */
  function MediaList(media: seq<Media>): (r: string)
    ensures media == [] <==> r == []
  {
    if media == [] then ""
    else MediaHeading + Attachments(media) + "</ul>"
  }

  /** With attachments, the block is the heading, the list entries and
      the closing tag. */
  lemma MediaListParts(media: seq<Media>)
    requires media != []
    ensures var r := MediaList(media);
            var n := |MediaHeading|;
            && |r| == n + |Attachments(media)| + 5
            && r[..n] == MediaHeading
            && r[n..|r| - 5] == Attachments(media)
            && r[|r| - 5..] == "</ul>"
  {
    var a := Attachments(media);
    var r := MediaHeading + a + "</ul>";
    var n := |MediaHeading|;
    assert MediaList(media) == r;
    assert r[..n] == MediaHeading;
    assert r[n..|r| - 5] == a;
    assert r[|r| - 5..] == "</ul>";
  }

  /** The HTML content: the escaped description as a paragraph, then the
      attachment block. */
  function Content(m: Message): (r: string)
    ensures |r| >= |EscapeHTML(Description(m))| + 7
    ensures |r| == |EscapeHTML(Description(m))| + 7 <==> m.media == []
  {
    "<p>" + EscapeHTML(Description(m)) + "</p>" + MediaList(m.media)
  }

  /** The content is "<p>", the escaped description, "</p>", then the
      attachment block. */
  lemma ContentParts(m: Message)
    ensures var c := Content(m);
            var e := EscapeHTML(Description(m));
            && |c| == |e| + 7 + |MediaList(m.media)|
            && c[..3] == "<p>" && c[3..3 + |e|] == e && c[3 + |e|..7 + |e|] == "</p>"
            && c[7 + |e|..] == MediaList(m.media)
  {
    var e := EscapeHTML(Description(m));
    var t := MediaList(m.media);
    assert Content(m) == "<p>" + e + "</p>" + t;
    ParagraphParts(e, t);
  }

  lemma ParagraphParts(e: string, t: string)
    ensures var c := "<p>" + e + "</p>" + t;
            && |c| == |e| + 7 + |t|
            && c[..3] == "<p>" && c[3..3 + |e|] == e && c[3 + |e|..7 + |e|] == "</p>"
            && c[7 + |e|..] == t
  {
    var c := "<p>" + e + "</p>" + t;
    assert c[..3] == "<p>";
    assert c[3..3 + |e|] == e;
    assert c[3 + |e|..7 + |e|] == "</p>";
    assert c[7 + |e|..] == t;
  }

  /** A reader of the content finds the description by reading from the
      opening tag to the first `<` and decoding the entities. */
  lemma ContentCarriesDescription(m: Message)
    ensures var c := Content(m);
            exists j :: 3 <= j && j + 4 <= |c| && c[j..j + 4] == "</p>"
              && (forall k :: 3 <= k < j ==> c[k] != '<')
              && Unescape(c[3..j]) == Description(m)
  {
    var tail := MediaList(m.media);
    assert Content(m) == "<p>" + EscapeHTML(Description(m)) + "</p>" + tail;
    Paragraph(Description(m), tail);
  }

  lemma Paragraph(d: string, tail: string)
    ensures var c := "<p>" + EscapeHTML(d) + "</p>" + tail;
            exists j :: 3 <= j && j + 4 <= |c| && c[j..j + 4] == "</p>"
              && (forall k :: 3 <= k < j ==> c[k] != '<')
              && Unescape(c[3..j]) == d
  {
    var e := EscapeHTML(d);
    var c := "<p>" + e + "</p>" + tail;
    EscapeSafe(d);
    UnescapeEscape(d);
    var j := 3 + |e|;
    assert c[3..j] == e;
    assert c[j..j + 4] == "</p>";
    assert forall k :: 3 <= k < j ==> c[k] == e[k - 3];
  }

  /** `fmt.Sprintf("%s-%d", channelID, id)`. */
  function ItemId(channelId: string, id: int): (r: string)
    ensures |r| > |channelId| + 1
  {
    channelId + "-" + IntToString(id)
  }

  /** For non-negative message ids, distinct (channel, message) keys give
      distinct item ids: the last '-' separates the two parts. */
  lemma ItemIdUnique(c1: string, n1: int, c2: string, n2: int)
    requires n1 >= 0 && n2 >= 0
    ensures ItemId(c1, n1) == ItemId(c2, n2) ==> c1 == c2 && n1 == n2
  {
    if ItemId(c1, n1) == ItemId(c2, n2) {
      var b1, b2 := IntToString(n1), IntToString(n2);
      if |b1| < |b2| {
        SuffixDigitClash(c1, b1, c2, b2);
      } else if |b2| < |b1| {
        SuffixDigitClash(c2, b2, c1, b1);
      }
      var x := ItemId(c1, n1);
      assert b1 == x[|x| - |b1|..] && b2 == x[|x| - |b2|..];
      assert c1 == x[..|c1|] && c2 == x[..|c2|];
      IntToStringInjective(n1, n2);
    }
  }

  /** Two `<prefix>-<digits>` spellings of one string cannot have digit
      parts of different lengths. */
  lemma SuffixDigitClash(c1: string, b1: string, c2: string, b2: string)
    requires AllDigits(b1) && AllDigits(b2) && |b1| < |b2|
    ensures c1 + "-" + b1 != c2 + "-" + b2
  {
    var x, y := c1 + "-" + b1, c2 + "-" + b2;
    if |x| == |y| {
      var p := |x| - |b1| - 1;
      assert x[p] == '-';
      assert y[p] == b2[p - |c2| - 1];
    }
  }

  /** `messageToFeedItem`. */
  function ToItem(m: Message): (r: Item)
    ensures |r.title| <= TitleLimit + 3
    ensures m.text == [] ==> r.title == []
    ensures r.description != []
    ensures r.link == m.link && r.author == m.author && r.created == m.date
    ensures r.title == Truncate(m.text, TitleLimit)
    ensures r.description == Description(m) && r.content == Content(m)
    ensures r.id == ItemId(m.channelId, m.id)
  {
    Item(
      Truncate(m.text, TitleLimit),
      m.link,
      Description(m),
      Content(m),
      m.author,
      m.date,
      ItemId(m.channelId, m.id))
  }

  /** One item per message, in message order. */
  function ToItems(ms: seq<Message>): (r: seq<Item>)
    ensures |r| == |ms|
    ensures forall i :: 0 <= i < |ms| ==> r[i] == ToItem(ms[i])
  {
    if ms == [] then [] else [ToItem(ms[0])] + ToItems(ms[1..])
  }

  /** Items of one channel's distinct messages carry distinct ids. */
  lemma ItemIdsDistinct(ms: seq<Message>, i: int, j: int)
    requires 0 <= i < |ms| && 0 <= j < |ms|
    requires ms[i].channelId == ms[j].channelId && ms[i].id != ms[j].id
    requires ms[i].id >= 0 && ms[j].id >= 0
    ensures ToItems(ms)[i].id != ToItems(ms)[j].id
  {
    ItemIdUnique(ms[i].channelId, ms[i].id, ms[j].channelId, ms[j].id);
  }

  // ---------------------------------------------------------------------
  // GenerateFeed and UpdateFeed
  // ---------------------------------------------------------------------

  /** `GenerateFeed`: the channel's metadata and one item for each of its
      newest `FeedWindow` stored messages, newest file name first. A channel
      that cannot be read, or messages that cannot be listed, are an error. */
  function GenerateFeed(s: Store, channelId: string, baseURL: string): (r: Result<Feed>)
    ensures r.Ok? <==> GetChannel(s, channelId).Ok? && GetMessages(s, channelId, FeedWindow).Ok?
    ensures GetChannel(s, channelId).Err? ==> r == Err(GetChannel(s, channelId).error)
    ensures r.Ok? ==> |r.value.items| <= FeedWindow
    ensures r.Ok? ==> r.value.items == ToItems(GetMessages(s, channelId, FeedWindow).value)
    ensures r.Ok? ==> var c := GetChannel(s, channelId).value;
      && r.value.title == c.title + " - RSS Feed"
      && r.value.link == baseURL + "/rss/" + c.id
      && r.value.description == "RSS feed for Telegram channel: " + c.title
      && r.value.author == c.username
      && r.value.created == c.addedAt
      && r.value.updated == c.lastUpdate
  {
    match GetChannel(s, channelId)
    case Err(e) => Err(e)
    case Ok(c) =>
      match GetMessages(s, channelId, FeedWindow)
      case Err(e) => Err(e)
      case Ok(ms) =>
        Ok(Feed(
          c.title + " - RSS Feed",
          baseURL + "/rss/" + c.id,
          "RSS feed for Telegram channel: " + c.title,
          c.username,
          c.addedAt,
          c.lastUpdate,
          ToItems(ms)))
  }

  /** A channel with no stored message directory has a feed with no items. */
  lemma FeedOfQuietChannel(s: Store, channelId: string, baseURL: string)
    requires GetChannel(s, channelId).Ok? && channelId !in s.messages
    ensures GenerateFeed(s, channelId, baseURL).Ok?
    ensures GenerateFeed(s, channelId, baseURL).value.items == []
  {
  }

  /** A message saved under a file name that sorts after every other in its
      channel's directory heads that channel's feed. */
  lemma FeedShowsLastSaved(s: Store, m: Message, baseURL: string)
    requires GetChannel(s, m.channelId).Ok?
    requires m.channelId in s.messages && s.messages[m.channelId].listable
    requires forall i :: 0 <= i < |s.messages[m.channelId].entries| ==>
      Less(s.messages[m.channelId].entries[i].name, NumberFile(m.id))
    ensures SaveMessage(s, m, false).Ok?
    ensures var f := GenerateFeed(SaveMessage(s, m, false).value, m.channelId, baseURL);
            f.Ok? && |f.value.items| > 0 && f.value.items[0] == ToItem(m)
  {
    LastNameComesFirst(s, m, FeedWindow);
  }

  /** `UpdateFeed`: feeds are built on request, so asking for an update
      succeeds and changes no store. */
  function UpdateFeed(s: Store, channelId: string): (r: Result<Store>)
    ensures r.Ok? && r.value == s
  {
    Ok(s)
  }
}
