/** Turning an inbound channel post into a stored message. Three entry points
    exist: the layered handler's `processChannelPost`, which chooses the text
    and hands over to the channel service's `ProcessMessage`; the flat bot
    handler's `processChannelPost`, which saves directly; and the flat
    monitor's `processMessage`. They differ in the text they store, the
    channel id they key by and whether the channel's `LastUpdate` is written. */
module Ingest {
  import opened Results
  import opened Text
  import opened Domain
  import opened Filters
  import opened Folders
  import opened Stores

  /** The author of a post whose sender has neither a username nor a first name. */
  const UnknownAuthor: string := "Unknown"

  /** `getAuthorName`: "@" and the username, else the first name, else "Unknown". */
  function AuthorName(p: Post): (r: string)
    ensures r != []
    ensures p.from.Some? && p.from.value.username != [] ==> r == "@" + p.from.value.username
    ensures p.from.Some? && p.from.value.username == [] && p.from.value.firstName != [] ==> r == p.from.value.firstName
    ensures p.from.None? || (p.from.value.username == [] && p.from.value.firstName == []) ==> r == UnknownAuthor
  {
    match p.from
    case Some(f) =>
      if f.username != [] then "@" + f.username
      else if f.firstName != [] then f.firstName
      else UnknownAuthor
    case None => UnknownAuthor
  }

  /** Position of an attachment kind in the order `extractMedia` emits. */
  function Rank(k: MediaType): nat {
    match k
    case Photo => 0
    case Video => 1
    case Document => 2
    case Audio => 3
    case OtherMedia(_) => 4
  }

  /** Whether the post carries an attachment of kind `k`; a post carries
      only the four kinds `extractMedia` looks at. */
  predicate Present(p: Post, k: MediaType) {
    match k
    case Photo => |p.photo| > 0
    case Video => p.video.Some?
    case Document => p.document.Some?
    case Audio => p.audio.Some?
    case OtherMedia(_) => false
  }

  /** The file id `extractMedia` records for kind `k`: the last, largest size
      of a photo. */
  function FileOf(p: Post, k: MediaType): (r: string)
    requires Present(p, k)
    ensures k == Photo ==> r == p.photo[|p.photo| - 1]
    ensures k == Video ==> p.video == Some(r)
    ensures k == Document ==> p.document == Some(r)
    ensures k == Audio ==> p.audio == Some(r)
  {
    match k
    case Photo => p.photo[|p.photo| - 1]
    case Video => p.video.value
    case Document => p.document.value
    case Audio => p.audio.value
    case OtherMedia(_) => assert false; ""
  }

  function Attach(k: MediaType, fileId: string): Media {
    Media(k, fileId, "", "", "")
  }

  /** The one-element attachment list for kind `k`, or nothing when the
      post has none. */
  function Slot(p: Post, k: MediaType): (r: seq<Media>)
    ensures |r| <= 1
    ensures |r| == 1 <==> Present(p, k)
    ensures |r| == 1 ==> r[0] == Attach(k, FileOf(p, k))
  {
    if Present(p, k) then [Attach(k, FileOf(p, k))] else []
  }

  /** `extractMedia`: one attachment per kind present, in the fixed order
      photo, video, document, audio. */
  function ExtractMedia(p: Post): (r: seq<Media>)
    ensures |r| <= 4
    ensures forall i :: 0 <= i < |r| ==> Present(p, r[i].kind) && r[i] == Attach(r[i].kind, FileOf(p, r[i].kind))
  {
    Slot(p, Photo) + Slot(p, Video) + Slot(p, Document) + Slot(p, Audio)
  }

  /** Attachment kinds strictly increase in rank along `r`. */
  predicate Ranked(r: seq<Media>) {
    forall i, j :: 0 <= i < j < |r| ==> Rank(r[i].kind) < Rank(r[j].kind)
  }

  /** Every attachment in `r` has a rank in `[lo, hi)`. */
  predicate RanksWithin(r: seq<Media>, lo: nat, hi: nat) {
    forall i :: 0 <= i < |r| ==> lo <= Rank(r[i].kind) < hi
  }

  /** Two ranked lists whose ranks lie in adjacent ranges make a ranked list. */
  lemma RankedAppend(x: seq<Media>, y: seq<Media>, lo: nat, mid: nat, hi: nat)
    requires lo <= mid <= hi
    requires Ranked(x) && RanksWithin(x, lo, mid)
    requires Ranked(y) && RanksWithin(y, mid, hi)
    ensures Ranked(x + y) && RanksWithin(x + y, lo, hi)
  {
    var r := x + y;
    forall i | 0 <= i < |r| ensures lo <= Rank(r[i].kind) < hi {
      if i < |x| {
        assert r[i] == x[i] && lo <= Rank(x[i].kind) < mid;
      } else {
        assert r[i] == y[i - |x|] && mid <= Rank(y[i - |x|].kind) < hi;
      }
    }
    forall i, j | 0 <= i < j < |r| ensures Rank(r[i].kind) < Rank(r[j].kind) {
      if j < |x| {
        assert r[i] == x[i] && r[j] == x[j];
      } else if i >= |x| {
        assert r[i] == y[i - |x|] && r[j] == y[j - |x|];
      } else {
        assert r[i] == x[i] && r[j] == y[j - |x|];
      }
    }
  }

  /** A slot holds at most one attachment, of its own kind. */
  lemma SlotRanked(p: Post, k: MediaType)
    ensures Ranked(Slot(p, k)) && RanksWithin(Slot(p, k), Rank(k), Rank(k) + 1)
  {
  }

  /** The attachments come in the order photo, video, document, audio. */
  lemma MediaOrdered(p: Post)
    ensures Ranked(ExtractMedia(p))
  {
    var a, b, c, d := Slot(p, Photo), Slot(p, Video), Slot(p, Document), Slot(p, Audio);
    SlotRanked(p, Photo);
    SlotRanked(p, Video);
    SlotRanked(p, Document);
    SlotRanked(p, Audio);
    RankedAppend(a, b, 0, 1, 2);
    RankedAppend(a + b, c, 0, 2, 3);
    RankedAppend(a + b + c, d, 0, 3, 4);
  }

  /** A kind of attachment is listed exactly when the post carries one. */
  lemma MediaComplete(p: Post, k: MediaType)
    ensures var r := ExtractMedia(p);
            Present(p, k) <==> exists i :: 0 <= i < |r| && r[i].kind == k
  {
    var a, b, c, d := Slot(p, Photo), Slot(p, Video), Slot(p, Document), Slot(p, Audio);
    var r := a + b + c + d;
    if Present(p, k) {
      match k
      case Photo => assert r[0].kind == Photo;
      case Video => assert r[|a|].kind == Video;
      case Document => assert r[|a| + |b|].kind == Document;
      case Audio => assert r[|a| + |b| + |c|].kind == Audio;
      case OtherMedia(_) =>
    }
  }

  /** `fmt.Sprintf("https://t.me/%s/%d", username, id)`. */
  function Link(username: string, id: int): (r: string)
    ensures |r| == 14 + |username| + |IntToString(id)| && r[..13] == "https://t.me/"
    ensures r[13 + |username|] == '/' && r[14 + |username|..] == IntToString(id)
  {
    "https://t.me/" + username + "/" + IntToString(id)
  }

  /** The message built from a post of channel `c`, keyed under `channelId`,
      storing `text`. */
  function PostMessage(c: Channel, channelId: string, p: Post, text: string): (r: Message)
    ensures r.id == p.id && r.channelId == channelId && r.text == text && r.date == p.date
    ensures r.channelName == c.title && r.author == AuthorName(p)
    ensures r.media == ExtractMedia(p) && r.link == Link(c.username, p.id)
  {
    Message(p.id, channelId, c.title, text, p.date, AuthorName(p), ExtractMedia(p), Link(c.username, p.id))
  }

  /** The registered, active channel a post belongs to, if any. The chat id
      is rendered with `%d` to find the channel. */
  function ChannelOf(s: Store, p: Post): (r: Option<Channel>)
    ensures r.Some? <==> GetChannel(s, IntToString(p.chatId)).Ok? && GetChannel(s, IntToString(p.chatId)).value.isActive
    ensures r.Some? ==> r.value == GetChannel(s, IntToString(p.chatId)).value
  {
    match GetChannel(s, IntToString(p.chatId))
    case Ok(c) => if c.isActive then Some(c) else None
    case Err(_) => None
  }

  // ---------------------------------------------------------------------
  // The layered tree
  // ---------------------------------------------------------------------

  /** `ProcessMessage` of the channel service: filter, save the message, then
      record `now` as the channel's last update. A failed message save is an
      error; a failed channel save is only logged. */
  function ProcessMessage(
    s: Store, c: Channel, text: string, date: int, id: int, author: string,
    media: seq<Media>, link: string, now: int, saveFault: bool, touchFault: bool): (r: Result<Store>)
    ensures !Passes(c.filters, text) ==> r == Ok(s)
    ensures Passes(c.filters, text) ==>
      (r.Ok? <==> !saveFault && Find(MessageFolder(s, c.id).entries, NumberFile(id)) != Some(SubDir))
    ensures r.Err? ==> r.error == WriteFailed
    ensures r.Ok? && Passes(c.filters, text) ==>
      StoredMessage(r.value, c.id, id) == Ok(Message(id, c.id, c.title, text, date, author, media, link))
    ensures r.Ok? ==> forall ch, n :: (ch != c.id || n != id) ==> StoredMessage(r.value, ch, n) == StoredMessage(s, ch, n)
    ensures r.Ok? && Passes(c.filters, text) ==>
      GetChannel(r.value, c.id) ==
        if !touchFault && Find(s.channels.entries, ChannelFile(c.id)) != Some(SubDir)
        then Ok(c.(lastUpdate := now)) else GetChannel(s, c.id)
    ensures r.Ok? ==> forall other :: other != c.id ==> GetChannel(r.value, other) == GetChannel(s, other)
    ensures r.Ok? ==> r.value.users == s.users
  {
    if !Passes(c.filters, text) then Ok(s)
    else
      var m := Message(id, c.id, c.title, text, date, author, media, link);
      match SaveMessage(s, m, saveFault)
      case Err(e) => Err(e)
      case Ok(t) =>
        match SaveChannel(t, c.(lastUpdate := now), touchFault)
        case Ok(u) => Ok(u)
        case Err(_) => Ok(t)
  }

  /** `processChannelPost` of the layered handler: ignore posts of unknown
      or inactive channels, use the caption when the text is empty, and hand
      over to `ProcessMessage`; an error there is only logged. */
  function ProcessChannelPost(s: Store, p: Post, now: int, saveFault: bool, touchFault: bool): (r: Store)
    ensures ChannelOf(s, p).None? ==> r == s
    ensures r.users == s.users
    ensures ChannelOf(s, p).Some? && !Passes(ChannelOf(s, p).value.filters, EffectiveText(p.text, p.caption)) ==> r == s
    ensures saveFault ==> r == s
    ensures forall ch, n :: StoredMessage(r, ch, n) != StoredMessage(s, ch, n) ==>
      && ChannelOf(s, p).Some? && ch == ChannelOf(s, p).value.id && n == p.id
      && StoredMessage(r, ch, n) == Ok(PostMessage(ChannelOf(s, p).value, ch, p, EffectiveText(p.text, p.caption)))
    ensures ChannelOf(s, p).Some? ==>
      forall other :: other != ChannelOf(s, p).value.id ==> GetChannel(r, other) == GetChannel(s, other)
    ensures (ChannelOf(s, p).Some? && Passes(ChannelOf(s, p).value.filters, EffectiveText(p.text, p.caption)) && !saveFault
             && Find(MessageFolder(s, ChannelOf(s, p).value.id).entries, NumberFile(p.id)) != Some(SubDir)) ==>
      var c := ChannelOf(s, p).value;
      && StoredMessage(r, c.id, p.id) == Ok(PostMessage(c, c.id, p, EffectiveText(p.text, p.caption)))
      && GetChannel(r, c.id) ==
           if !touchFault && Find(s.channels.entries, ChannelFile(c.id)) != Some(SubDir)
           then Ok(c.(lastUpdate := now)) else GetChannel(s, c.id)
  {
    match ChannelOf(s, p)
    case None => s
    case Some(c) =>
      match ProcessMessage(s, c, EffectiveText(p.text, p.caption), p.date, p.id, AuthorName(p),
                           ExtractMedia(p), Link(c.username, p.id), now, saveFault, touchFault)
      case Ok(t) => t
      case Err(_) => s
  }

  /** A post that passes and is saved is stored under its channel with the
      effective text, and the channel's last update becomes `now`. */
  lemma PostIsStored(s: Store, p: Post, now: int)
    requires ChannelOf(s, p).Some?
    requires Passes(ChannelOf(s, p).value.filters, EffectiveText(p.text, p.caption))
    requires Find(MessageFolder(s, ChannelOf(s, p).value.id).entries, NumberFile(p.id)) != Some(SubDir)
    requires Find(s.channels.entries, ChannelFile(ChannelOf(s, p).value.id)) != Some(SubDir)
    ensures var c := ChannelOf(s, p).value;
            var r := ProcessChannelPost(s, p, now, false, false);
            && StoredMessage(r, c.id, p.id) == Ok(PostMessage(c, c.id, p, EffectiveText(p.text, p.caption)))
            && GetChannel(r, c.id) == Ok(c.(lastUpdate := now))
  {
  }

  // ---------------------------------------------------------------------
  // The flat package
  // ---------------------------------------------------------------------

  /** `processChannelPost` of the flat bot handler: ignore posts of unknown
      or inactive channels and posts arriving before the monitor is attached;
      filter on the effective text but store the post's own text, keyed by the
      chat id; a failed save is only logged. The channel record is not written. */
  function BotProcessChannelPost(s: Store, p: Post, hasMonitor: bool, fault: bool): (r: Store)
    ensures ChannelOf(s, p).None? || !hasMonitor ==> r == s
    ensures r.channels == s.channels && r.users == s.users
    ensures ChannelOf(s, p).Some? && !BotPasses(ChannelOf(s, p).value.filters, p.text, p.caption) ==> r == s
    ensures fault ==> r == s
    ensures forall ch, n :: StoredMessage(r, ch, n) != StoredMessage(s, ch, n) ==>
      && ChannelOf(s, p).Some? && ch == IntToString(p.chatId) && n == p.id
      && StoredMessage(r, ch, n) == Ok(PostMessage(ChannelOf(s, p).value, ch, p, p.text))
  {
    match ChannelOf(s, p)
    case None => s
    case Some(c) =>
      if !hasMonitor then s
      else
        var m := PostMessage(c, IntToString(p.chatId), p, p.text);
        if !BotPasses(c.filters, p.text, p.caption) then s
        else
          match SaveMessage(s, m, fault)
          case Ok(t) => t
          case Err(_) => s
  }

  /** Handling the same post twice stores what handling it once does. */
  lemma BotProcessIdempotent(s: Store, p: Post)
    ensures var once := BotProcessChannelPost(s, p, true, false);
            BotProcessChannelPost(once, p, true, false) == once
  {
    var once := BotProcessChannelPost(s, p, true, false);
    if once != s {
      var c := ChannelOf(s, p).value;
      var m := PostMessage(c, IntToString(p.chatId), p, p.text);
      assert SaveMessage(s, m, false).Ok?;
      assert once == SaveMessage(s, m, false).value;
      assert GetChannel(once, IntToString(p.chatId)) == GetChannel(s, IntToString(p.chatId));
      SaveMessageOverwrite(s, m, m);
    }
  }

  /** `processMessage` of the flat monitor: filter on the effective text,
      store the post's own text keyed by the channel's id; a failed save is
      an error and the feed update cannot fail. */
  function MonitorProcessMessage(s: Store, c: Channel, p: Post, fault: bool): (r: Result<Store>)
    ensures !MonitorPasses(c.filters, p.text, p.caption) ==> r == Ok(s)
    ensures MonitorPasses(c.filters, p.text, p.caption) ==>
      (r.Ok? <==> !fault && Find(MessageFolder(s, c.id).entries, NumberFile(p.id)) != Some(SubDir))
    ensures r.Err? ==> r.error == WriteFailed
    ensures r.Ok? && MonitorPasses(c.filters, p.text, p.caption) ==>
      StoredMessage(r.value, c.id, p.id) == Ok(PostMessage(c, c.id, p, p.text))
    ensures r.Ok? ==> forall ch, n :: (ch != c.id || n != p.id) ==> StoredMessage(r.value, ch, n) == StoredMessage(s, ch, n)
    ensures r.Ok? ==> r.value.channels == s.channels && r.value.users == s.users
  {
    if !MonitorPasses(c.filters, p.text, p.caption) then Ok(s)
    else SaveMessage(s, PostMessage(c, c.id, p, p.text), fault)
  }

  /** A post with only a caption is stored by the layered tree with the
      caption as its text. */
  lemma CaptionOnlyLayered(s: Store, p: Post, now: int)
    requires p.text == [] && p.caption != []
    requires ChannelOf(s, p).Some? && ChannelOf(s, p).value.id == IntToString(p.chatId)
    requires Passes(ChannelOf(s, p).value.filters, p.caption)
    requires Find(MessageFolder(s, IntToString(p.chatId)).entries, NumberFile(p.id)) != Some(SubDir)
    ensures StoredMessage(ProcessChannelPost(s, p, now, false, false), IntToString(p.chatId), p.id).value.text == p.caption
  {
    var c := ChannelOf(s, p).value;
    assert EffectiveText(p.text, p.caption) == p.caption;
    var r := ProcessMessage(s, c, p.caption, p.date, p.id, AuthorName(p),
                            ExtractMedia(p), Link(c.username, p.id), now, false, false);
    assert r.Ok?;
    assert ProcessChannelPost(s, p, now, false, false) == r.value;
  }

  /** The same post is stored by the flat bot handler with an empty text:
      it passes the filters on its caption but keeps its own text. */
  lemma CaptionOnlyFlat(s: Store, p: Post)
    requires p.text == [] && p.caption != []
    requires ChannelOf(s, p).Some?
    requires Passes(ChannelOf(s, p).value.filters, p.caption)
    requires Find(MessageFolder(s, IntToString(p.chatId)).entries, NumberFile(p.id)) != Some(SubDir)
    ensures StoredMessage(BotProcessChannelPost(s, p, true, false), IntToString(p.chatId), p.id).value.text == []
  {
    var c := ChannelOf(s, p).value;
    assert EffectiveText(p.text, p.caption) == p.caption;
    assert BotPasses(c.filters, p.text, p.caption);
    var m := PostMessage(c, IntToString(p.chatId), p, p.text);
    var r := SaveMessage(s, m, false);
    assert r.Ok?;
    assert BotProcessChannelPost(s, p, true, false) == r.value;
  }
}
