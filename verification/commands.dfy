/** The bot's administrative commands and who may use them. Each command
    receives the whitespace-separated words of the message (`strings.Fields`
    of the text, the command word first) and yields the new store, the new
    set of watched channels and the kind of reply sent back. Where the flat
    package and the layered tree differ — authorization, `/start` and
    `/removechannel` — both are modelled. */
module Commands {
  import opened Results
  import opened Text
  import opened Domain
  import opened Filters
  import opened Folders
  import opened Stores
  import Monitor

  /** The kind of reply a command sends. */
  datatype Reply =
    | Unauthorized        // "❌ Unauthorized" / "not authorized"
    | Usage               // too few words: the usage text
    | ChatUnavailable     // Telegram could not resolve the channel
    | Refused(e: Error)   // a lookup, validation or write failed
    | Done                // the success message

  datatype Outcome = Outcome(store: Store, watched: Monitor.Watched, reply: Reply)

  // ---------------------------------------------------------------------
  // Authorization
  // ---------------------------------------------------------------------

  /** The `for` loop over the allow-list. */
  function InAllowList(allowed: seq<int>, user: int): (r: bool)
    ensures r <==> user in allowed
  {
    if |allowed| == 0 then false else allowed[0] == user || InAllowList(allowed[1..], user)
  }

  /** `IsAuthorized` of the user service: an empty allow-list admits everyone. */
  function IsAuthorized(user: int, allowed: seq<int>): (r: bool)
    ensures r <==> allowed == [] || user in allowed
  {
    if |allowed| == 0 then true else InAllowList(allowed, user)
  }

  /** `checkAuthorization` of the flat bot handler: with an allow-list,
      membership; without one, only users with a readable stored record. */
  function CheckAuthorization(s: Store, allowed: seq<int>, user: int): (r: bool)
    ensures allowed != [] ==> (r <==> user in allowed)
    ensures allowed == [] ==> (r <==> GetUser(s, user).Ok?)
  {
    if |allowed| > 0 then InAllowList(allowed, user) else GetUser(s, user).Ok?
  }

  /** With an allow-list the two trees agree; without one the layered tree
      admits everyone and the flat package only registered users. */
  lemma AuthorizationAgrees(s: Store, allowed: seq<int>, user: int)
    ensures allowed != [] ==> CheckAuthorization(s, allowed, user) == IsAuthorized(user, allowed)
    ensures allowed == [] ==> IsAuthorized(user, allowed)
    ensures allowed == [] && GetUser(s, user) == Err(NotFound) ==> !CheckAuthorization(s, allowed, user)
  {
  }

  /** Granting access to one more user keeps every user already listed authorized. */
  lemma AllowListGrows(allowed: seq<int>, more: seq<int>, user: int)
    requires allowed != [] && user in allowed
    ensures IsAuthorized(user, allowed + more) && IsAuthorized(user, more + allowed)
  {
    assert (allowed + more)[0] == allowed[0];
  }

  // ---------------------------------------------------------------------
  // /start
  // ---------------------------------------------------------------------

  /** The user record `/start` registers: an administrator added at `now`. */
  function Admin(user: int, username: string, now: int): User {
    User(user, username, now, true)
  }

  /** `handleStart` of the flat bot handler: an unauthorized user is
      registered as an administrator when there is no allow-list (a failed
      save is only logged) and refused otherwise. */
  function FlatStart(s: Store, w: Monitor.Watched, allowed: seq<int>, user: int, username: string, now: int, fault: bool): (r: Outcome)
    ensures r.reply == Unauthorized <==> allowed != [] && user !in allowed
    ensures r.reply != Unauthorized ==> r.reply == Done
    ensures r.store.channels == s.channels && r.store.messages == s.messages && r.watched == w
    ensures allowed != [] ==> r.store == s
    ensures allowed == [] && GetUser(s, user).Err? && !fault && Find(s.users.entries, NumberFile(user)) != Some(SubDir) ==>
      GetUser(r.store, user) == Ok(Admin(user, username, now))
    ensures forall id :: id != user ==> GetUser(r.store, id) == GetUser(s, id)
    ensures GetUser(s, user).Ok? ==> r.store == s
  {
    if CheckAuthorization(s, allowed, user) then Outcome(s, w, Done)
    else if |allowed| == 0 then
      match SaveUser(s, Admin(user, username, now), fault)
      case Ok(t) => Outcome(t, w, Done)
      case Err(_) => Outcome(s, w, Done)
    else Outcome(s, w, Unauthorized)
  }

  /** After the first `/start` with no allow-list, the flat package admits
      that user to every other command. */
  lemma FirstStartAuthorizes(s: Store, w: Monitor.Watched, user: int, username: string, now: int)
    requires Find(s.users.entries, NumberFile(user)) != Some(SubDir)
    ensures CheckAuthorization(FlatStart(s, w, [], user, username, now, false).store, [], user)
  {
  }

  /** `handleStart` of the layered handler. With no allow-list `IsAuthorized`
      admits everyone, so the registration branch is never taken: the store
      is never written. */
  function LayeredStart(s: Store, w: Monitor.Watched, allowed: seq<int>, user: int, username: string, now: int, fault: bool): (r: Outcome)
    ensures r.reply == Unauthorized <==> allowed != [] && user !in allowed
    ensures r.reply != Unauthorized ==> r.reply == Done
    ensures r.store == s && r.watched == w
  {
    if IsAuthorized(user, allowed) then Outcome(s, w, Done)
    else if |allowed| == 0 then
      match SaveUser(s, Admin(user, username, now), fault)
      case Ok(t) => Outcome(t, w, Done)
      case Err(_) => Outcome(s, w, Done)
    else Outcome(s, w, Unauthorized)
  }

  // ---------------------------------------------------------------------
  // /addchannel
  // ---------------------------------------------------------------------

  /** What `GetChat` reports about a channel. */
  datatype Chat = Chat(id: int, title: string)

  /** The record `/addchannel` stores: active, no filters, added by `user`.
      The handler reads the clock twice, once for each time stamp. */
  function NewChannel(chat: Chat, username: string, user: int, addedAt: int, lastUpdate: int): (r: Channel)
    ensures r.id == IntToString(chat.id) && r.title == chat.title && r.username == username
    ensures r.isActive && r.filters == [] && r.addedBy == user && r.addedAt == addedAt && r.lastUpdate == lastUpdate
  {
    Channel(IntToString(chat.id), username, chat.title, user, addedAt, [], lastUpdate, true)
  }

  /** `handleAddChannel` (both trees): the second word, without one leading
      "@", names the channel; `chat` is what Telegram answers for it. The
      channel is saved under its numeric chat id and watched. */
  function AddChannelCommand(s: Store, w: Monitor.Watched, authorized: bool, parts: seq<string>,
                             chat: Option<Chat>, user: int, addedAt: int, lastUpdate: int, fault: bool): (r: Outcome)
    ensures r.reply == Done <==>
      authorized && |parts| >= 2 && chat.Some? && !fault && Find(s.channels.entries, ChannelFile(IntToString(chat.value.id))) != Some(SubDir)
    ensures r.reply != Done ==> r.store == s && r.watched == w
    ensures r.reply == Done ==>
      && GetChannel(r.store, IntToString(chat.value.id)) == Ok(NewChannel(chat.value, TrimPrefix(parts[1], "@"), user, addedAt, lastUpdate))
      && r.watched == Monitor.AddChannel(w, IntToString(chat.value.id))
      && r.store.messages == s.messages && r.store.users == s.users
    ensures r.reply == Done ==>
      forall x :: x != IntToString(chat.value.id) ==> GetChannel(r.store, x) == GetChannel(s, x)
    ensures !authorized ==> r.reply == Unauthorized
  {
    if !authorized then Outcome(s, w, Unauthorized)
    else if |parts| < 2 then Outcome(s, w, Usage)
    else
      var username := TrimPrefix(parts[1], "@");
      match chat
      case None => Outcome(s, w, ChatUnavailable)
      case Some(ch) =>
        var c := NewChannel(ch, username, user, addedAt, lastUpdate);
        match SaveChannel(s, c, fault)
        case Err(e) => Outcome(s, w, Refused(e))
        case Ok(t) => Outcome(t, Monitor.AddChannel(w, c.id), Done)
  }

  /** An added channel is active with no filters, so every post of it passes. */
  lemma AddedChannelPassesAll(s: Store, w: Monitor.Watched, parts: seq<string>, chat: Chat, user: int, addedAt: int, lastUpdate: int, text: string)
    requires |parts| >= 2
    requires Find(s.channels.entries, ChannelFile(IntToString(chat.id))) != Some(SubDir)
    ensures var r := AddChannelCommand(s, w, true, parts, Some(chat), user, addedAt, lastUpdate, false);
            && GetChannel(r.store, IntToString(chat.id)).Ok?
            && GetChannel(r.store, IntToString(chat.id)).value.isActive
            && Passes(GetChannel(r.store, IntToString(chat.id)).value.filters, text)
            && IntToString(chat.id) in r.watched
  {
  }

  // ---------------------------------------------------------------------
  // /removechannel
  // ---------------------------------------------------------------------

  /** `handleRemoveChannel` of the flat bot handler: delete the file, and stop
      watching only when the deletion succeeded. */
  function FlatRemoveChannel(s: Store, w: Monitor.Watched, authorized: bool, parts: seq<string>, fault: bool): (r: Outcome)
    ensures r.reply == Done <==> authorized && |parts| >= 2 && DeleteChannel(s, parts[1], fault).Ok?
    ensures r.reply != Done ==> r.store == s && r.watched == w
    ensures r.reply == Done ==> GetChannel(r.store, parts[1]) == Err(NotFound) && r.watched == Monitor.RemoveChannel(w, parts[1])
    ensures r.reply == Done ==> forall x :: x != parts[1] ==> GetChannel(r.store, x) == GetChannel(s, x)
    ensures r.store.messages == s.messages && r.store.users == s.users
  {
    if !authorized then Outcome(s, w, Unauthorized)
    else if |parts| < 2 then Outcome(s, w, Usage)
    else
      match DeleteChannel(s, parts[1], fault)
      case Err(e) => Outcome(s, w, Refused(e))
      case Ok(t) => Outcome(t, Monitor.RemoveChannel(w, parts[1]), Done)
  }

  /** `handleRemoveChannel` of the layered handler: the channel service stops
      watching before it deletes, so the id is unwatched even when the
      deletion fails. */
  function LayeredRemoveChannel(s: Store, w: Monitor.Watched, authorized: bool, parts: seq<string>, fault: bool): (r: Outcome)
    ensures r.reply == Done <==> authorized && |parts| >= 2 && DeleteChannel(s, parts[1], fault).Ok?
    ensures authorized && |parts| >= 2 ==> r.watched == Monitor.RemoveChannel(w, parts[1])
    ensures r.reply != Done ==> r.store == s
    ensures r.reply == Done ==> GetChannel(r.store, parts[1]) == Err(NotFound)
    ensures r.reply == Done ==> forall x :: x != parts[1] ==> GetChannel(r.store, x) == GetChannel(s, x)
    ensures r.store.messages == s.messages && r.store.users == s.users
  {
    if !authorized then Outcome(s, w, Unauthorized)
    else if |parts| < 2 then Outcome(s, w, Usage)
    else
      var (w2, res) := Monitor.DeleteChannel(s, w, parts[1], fault);
      match res
      case Err(e) => Outcome(s, w2, Refused(e))
      case Ok(t) => Outcome(t, w2, Done)
  }

  /** Removing a watched id that has no channel file: the flat package keeps
      watching it, the layered tree stops. */
  lemma RemoveUnknownChannel(s: Store, w: Monitor.Watched, parts: seq<string>)
    requires |parts| >= 2 && parts[1] in w && GetChannel(s, parts[1]) == Err(NotFound)
    ensures FlatRemoveChannel(s, w, true, parts, false).reply == Refused(NotFound)
    ensures parts[1] in FlatRemoveChannel(s, w, true, parts, false).watched
    ensures parts[1] !in LayeredRemoveChannel(s, w, true, parts, false).watched
  {
  }

  // ---------------------------------------------------------------------
  // /addfilter and /removefilter
  // ---------------------------------------------------------------------

  /** The filter `/addfilter` appends: an enabled include filter on the
      comma-separated keywords. */
  function KeywordFilter(arg: string): (f: Filter)
    ensures f.kind == Keywords && f.enabled
    ensures Join(f.keywords, ',') == arg
    ensures |f.keywords| == Count(arg, ',') + 1
  {
    JoinSplit(arg, ',');
    Filter(Keywords, Split(arg, ','), true)
  }

  /** `handleAddFilter` (both trees): look the channel up by the second word
      and append a keyword filter built from the third. The record is saved
      under the id it carries. */
  function AddFilterCommand(s: Store, w: Monitor.Watched, authorized: bool, parts: seq<string>, fault: bool): (r: Outcome)
    ensures r.reply == Done ==> authorized && |parts| >= 3 && GetChannel(s, parts[1]).Ok?
    ensures authorized && |parts| >= 3 && GetChannel(s, parts[1]).Err? ==> r.reply == Refused(NotFound)
    ensures r.reply != Done ==> r.store == s
    ensures r.reply == Done ==>
      var c := GetChannel(s, parts[1]).value;
      GetChannel(r.store, c.id) == Ok(c.(filters := c.filters + [KeywordFilter(parts[2])]))
    ensures (authorized && |parts| >= 3 && GetChannel(s, parts[1]).Ok? && !fault
             && Find(s.channels.entries, ChannelFile(GetChannel(s, parts[1]).value.id)) != Some(SubDir)) ==>
      r.reply == Done
    ensures r.reply == Done ==>
      forall x :: x != GetChannel(s, parts[1]).value.id ==> GetChannel(r.store, x) == GetChannel(s, x)
    ensures r.store.messages == s.messages && r.store.users == s.users
    ensures r.watched == w
  {
    if !authorized then Outcome(s, w, Unauthorized)
    else if |parts| < 3 then Outcome(s, w, Usage)
    else
      match GetChannel(s, parts[1])
      case Err(_) => Outcome(s, w, Refused(NotFound))
      case Ok(c) =>
        match SaveChannel(s, c.(filters := c.filters + [KeywordFilter(parts[2])]), fault)
        case Err(e) => Outcome(s, w, Refused(e))
        case Ok(t) => Outcome(t, w, Done)
  }

  /** After `/addfilter`, a text passes the channel exactly when it passed
      before and one of the new keywords occurs in it. */
  lemma AddFilterNarrows(s: Store, w: Monitor.Watched, parts: seq<string>, text: string)
    requires |parts| >= 3 && GetChannel(s, parts[1]).Ok?
    requires AddFilterCommand(s, w, true, parts, false).reply == Done
    ensures var c := GetChannel(s, parts[1]).value;
            var after := GetChannel(AddFilterCommand(s, w, true, parts, false).store, c.id).value;
            Passes(after.filters, text) <==>
              Passes(c.filters, text) && exists i :: 0 <= i < |KeywordFilter(parts[2]).keywords| && Contains(text, KeywordFilter(parts[2]).keywords[i])
  {
    var c := GetChannel(s, parts[1]).value;
    PassesAppend(c.filters, KeywordFilter(parts[2]), text);
  }

  /** `append(fs[:k], fs[k+1:]...)`: the list without its element at `k`,
      the others in their order. */
  function Cut<T>(s: seq<T>, k: nat): (r: seq<T>)
    requires k < |s|
    ensures |r| == |s| - 1
    ensures forall i :: 0 <= i < k ==> r[i] == s[i]
    ensures forall i :: k <= i < |r| ==> r[i] == s[i + 1]
  {
    s[..k] + s[k + 1..]
  }

  /** The 1-based filter index `handleRemoveFilter` reads from a word. */
  function FilterIndex(word: string): (r: Option<int>)
    ensures r.Some? ==> r.value >= 1 && ParseInt64(word) == r
    ensures r.None? ==> ParseInt64(word).None? || ParseInt64(word).value < 1
  {
    match ParseInt64(word)
    case None => None
    case Some(index) => if index < 1 then None else Some(index)
  }

  /** `handleRemoveFilter` (both trees): the third word is a 1-based index;
      it must be an integer of at least 1 (checked before the lookup) and
      at most the number of filters (checked after). The filter is cut out
      and the record saved under the id it carries. */
  function RemoveFilterCommand(s: Store, w: Monitor.Watched, authorized: bool, parts: seq<string>, fault: bool): (r: Outcome)
    ensures r.reply != Done ==> r.store == s
    ensures authorized && |parts| >= 3 && FilterIndex(parts[2]).None? ==> r.reply == Refused(InvalidIndex)
    ensures authorized && |parts| >= 3 && FilterIndex(parts[2]).Some? && GetChannel(s, parts[1]).Err? ==>
      r.reply == Refused(NotFound)
    ensures (authorized && |parts| >= 3 && FilterIndex(parts[2]).Some? && GetChannel(s, parts[1]).Ok? &&
             FilterIndex(parts[2]).value > |GetChannel(s, parts[1]).value.filters|) ==>
      r.reply == Refused(IndexOutOfRange)
    ensures r.reply == Done ==>
      && authorized && |parts| >= 3 && FilterIndex(parts[2]).Some? && GetChannel(s, parts[1]).Ok?
      && FilterIndex(parts[2]).value <= |GetChannel(s, parts[1]).value.filters|
      && var c := GetChannel(s, parts[1]).value;
         GetChannel(r.store, c.id) == Ok(c.(filters := Cut(c.filters, FilterIndex(parts[2]).value - 1)))
    ensures (authorized && |parts| >= 3 && FilterIndex(parts[2]).Some? && GetChannel(s, parts[1]).Ok? && !fault
             && FilterIndex(parts[2]).value <= |GetChannel(s, parts[1]).value.filters|
             && Find(s.channels.entries, ChannelFile(GetChannel(s, parts[1]).value.id)) != Some(SubDir)) ==>
      r.reply == Done
    ensures r.reply == Done ==>
      forall x :: x != GetChannel(s, parts[1]).value.id ==> GetChannel(r.store, x) == GetChannel(s, x)
    ensures r.store.messages == s.messages && r.store.users == s.users
    ensures r.watched == w
  {
    if !authorized then Outcome(s, w, Unauthorized)
    else if |parts| < 3 then Outcome(s, w, Usage)
    else
      match FilterIndex(parts[2])
      case None => Outcome(s, w, Refused(InvalidIndex))
      case Some(index) =>
        match GetChannel(s, parts[1])
        case Err(_) => Outcome(s, w, Refused(NotFound))
        case Ok(c) =>
          if index > |c.filters| then Outcome(s, w, Refused(IndexOutOfRange))
          else
            match SaveChannel(s, c.(filters := Cut(c.filters, index - 1)), fault)
            case Err(e) => Outcome(s, w, Refused(e))
            case Ok(t) => Outcome(t, w, Done)
  }

  /** Removing a filter never rejects a post the channel accepted before. */
  lemma RemoveFilterWidens(s: Store, w: Monitor.Watched, parts: seq<string>, text: string)
    requires RemoveFilterCommand(s, w, true, parts, false).reply == Done
    ensures var c := GetChannel(s, parts[1]).value;
            Passes(c.filters, text) ==>
              Passes(GetChannel(RemoveFilterCommand(s, w, true, parts, false).store, c.id).value.filters, text)
  {
    var c := GetChannel(s, parts[1]).value;
    var k := FilterIndex(parts[2]).value - 1;
    PassesRemove(c.filters, k, text);
  }

  /** Removing the filter just added, by its 1-based position, gives the
      channel back as it was. */
  lemma AddThenRemoveFilter(s: Store, w: Monitor.Watched, id: string, keywords: string, index: string)
    requires GetChannel(s, id).Ok? && GetChannel(s, id).value.id == id
    requires |GetChannel(s, id).value.filters| < Int64Max
    requires index == IntToString(|GetChannel(s, id).value.filters| + 1)
    ensures var added := AddFilterCommand(s, w, true, ["/addfilter", id, keywords], false);
            added.reply == Done
            && RemoveFilterCommand(added.store, added.watched, true, ["/removefilter", id, index], false).reply == Done
            && GetChannel(RemoveFilterCommand(added.store, added.watched, true, ["/removefilter", id, index], false).store, id) == GetChannel(s, id)
  {
    var c := GetChannel(s, id).value;
    var n := |c.filters|;
    var fs := c.filters + [KeywordFilter(keywords)];
    assert Find(s.channels.entries, ChannelFile(id)).Some?;
    var added := AddFilterCommand(s, w, true, ["/addfilter", id, keywords], false);
    assert added.reply == Done;
    assert GetChannel(added.store, id) == Ok(c.(filters := fs));
    ParseRender(n + 1);
    assert FilterIndex(index) == Some(n + 1);
    assert GetChannel(added.store, id).Ok?;
    assert Cut(fs, n) == c.filters;
  }

  /** An index that is not a number, zero or negative is refused before the
      channel is looked up. */
  lemma BadIndexRefused(s: Store, w: Monitor.Watched, id: string)
    ensures RemoveFilterCommand(s, w, true, ["/removefilter", id, "0"], false).reply == Refused(InvalidIndex)
    ensures RemoveFilterCommand(s, w, true, ["/removefilter", id, "x"], false).reply == Refused(InvalidIndex)
    ensures RemoveFilterCommand(s, w, true, ["/removefilter", id, "-1"], false).reply == Refused(InvalidIndex)
  {
    assert AllDigits("0");
    assert DigitsValue("0") == 0;
    assert !IsDigit("x"[0]);
    assert AllDigits("1") && DigitsValue("1") == 1;
  }
}
