/** The file stores: channels in `channels/<id>.json`, users in
    `users/<id>.json`, and each channel's messages in its own directory,
    `messages/<channelId>/<messageId>.json`. The flat package keeps the three
    under one storage value and the layered tree in three repositories; the
    file operations are the same, and `Store` holds the three parts. */
module Stores {
  import opened Results
  import opened Text
  import opened Domain
  import opened Folders

  /** `channels/`, the per-channel directories under `messages/` (a channel
      with no directory yet is absent from the map), and `users/`. */
  datatype Store = Store(
    channels: Folder<Channel>,
    messages: map<string, Folder<Message>>,
    users: Folder<User>)

  /** The file name of a channel: its id with `.json` appended. */
  function ChannelFile(id: string): (r: string)
    ensures IsJson(r) && |r| == |id| + 5
  {
    id + ".json"
  }

  /** The file name of a message or a user: `fmt.Sprintf("%d.json", id)`. */
  function NumberFile(id: int): (r: string)
    ensures IsJson(r)
  {
    IntToString(id) + ".json"
  }

  /** Distinct channels never share a file. */
  lemma ChannelFileInjective(a: string, b: string)
    ensures ChannelFile(a) == ChannelFile(b) ==> a == b
  {
    if ChannelFile(a) == ChannelFile(b) {
      assert a == ChannelFile(a)[..|a|];
      assert b == ChannelFile(b)[..|b|];
    }
  }

  /** Distinct numeric ids never share a file. */
  lemma NumberFileInjective(a: int, b: int)
    ensures NumberFile(a) == NumberFile(b) ==> a == b
  {
    if NumberFile(a) == NumberFile(b) {
      var x, y := IntToString(a), IntToString(b);
      assert |x| == |y|;
      assert x == NumberFile(a)[..|x|];
      assert y == NumberFile(b)[..|y|];
      IntToStringInjective(a, b);
    }
  }

  // ---------------------------------------------------------------------
  // Channels
  // ---------------------------------------------------------------------

  /** `GetChannel`: a missing file is `ErrChannelNotFound`; a file that cannot
      be read or decoded is another error. */
  function GetChannel(s: Store, id: string): (r: Result<Channel>)
    ensures r.Err? ==> r.error == NotFound || r.error == ReadFailed || r.error == Corrupt
    ensures r == Err(NotFound) <==> Find(s.channels.entries, ChannelFile(id)).None?
  {
    Load(s.channels, ChannelFile(id))
  }

  /** `SaveChannel`: create or overwrite the channel's file. */
  function SaveChannel(s: Store, c: Channel, fault: bool): (r: Result<Store>)
    ensures r.Ok? <==> !fault && Find(s.channels.entries, ChannelFile(c.id)) != Some(SubDir)
    ensures r.Err? ==> r.error == WriteFailed
    ensures r.Ok? ==> GetChannel(r.value, c.id) == Ok(c)
    ensures r.Ok? ==> forall id :: id != c.id ==> GetChannel(r.value, id) == GetChannel(s, id)
    ensures r.Ok? ==> r.value.messages == s.messages && r.value.users == s.users
  {
    match Save(s.channels, ChannelFile(c.id), c, fault)
    case Ok(d) =>
      assert forall id :: id != c.id ==> Load(d, ChannelFile(id)) == Load(s.channels, ChannelFile(id)) by {
        forall id | id != c.id { ChannelFileInjective(id, c.id); }
      }
      Ok(s.(channels := d))
    case Err(e) => Err(e)
  }

  /** `GetAllChannels`: every readable channel file, in file-name order. */
  function GetAllChannels(s: Store): (r: Result<seq<Channel>>)
    ensures r.Err? <==> !s.channels.listable
    ensures r.Ok? ==> forall id :: GetChannel(s, id).Ok? ==> GetChannel(s, id).value in r.value
    ensures r.Ok? ==> forall c :: c in r.value ==>
      exists i :: 0 <= i < |s.channels.entries| && s.channels.entries[i].kind == Record(c) && IsJson(s.channels.entries[i].name)
    ensures r.Ok? ==> |r.value| <= |s.channels.entries|
  {
    var r := List(s.channels);
    if r.Ok? then
      assert forall id :: GetChannel(s, id).Ok? ==> GetChannel(s, id).value in r.value by {
        forall id | GetChannel(s, id).Ok? { ListedWhenLoaded(s.channels, ChannelFile(id)); }
      }
      r
    else r
  }

  /** `DeleteChannel`: remove the channel's file; a missing file is an error. */
  function DeleteChannel(s: Store, id: string, fault: bool): (r: Result<Store>)
    ensures r.Ok? <==> !fault && GetChannel(s, id) != Err(NotFound)
    ensures r.Err? && !fault ==> r.error == NotFound
    ensures r.Ok? ==> GetChannel(r.value, id) == Err(NotFound)
    ensures r.Ok? ==> forall other :: other != id ==> GetChannel(r.value, other) == GetChannel(s, other)
    ensures r.Ok? ==> r.value.messages == s.messages && r.value.users == s.users
  {
    match Delete(s.channels, ChannelFile(id), fault)
    case Ok(d) =>
      assert forall other :: other != id ==> Load(d, ChannelFile(other)) == Load(s.channels, ChannelFile(other)) by {
        forall other | other != id { ChannelFileInjective(other, id); }
      }
      Ok(s.(channels := d))
    case Err(e) => Err(e)
  }

  /** A record a load finds under a `.json` name is one a listing returns. */
  lemma ListedWhenLoaded<T(!new)>(f: Folder<T>, name: string)
    requires f.listable && IsJson(name) && Load(f, name).Ok?
    ensures Load(f, name).value in List(f).value
  {
    var v := Load(f, name).value;
    var i :| 0 <= i < |f.entries| && f.entries[i] == Entry(name, Record(v));
    assert f.entries[i].kind == Record(v) && IsJson(f.entries[i].name);
  }

  // ---------------------------------------------------------------------
  // Messages
  // ---------------------------------------------------------------------

  /** The message a channel's directory holds under a message id. */
  function StoredMessage(s: Store, channelId: string, id: int): Result<Message> {
    if channelId in s.messages then Load(s.messages[channelId], NumberFile(id)) else Err(NotFound)
  }

  /** The channel's directory, or the empty one `os.MkdirAll` creates. */
  function MessageFolder(s: Store, channelId: string): (f: Folder<Message>)
    ensures channelId !in s.messages ==> f.entries == [] && f.listable
  {
    if channelId in s.messages then s.messages[channelId] else Folder([], true)
  }

  /** `SaveMessage`: create the channel's directory if needed, then create or
      overwrite `<id>.json` in it. */
  function SaveMessage(s: Store, m: Message, fault: bool): (r: Result<Store>)
    ensures r.Ok? <==> !fault && Find(MessageFolder(s, m.channelId).entries, NumberFile(m.id)) != Some(SubDir)
    ensures r.Err? ==> r.error == WriteFailed
    ensures r.Ok? ==> StoredMessage(r.value, m.channelId, m.id) == Ok(m)
    ensures r.Ok? ==> forall ch, id :: (ch != m.channelId || id != m.id) ==>
      StoredMessage(r.value, ch, id) == StoredMessage(s, ch, id)
    ensures r.Ok? ==> r.value.messages.Keys == s.messages.Keys + {m.channelId}
    ensures r.Ok? ==> r.value.channels == s.channels && r.value.users == s.users
  {
    var folder := MessageFolder(s, m.channelId);
    match Save(folder, NumberFile(m.id), m, fault)
    case Ok(d) =>
      var t := s.(messages := s.messages[m.channelId := d]);
      assert forall id :: id != m.id ==> Load(d, NumberFile(id)) == Load(folder, NumberFile(id)) by {
        forall id | id != m.id { NumberFileInjective(id, m.id); }
      }
      Ok(t)
    case Err(e) => Err(e)
  }

  /** Saving a message twice under the same key leaves the store as saving
      only the second would: one record, holding the second value. */
  lemma SaveMessageOverwrite(s: Store, m1: Message, m2: Message)
    requires m1.channelId == m2.channelId && m1.id == m2.id
    requires SaveMessage(s, m1, false).Ok?
    ensures SaveMessage(SaveMessage(s, m1, false).value, m2, false) == SaveMessage(s, m2, false)
  {
    var ch := m1.channelId;
    var f := MessageFolder(s, ch);
    var e1, e2 := Entry(NumberFile(m1.id), Record(m1)), Entry(NumberFile(m2.id), Record(m2));
    PutOverwrite(f.entries, e1, e2);
    SavedStore(s, m1);
    var d1 := Folder(Put(f.entries, e1), f.listable);
    var t := s.(messages := s.messages[ch := d1]);
    assert SaveMessage(s, m1, false).value == t;
    assert MessageFolder(t, ch) == d1;
    SavedStore(t, m2);
    SavedStore(s, m2);
    var d2 := Folder(Put(f.entries, e2), f.listable);
    assert Folder(Put(d1.entries, e2), d1.listable) == d2;
    RewriteFolder(s, ch, d1, d2);
  }

  /** Writing a channel's directory twice keeps only the second write. */
  lemma RewriteFolder(s: Store, ch: string, d1: Folder<Message>, d2: Folder<Message>)
    ensures var t := s.(messages := s.messages[ch := d1]);
            t.(messages := t.messages[ch := d2]) == s.(messages := s.messages[ch := d2])
  {
    var t := s.(messages := s.messages[ch := d1]);
    assert t.messages[ch := d2] == s.messages[ch := d2];
  }

  /** The store a successful `SaveMessage` leaves. */
  lemma SavedStore(s: Store, m: Message)
    requires Find(MessageFolder(s, m.channelId).entries, NumberFile(m.id)) != Some(SubDir)
    ensures var f := MessageFolder(s, m.channelId);
            SaveMessage(s, m, false) ==
              Ok(s.(messages := s.messages[m.channelId :=
                 Folder(Put(f.entries, Entry(NumberFile(m.id), Record(m))), f.listable)]))
  {
  }

  /** `GetMessages`: the channel's records from the last file name backwards,
      at most `limit` of them; no directory means no messages. */
  function GetMessages(s: Store, channelId: string, limit: int): (r: Result<seq<Message>>)
    ensures r.Err? <==> channelId in s.messages && !s.messages[channelId].listable
    ensures r.Err? ==> r.error == ListFailed
    ensures channelId !in s.messages ==> r == Ok([])
    ensures r.Ok? ==> r.value == Take(Reverse(Records(MessageFolder(s, channelId).entries)), limit)
    ensures r.Ok? ==> |r.value| <= if limit < 0 then 0 else limit
  {
    if channelId !in s.messages then Ok([])
    else
      var f := s.messages[channelId];
      if !f.listable then Err(ListFailed) else Ok(Newest(f.entries, limit))
  }

  /** The messages dated strictly after `since`, in their order. */
  function NewerThan(ms: seq<Message>, since: int): (r: seq<Message>)
    ensures |r| <= |ms|
  {
    if ms == [] then []
    else (if ms[0].date > since then [ms[0]] else []) + NewerThan(ms[1..], since)
  }

  lemma {:induction false} NewerThanAppend(a: seq<Message>, b: seq<Message>, since: int)
    ensures NewerThan(a + b, since) == NewerThan(a, since) + NewerThan(b, since)
  {
    if a != [] {
      NewerThanAppend(a[1..], b, since);
      assert (a + b)[0] == a[0];
      assert (a + b)[1..] == a[1..] + b;
    } else {
      assert a + b == b;
    }
  }

  /** Exactly the messages dated after `since` are kept. */
  lemma {:induction false} NewerThanMembers(ms: seq<Message>, since: int, m: Message)
    ensures m in NewerThan(ms, since) <==> m in ms && m.date > since
  {
    if ms != [] {
      NewerThanMembers(ms[1..], since, m);
      assert ms == [ms[0]] + ms[1..];
    }
  }

  /** `GetRecentMessages`: the channel's records in file-name order, those
      dated strictly after `since`. */
  method GetRecentMessages(s: Store, channelId: string, since: int) returns (r: Result<seq<Message>>)
    ensures r.Err? <==> channelId in s.messages && !s.messages[channelId].listable
    ensures r.Err? ==> r.error == ListFailed
    ensures channelId !in s.messages ==> r == Ok([])
    ensures r.Ok? ==> r.value == NewerThan(Records(MessageFolder(s, channelId).entries), since)
  {
    if channelId !in s.messages {
      return Ok([]);
    }
    var f := s.messages[channelId];
    if !f.listable {
      return Err(ListFailed);
    }
    var es := f.entries;
    var acc: seq<Message> := [];
    var i := 0;
    while i < |es|
      invariant 0 <= i <= |es|
      invariant acc == NewerThan(Records(es[..i]), since)
    {
      var e := es[i];
      RecentStep(es, i, since);
      if e.kind.Record? && IsJson(e.name) && e.kind.value.date > since {
        acc := acc + [e.kind.value];
      }
      i := i + 1;
    }
    assert es[..|es|] == es;
    return Ok(acc);
  }

  /** One step of the forward walk of `GetRecentMessages`. */
  lemma RecentStep(es: seq<Entry<Message>>, i: int, since: int)
    requires 0 <= i < |es|
    ensures NewerThan(Records(es[..i + 1]), since) ==
      NewerThan(Records(es[..i]), since)
      + (if es[i].kind.Record? && IsJson(es[i].name) && es[i].kind.value.date > since
         then [es[i].kind.value] else [])
  {
    var e := es[i];
    assert es[..i + 1] == es[..i] + [e];
    RecordsAppend(es[..i], [e]);
    assert [e][1..] == [];
    assert Records([e]) == Listed(e);
    NewerThanAppend(Records(es[..i]), Listed(e), since);
  }

  /** A message whose file name sorts after every other name in its channel's
      directory is the first one `GetMessages` returns. */
  lemma LastNameComesFirst(s: Store, m: Message, limit: int)
    requires m.channelId in s.messages && s.messages[m.channelId].listable
    requires forall i :: 0 <= i < |s.messages[m.channelId].entries| ==>
      Less(s.messages[m.channelId].entries[i].name, NumberFile(m.id))
    requires limit >= 1
    ensures SaveMessage(s, m, false).Ok?
    ensures var g := GetMessages(SaveMessage(s, m, false).value, m.channelId, limit);
            g.Ok? && |g.value| > 0 && g.value[0] == m
  {
    SaveAtEnd(s, m);
    var es := SaveMessage(s, m, false).value.messages[m.channelId].entries;
    NewestLast(es, limit);
  }

  /** Saving a message whose file name sorts after every name present appends
      its entry to the channel's directory. */
  lemma SaveAtEnd(s: Store, m: Message)
    requires forall i :: 0 <= i < |MessageFolder(s, m.channelId).entries| ==>
      Less(MessageFolder(s, m.channelId).entries[i].name, NumberFile(m.id))
    ensures var r := SaveMessage(s, m, false);
            && r.Ok? && m.channelId in r.value.messages
            && r.value.messages[m.channelId].entries
               == MessageFolder(s, m.channelId).entries + [Entry(NumberFile(m.id), Record(m))]
            && r.value.messages[m.channelId].listable == MessageFolder(s, m.channelId).listable
  {
    var f := MessageFolder(s, m.channelId);
    var e := Entry(NumberFile(m.id), Record(m));
    assert Find(f.entries, e.name).None? by {
      forall i | 0 <= i < |f.entries| ensures f.entries[i].name != e.name {
        LessIrreflexive(e.name);
      }
    }
    PutLast(f.entries, e);
  }

  /** When the last entry is a `.json` record, the backward walk returns it first. */
  lemma NewestLast<T>(es: seq<Entry<T>>, limit: int)
    requires |es| > 0 && limit >= 1
    requires es[|es| - 1].kind.Record? && IsJson(es[|es| - 1].name)
    ensures |Newest(es, limit)| > 0 && Newest(es, limit)[0] == es[|es| - 1].kind.value
  {
  }

  /** Writing a name greater than all present appends its entry. */
  lemma {:induction false} PutLast<T>(es: seq<Entry<T>>, e: Entry<T>)
    requires Sorted(es)
    requires forall i :: 0 <= i < |es| ==> Less(es[i].name, e.name)
    ensures Put(es, e) == es + [e]
  {
    if es != [] {
      LessIrreflexive(e.name);
      LessAsymmetric(es[0].name, e.name);
      PutLast(es[1..], e);
      assert es == [es[0]] + es[1..];
    }
  }

  /** File names order messages as text, not as numbers: after message 10
      and then message 9 are saved into a new channel directory, the first
      message `GetMessages` returns is message 9. */
  lemma TextualNameOrder(s: Store, m9: Message, m10: Message)
    requires m9.channelId == m10.channelId && m9.channelId !in s.messages
    requires m9.id == 9 && m10.id == 10
    ensures SaveMessage(s, m10, false).Ok?
    ensures SaveMessage(SaveMessage(s, m10, false).value, m9, false).Ok?
    ensures GetMessages(SaveMessage(SaveMessage(s, m10, false).value, m9, false).value, m9.channelId, 1)
            == Ok([m9])
  {
    TenBeforeNine();
    SaveAtEnd(s, m10);
    var t := SaveMessage(s, m10, false).value;
    SaveAtEnd(t, m9);
    var es := SaveMessage(t, m9, false).value.messages[m9.channelId].entries;
    NewestLast(es, 1);
    var g := Newest(es, 1);
    assert |g| == 1 && g[0] == m9;
    assert g == [m9];
    var u := SaveMessage(t, m9, false).value;
    assert u.messages[m9.channelId].listable;
    assert GetMessages(u, m9.channelId, 1) == Ok(g);
  }

  /** "10.json" sorts before "9.json". */
  lemma TenBeforeNine()
    ensures NumberFile(10) == "10.json" && NumberFile(9) == "9.json"
    ensures Less(NumberFile(10), NumberFile(9))
  {
    assert NatToString(1) == "1";
    assert NatToString(10) == NatToString(1) + [DigitChar(0)];
    assert NumberFile(9) == "9.json";
  }

  // ---------------------------------------------------------------------
  // Users
  // ---------------------------------------------------------------------

  /** `GetUser`: a missing file is "user not found". */
  function GetUser(s: Store, id: int): (r: Result<User>)
    ensures r.Err? ==> r.error == NotFound || r.error == ReadFailed || r.error == Corrupt
    ensures r == Err(NotFound) <==> Find(s.users.entries, NumberFile(id)).None?
  {
    Load(s.users, NumberFile(id))
  }

  /** `SaveUser`: create or overwrite the user's file. */
  function SaveUser(s: Store, u: User, fault: bool): (r: Result<Store>)
    ensures r.Ok? <==> !fault && Find(s.users.entries, NumberFile(u.id)) != Some(SubDir)
    ensures r.Err? ==> r.error == WriteFailed
    ensures r.Ok? ==> GetUser(r.value, u.id) == Ok(u)
    ensures r.Ok? ==> forall id :: id != u.id ==> GetUser(r.value, id) == GetUser(s, id)
    ensures r.Ok? ==> r.value.channels == s.channels && r.value.messages == s.messages
  {
    match Save(s.users, NumberFile(u.id), u, fault)
    case Ok(d) =>
      assert forall id :: id != u.id ==> Load(d, NumberFile(id)) == Load(s.users, NumberFile(id)) by {
        forall id | id != u.id { NumberFileInjective(id, u.id); }
      }
      Ok(s.(users := d))
    case Err(e) => Err(e)
  }

  /** `GetAllUsers`: every readable user file, in file-name order. */
  function GetAllUsers(s: Store): (r: Result<seq<User>>)
    ensures r.Err? <==> !s.users.listable
    ensures r.Ok? ==> forall id :: GetUser(s, id).Ok? ==> GetUser(s, id).value in r.value
    ensures r.Ok? ==> forall u :: u in r.value ==>
      exists i :: 0 <= i < |s.users.entries| && s.users.entries[i].kind == Record(u) && IsJson(s.users.entries[i].name)
    ensures r.Ok? ==> |r.value| <= |s.users.entries|
  {
    var r := List(s.users);
    if r.Ok? then
      assert forall id :: GetUser(s, id).Ok? ==> GetUser(s, id).value in r.value by {
        forall id | GetUser(s, id).Ok? { ListedWhenLoaded(s.users, NumberFile(id)); }
      }
      r
    else r
  }
}
