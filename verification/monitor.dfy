/** The channel monitor: the set of channel ids being watched, how it is
    seeded at start-up, and the periodic check that stamps each watched
    channel's `LastUpdate`. The layered channel service and the flat
    `ChannelMonitor` carry the same code; it is modelled once. The periodic
    check runs one goroutine per channel; the model runs them one after the
    other in a given order. */
module Monitor {
  import opened Results
  import opened Domain
  import opened Folders
  import Stores

  /** The ids of the channels being watched (the `channels` map, whose
      values are always `true`). */
  type Watched = set<string>

  /** `AddChannel`: start watching a channel. */
  function AddChannel(w: Watched, id: string): (r: Watched)
    ensures id in r
    ensures forall x :: x != id ==> (x in r <==> x in w)
  {
    w + {id}
  }

  /** `RemoveChannel`: stop watching a channel; removing an unwatched id is harmless. */
  function RemoveChannel(w: Watched, id: string): (r: Watched)
    ensures id !in r
    ensures forall x :: x != id ==> (x in r <==> x in w)
  {
    w - {id}
  }

  /** Repeating either call changes nothing, and removing an id just added
      leaves it unwatched. */
  lemma WatchIdempotent(w: Watched, id: string)
    ensures AddChannel(AddChannel(w, id), id) == AddChannel(w, id)
    ensures RemoveChannel(RemoveChannel(w, id), id) == RemoveChannel(w, id)
    ensures id !in RemoveChannel(AddChannel(w, id), id)
    ensures id !in w ==> RemoveChannel(AddChannel(w, id), id) == w
  {
  }

  /** The `for` loop of `Start`: add every active channel, in list order. */
  function AddActive(w: Watched, cs: seq<Channel>): (r: Watched)
    decreases |cs|
    ensures w <= r
    ensures forall id :: id in r && id !in w ==> exists i :: 0 <= i < |cs| && cs[i].isActive && cs[i].id == id
    ensures forall i :: 0 <= i < |cs| && cs[i].isActive ==> cs[i].id in r
  {
    if |cs| == 0 then w
    else
      var next := if cs[0].isActive then AddChannel(w, cs[0].id) else w;
      var r := AddActive(next, cs[1..]);
      assert forall i :: 1 <= i < |cs| ==> cs[i] == cs[1..][i - 1];
      assert forall id :: id in r && id !in w ==> exists i :: 0 <= i < |cs| && cs[i].isActive && cs[i].id == id by {
        forall id | id in r && id !in w ensures exists i :: 0 <= i < |cs| && cs[i].isActive && cs[i].id == id {
          if id in next {
            assert cs[0].isActive && cs[0].id == id;
          } else {
            var j :| 0 <= j < |cs[1..]| && cs[1..][j].isActive && cs[1..][j].id == id;
            assert cs[j + 1] == cs[1..][j];
          }
        }
      }
      r
  }

  /** `Start`: watch every active stored channel; if the listing fails,
      watch nothing new. */
  function Start(s: Stores.Store, w: Watched): (r: Watched)
    ensures w <= r
    ensures !s.channels.listable ==> r == w
    ensures forall id :: id in r && id !in w ==>
      Stores.GetAllChannels(s).Ok? && exists c :: c in Stores.GetAllChannels(s).value && c.isActive && c.id == id
    ensures s.channels.listable ==>
      forall c :: c in Stores.GetAllChannels(s).value && c.isActive ==> c.id in r
  {
    match Stores.GetAllChannels(s)
    case Err(_) => w
    case Ok(cs) => AddActive(w, cs)
  }

  /** A stored, active channel whose record carries its own id is watched
      after `Start`. */
  lemma StartWatchesActive(s: Stores.Store, w: Watched, id: string)
    requires s.channels.listable
    requires Stores.GetChannel(s, id).Ok?
    requires Stores.GetChannel(s, id).value.isActive && Stores.GetChannel(s, id).value.id == id
    ensures id in Start(s, w)
  {
    var cs := Stores.GetAllChannels(s).value;
    var c := Stores.GetChannel(s, id).value;
    assert c in cs;
    var i :| 0 <= i < |cs| && cs[i] == c;
  }

  /** `DeleteChannel` of the channel service: stop watching first, then delete
      the file; the id is unwatched whatever the deletion reports. */
  function DeleteChannel(s: Stores.Store, w: Watched, id: string, fault: bool): (r: (Watched, Result<Stores.Store>))
    ensures r.0 == RemoveChannel(w, id)
    ensures r.1.Ok? <==> !fault && Stores.GetChannel(s, id) != Err(NotFound)
    ensures r.1.Ok? ==> Stores.GetChannel(r.1.value, id) == Err(NotFound)
    ensures r.1.Ok? ==> forall other :: other != id ==> Stores.GetChannel(r.1.value, other) == Stores.GetChannel(s, other)
    ensures r.1.Ok? ==> r.1.value.messages == s.messages && r.1.value.users == s.users
  {
    (RemoveChannel(w, id), Stores.DeleteChannel(s, id, fault))
  }

  // ---------------------------------------------------------------------
  // The periodic check
  // ---------------------------------------------------------------------

  /** `fetchChannelMessages`: without a bot, an error; a channel that cannot
      be loaded, its error; an inactive channel, nothing; otherwise the
      channel is saved with `LastUpdate` set to `now`, and a failed save is
      only logged. */
  function FetchChannel(s: Stores.Store, id: string, hasBot: bool, now: int, fault: bool): (r: Result<Stores.Store>)
    ensures !hasBot ==> r == Err(BotMissing)
    ensures hasBot && Stores.GetChannel(s, id).Err? ==> r == Err(Stores.GetChannel(s, id).error)
    ensures hasBot && Stores.GetChannel(s, id).Ok? ==> r.Ok?
    ensures r.Ok? ==> r.value.messages == s.messages && r.value.users == s.users
    ensures r.Ok? && (fault || !Stores.GetChannel(s, id).value.isActive) ==> r.value == s
    ensures r.Ok? && Stores.GetChannel(s, id).value.isActive && Stores.GetChannel(s, id).value.id == id && !fault ==>
      Stores.GetChannel(r.value, id) == Ok(Stores.GetChannel(s, id).value.(lastUpdate := now))
    ensures r.Ok? ==> forall x :: x != Stores.GetChannel(s, id).value.id ==> Stores.GetChannel(r.value, x) == Stores.GetChannel(s, x)
  {
    if !hasBot then Err(BotMissing)
    else
      match Stores.GetChannel(s, id)
      case Err(e) => Err(e)
      case Ok(c) =>
        if !c.isActive then Ok(s)
        else
          match Stores.SaveChannel(s, c.(lastUpdate := now), fault)
          case Ok(t) => Ok(t)
          case Err(_) => Ok(s)
  }

  /** Every stored channel record is kept in the file named after its own id. */
  ghost predicate WellKeyed(s: Stores.Store) {
    forall id :: Stores.GetChannel(s, id).Ok? ==> Stores.GetChannel(s, id).value.id == id
  }

  /** Going from `s` to `t`, each channel is either as it was or has only its
      last update set to `now`. */
  ghost predicate Stamped(s: Stores.Store, t: Stores.Store, now: int) {
    forall x ::
      || Stores.GetChannel(t, x) == Stores.GetChannel(s, x)
      || (Stores.GetChannel(s, x).Ok? && Stores.GetChannel(t, x) == Ok(Stores.GetChannel(s, x).value.(lastUpdate := now)))
  }

  /** One fetch on a well-keyed store keeps it well keyed and only stamps. */
  lemma FetchStamps(s: Stores.Store, id: string, hasBot: bool, now: int, fault: bool)
    requires WellKeyed(s)
    requires FetchChannel(s, id, hasBot, now, fault).Ok?
    ensures WellKeyed(FetchChannel(s, id, hasBot, now, fault).value)
    ensures Stamped(s, FetchChannel(s, id, hasBot, now, fault).value, now)
  {
    var t := FetchChannel(s, id, hasBot, now, fault).value;
    var c := Stores.GetChannel(s, id).value;
    assert c.id == id;
    forall x | Stores.GetChannel(t, x).Ok? ensures Stores.GetChannel(t, x).value.id == x {
      if x != id {
        assert Stores.GetChannel(t, x) == Stores.GetChannel(s, x);
      }
    }
  }

  /** What a fetch with the clock reading `now` leaves in a channel's file
      whose lookup gave `c`: the record stamped with `now` when a bot is
      present, the channel is active and its save succeeds; otherwise what
      was there. */
  function Fetched(c: Result<Channel>, hasBot: bool, now: int, fault: bool): Result<Channel> {
    if hasBot && !fault && c.Ok? && c.value.isActive then Ok(c.value.(lastUpdate := now)) else c
  }

  /** One successful fetch on a well-keyed store settles the fetched
      channel as `Fetched` says and changes no other channel. */
  lemma FetchSettles(r: Stores.Store, id: string, hasBot: bool, now: int, fault: bool)
    requires WellKeyed(r)
    requires FetchChannel(r, id, hasBot, now, fault).Ok?
    ensures Stores.GetChannel(FetchChannel(r, id, hasBot, now, fault).value, id) == Fetched(Stores.GetChannel(r, id), hasBot, now, fault)
    ensures forall x :: x != id ==> Stores.GetChannel(FetchChannel(r, id, hasBot, now, fault).value, x) == Stores.GetChannel(r, x)
  {
    assert Stores.GetChannel(r, id).value.id == id;
  }

  /** `checkChannels`: fetch every watched channel, each in its own goroutine
      with its own `time.Now()` reading; each fetch error is only logged.
      `ids` are the keys of the watched map, so no id occurs twice;
      `nows[i]` is the clock reading of the fetch of `ids[i]` and `faults[i]`
      says whether its save fails. On a well-keyed store, every fetched
      channel ends as `Fetched` says, and no other channel changes. */
  method CheckChannels(s: Stores.Store, ids: seq<string>, hasBot: bool, nows: seq<int>, faults: seq<bool>) returns (r: Stores.Store)
    requires |nows| == |ids| && |faults| == |ids|
    requires forall i, j :: 0 <= i < j < |ids| ==> ids[i] != ids[j]
    ensures r.messages == s.messages && r.users == s.users
    ensures !hasBot ==> r == s
    ensures WellKeyed(s) ==> WellKeyed(r)
    ensures WellKeyed(s) ==>
      forall i :: 0 <= i < |ids| ==> Stores.GetChannel(r, ids[i]) == Fetched(Stores.GetChannel(s, ids[i]), hasBot, nows[i], faults[i])
    ensures WellKeyed(s) ==> forall x :: x !in ids ==> Stores.GetChannel(r, x) == Stores.GetChannel(s, x)
    ensures WellKeyed(s) ==>
      forall x :: Stores.GetChannel(s, x).Ok? && !Stores.GetChannel(s, x).value.isActive ==> Stores.GetChannel(r, x) == Stores.GetChannel(s, x)
  {
    r := s;
    var i := 0;
    while i < |ids|
      invariant 0 <= i <= |ids|
      invariant r.messages == s.messages && r.users == s.users
      invariant !hasBot ==> r == s
      invariant WellKeyed(s) ==> WellKeyed(r)
      invariant WellKeyed(s) ==>
        forall j :: 0 <= j < i ==> Stores.GetChannel(r, ids[j]) == Fetched(Stores.GetChannel(s, ids[j]), hasBot, nows[j], faults[j])
      invariant WellKeyed(s) ==> forall x :: x !in ids[..i] ==> Stores.GetChannel(r, x) == Stores.GetChannel(s, x)
    {
      var step := FetchChannel(r, ids[i], hasBot, nows[i], faults[i]);
      if step.Ok? {
        if WellKeyed(s) {
          FetchStamps(r, ids[i], hasBot, nows[i], faults[i]);
          SweepStep(s, r, step.value, ids, i, hasBot, nows, faults);
        }
        r := step.value;
      } else if WellKeyed(s) {
        assert ids[..i + 1] == ids[..i] + [ids[i]];
        assert ids[i] !in ids[..i];
      }
      i := i + 1;
    }
    assert ids[..i] == ids;
  }

  /** One fetch of `ids[i]` settles that channel as `Fetched` says and
      changes no other channel. */
  lemma SweepStep(s: Stores.Store, r: Stores.Store, t: Stores.Store, ids: seq<string>, i: int, hasBot: bool, nows: seq<int>, faults: seq<bool>)
    requires |nows| == |ids| && |faults| == |ids| && 0 <= i < |ids|
    requires forall a, b :: 0 <= a < b < |ids| ==> ids[a] != ids[b]
    requires WellKeyed(r)
    requires FetchChannel(r, ids[i], hasBot, nows[i], faults[i]) == Ok(t)
    requires forall j :: 0 <= j < i ==> Stores.GetChannel(r, ids[j]) == Fetched(Stores.GetChannel(s, ids[j]), hasBot, nows[j], faults[j])
    requires forall x :: x !in ids[..i] ==> Stores.GetChannel(r, x) == Stores.GetChannel(s, x)
    ensures forall j :: 0 <= j <= i ==> Stores.GetChannel(t, ids[j]) == Fetched(Stores.GetChannel(s, ids[j]), hasBot, nows[j], faults[j])
    ensures forall x :: x !in ids[..i + 1] ==> Stores.GetChannel(t, x) == Stores.GetChannel(s, x)
  {
    FetchSettles(r, ids[i], hasBot, nows[i], faults[i]);
    SweepFrame(s, r, t, ids, i);
    SweepDone(s, r, t, ids, i, hasBot, nows, faults);
  }

  /** A step that changes only `ids[i]` keeps every id outside the first
      `i + 1` as it was at the start. */
  lemma SweepFrame(s: Stores.Store, r: Stores.Store, t: Stores.Store, ids: seq<string>, i: int)
    requires 0 <= i < |ids|
    requires forall x :: x != ids[i] ==> Stores.GetChannel(t, x) == Stores.GetChannel(r, x)
    requires forall x :: x !in ids[..i] ==> Stores.GetChannel(r, x) == Stores.GetChannel(s, x)
    ensures forall x :: x !in ids[..i + 1] ==> Stores.GetChannel(t, x) == Stores.GetChannel(s, x)
  {
    assert ids[..i + 1] == ids[..i] + [ids[i]];
  }

  /** A step that settles `ids[i]`, untouched until then, and changes no
      other id extends the settled prefix by one. */
  lemma SweepDone(s: Stores.Store, r: Stores.Store, t: Stores.Store, ids: seq<string>, i: int, hasBot: bool, nows: seq<int>, faults: seq<bool>)
    requires |nows| == |ids| && |faults| == |ids| && 0 <= i < |ids|
    requires forall a, b :: 0 <= a < b < |ids| ==> ids[a] != ids[b]
    requires forall x :: x != ids[i] ==> Stores.GetChannel(t, x) == Stores.GetChannel(r, x)
    requires forall x :: x !in ids[..i] ==> Stores.GetChannel(r, x) == Stores.GetChannel(s, x)
    requires Stores.GetChannel(t, ids[i]) == Fetched(Stores.GetChannel(r, ids[i]), hasBot, nows[i], faults[i])
    requires forall j :: 0 <= j < i ==> Stores.GetChannel(r, ids[j]) == Fetched(Stores.GetChannel(s, ids[j]), hasBot, nows[j], faults[j])
    ensures forall j :: 0 <= j <= i ==> Stores.GetChannel(t, ids[j]) == Fetched(Stores.GetChannel(s, ids[j]), hasBot, nows[j], faults[j])
  {
    assert ids[i] !in ids[..i];
    forall j | 0 <= j < i ensures Stores.GetChannel(t, ids[j]) == Stores.GetChannel(r, ids[j]) {
      assert ids[j] != ids[i];
    }
  }
}
