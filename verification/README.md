# rss-telegram-feed in Dafny

rss-telegram-feed is a Telegram bot that watches channels and republishes their
posts as RSS feeds. The repository holds the same pipeline twice: a flat
`package main` (`bot_handler.go`, `channel_monitor.go`, `feed_service.go`,
`storage.go`) and a layered `internal/` tree (a telegram handler, channel, feed and
user services, and one file repository per entity). This project models the
sequential, deterministic core of both copies as pure functions over immutable
values. The core covers six parts:

- **Keyword filtering** (`filters.dfy`). A channel's ordered filter list admits or
  rejects a post's text:
  - an include filter needs one of its keywords;
  - an exclude filter rejects on any of its keywords;
  - author filters and disabled filters never decide.

  Matching is an ASCII case-insensitive substring test, and an empty keyword never
  matches. The three matchers in the sources are modelled separately and proved to
  agree, with the flat bot's lowering taken as ASCII (exact on ASCII text).
- **Ingestion** (`ingest.dfy`). These functions turn a channel post into a stored
  message: `processChannelPost` of both handlers, the channel service's
  `ProcessMessage` and the flat monitor's `processMessage`. The copies differ in
  three ways, and the model keeps each difference:
  - which text they store (the caption fallback);
  - which id they key by;
  - whether the channel's last-update time is written.
- **Storage** (`folders.dfy`, `stores.dfy`). Every repository is a directory of
  JSON files. A `Folder` is a name-sorted list of entries, which is what
  `os.ReadDir` returns. Each entry is a decodable record, a garbled file or a
  sub-directory. Stores upsert, look up, list while skipping bad entries, and
  delete. Message listings walk the directory from the last name backwards.
- **Feed rendering** (`feed.dfy`). This covers `truncate`, `escapeHTML`, the
  item built from a message, and `GenerateFeed`.
- **The watched set and the periodic sweep** (`monitor.dfy`). This covers
  `AddChannel`, `RemoveChannel`, `Start`, `DeleteChannel` and
  `fetchChannelMessages`. `checkChannels` is modelled as a sequential loop.
- **Bot commands and configuration** (`commands.dfy`, `config.dfy`). This covers
  authorization, the `/start` registration, the add and remove commands for
  channels and filters, and `ParseAllowedUsers`.

Conventions used throughout:
- `results.dfy` holds `Option` and `Result`.
- `text.dfy` holds the string primitives the Go code takes from the standard
  library: `strings.ToLower`/`Split`/`TrimSpace`/`TrimPrefix`, `%d` formatting,
  `strconv.Atoi`, and the name order of a directory listing.
- `domain.dfy` transcribes the records of `models.go` and of the layered domain
  packages.
- A failing write, create or remove is a `fault: bool` parameter.
- Clock readings are integer parameters, one per `time.Now()` call: a sweep
  takes one reading per fetch, and `/addchannel` takes two.
- Where the two copies differ, both behaviours are modelled and a lemma exhibits
  the difference:
  - `Ingest.CaptionOnlyLayered` against `Ingest.CaptionOnlyFlat`;
  - `Commands.RemoveUnknownChannel`;
  - `Commands.FlatStart` against `Commands.LayeredStart`.

Three behaviours of the code worth knowing:

- **Layered `/start`.** `IsAuthorized` authorizes everybody when the allow-list
  is empty, so the layered handler's auto-registration branch can never run.
  `Commands.LayeredStart` never writes the user store.
- **Message ids sort as text.** Message files are named `<id>.json` and listed
  in byte order, so "10.json" comes before "9.json". A feed therefore shows
  message 9 as newer than message 10 (`Stores.TextualNameOrder`).
- **`ParseAllowedUsers` keeps leading digits.** It reads a part with
  `fmt.Sscanf("%d")`, which accepts a number followed by other text: "12abc"
  gives 12 (`Config.ScanStopsAtNonDigit`).

## Model

| member | source | states |
|---|---|---|
| Text.ToLower | internal/modules/channel/service/service.go:263-274 | the result has the input's length and each unit is the input unit with 'A'..'Z' moved to 'a'..'z' |
| Text.ToLowerSpec | channel_monitor.go:234-245 | no upper-case letter survives; non-letters are unchanged; a capital is shifted by exactly 32 |
| Text.ToLowerIdempotent | channel_monitor.go:234-245 | lowering twice is lowering once |
| Text.ToLowerSlice | channel_monitor.go:223-227 | a slice of the lowered text is the lowered slice, the step `containsSubstring` compares |
| Text.AbsentChar | channel_monitor.go:223-232 | a substring containing a character the text lacks occurs nowhere |
| Text.Split | internal/shared/config/config.go:143 | `strings.Split` yields one more piece than there are separators, and no piece holds the separator |
| Text.JoinSplit | internal/shared/config/config.go:143 | joining the pieces with the separator gives the input back |
| Text.SplitJoin | config.go:153 | splitting a join of separator-free pieces gives the pieces back |
| Text.SplitPiece | config.go:153 | a separator-free string splits into itself alone |
| Text.SplitPrefix | config.go:153 | splitting `p + sep + t` yields `p` and then the pieces of `t` |
| Text.SkipSpace | config.go:155 | the index of the first non-space unit at or after `i`, with only space before it |
| Text.BackSpace | config.go:155 | the index after the last non-space unit before `j`, with only space after it |
| Text.TrimSpace | internal/shared/config/config.go:145 | the result is a slice of the input with only white space cut on either side, begins and ends with non-space, and is empty exactly when the input is all space |
| Text.NatToString | internal/transport/telegram/handler.go:70 | `%d` of a natural is a non-empty digit string with no leading zero |
| Text.IntToString | internal/transport/telegram/handler.go:70 | `%d` is non-empty, starts with '-' exactly for negatives, and holds no comma |
| Text.IntToStringInjective | bot_handler.go:62 | distinct chat ids render to distinct channel ids |
| Text.ParseInt64 | bot_handler.go:483-484 | `strconv.Atoi` succeeds exactly on an optionally signed digit string whose value is in the 64-bit range, and then gives that value |
| Text.DigitsOfNat | bot_handler.go:483 | reading the digits of a rendered natural gives it back |
| Text.ParseRender | internal/transport/telegram/handler.go:412 | `Atoi` of `%d` of any 64-bit integer gives that integer |
| Text.LessIrreflexive | internal/modules/message/repository/file_storage.go:55 | no name sorts before itself in directory order |
| Text.LessTransitive | internal/modules/message/repository/file_storage.go:55 | directory order is transitive |
| Text.LessTotal | internal/modules/message/repository/file_storage.go:55 | any two distinct names are ordered one way or the other |
| Text.LessAsymmetric | internal/modules/message/repository/file_storage.go:55 | two names are never ordered both ways |
| Text.TrimPrefix | bot_handler.go:292 | with the prefix present the input is prefix plus result; otherwise the input comes back unchanged |
| Filters.ScanFrom | internal/modules/channel/service/service.go:252-261 | the offset loop finds the substring iff it occurs at some offset at or after the start |
| Filters.ContainsSubstring | internal/modules/channel/service/service.go:252-261 | true iff the lowered substring occurs in the lowered text |
| Filters.Contains | internal/modules/channel/service/service.go:247-250 | true iff the keyword is non-empty and its lowered form occurs in the lowered text; a keyword longer than the text never matches |
| Filters.MatchersAgree | bot_handler.go:150-157 | the flat bot's `containsKeyword` and the services' `contains` give the same answer on every input, with the flat lowering taken as ASCII (exact on ASCII text) |
| Filters.ContainsKeyword | bot_handler.go:150-157 | an empty keyword never matches, and a matching keyword is no longer than the text |
| Filters.ContainsVerbatim | channel_monitor.go:218-221 | a non-empty keyword occurring verbatim, equality included, is matched |
| Filters.ContainsCaseInsensitive | channel_monitor.go:218-245 | lowering text and keyword first never changes the answer |
| Filters.AnyMatch | internal/modules/channel/service/service.go:156-162 | true iff some keyword of the list is contained in the text |
| Filters.PassesIff | internal/modules/channel/service/service.go:143-179 | a text passes iff every filter admits it: disabled and author filters always, include filters on a match, exclude filters on no match |
| Filters.Passes | internal/modules/channel/service/service.go:143-179 | the filter walk: an empty list passes; otherwise the text passes iff the first filter admits it and the rest of the list passes |
| Filters.InertFilterIgnored | internal/modules/channel/service/service.go:148-175 | inserting an author or disabled filter anywhere changes no verdict |
| Filters.AllDisabledPasses | internal/modules/channel/service/service.go:144-151 | a list of only disabled filters, the empty list included, passes every text |
| Filters.RejectingFilterDecides | channel_monitor.go:185-215 | one rejecting enabled filter anywhere in the list rejects the text |
| Filters.PassesAppend | internal/modules/channel/service/service.go:148-178 | appending a filter passes a text iff the old list passes it and the new filter admits it |
| Filters.PassesRemove | bot_handler.go:509 | removing a filter never turns an accepted text into a rejected one |
| Filters.EffectiveText | channel_monitor.go:180-183 | the text when non-empty, otherwise the caption |
| Filters.MonitorPasses | channel_monitor.go:175-216 | the flat monitor filters the text-or-caption with the same verdict as the service |
| Filters.BotAgrees | bot_handler.go:121-147 | the bot's `lo.ContainsBy` loop agrees with the service's filter loop on every list and text |
| Filters.BotPassesList | bot_handler.go:121-147 | a list of only disabled or author filters passes every text |
| Filters.BotPasses | bot_handler.go:111-148 | the bot handler's filter check equals the monitor's, caption fallback included |
| Filters.IncludeAdmits | internal/modules/channel/service/service.go:154-165 | an include filter "tech" admits "new tech release" |
| Filters.IncludeRejects | internal/modules/channel/service/service.go:154-165 | an include filter "tech" rejects "cooking tips" |
| Filters.ExcludeRejects | internal/modules/channel/service/service.go:166-172 | an exclude filter "spam" rejects "this is spam content" |
| Filters.ExcludeAdmits | internal/modules/channel/service/service.go:166-172 | an exclude filter "spam" admits "clean content" |
| Filters.CleanHasNoSpam | internal/modules/channel/service/service.go:168-171 | "spam" matches nowhere in "clean content" |
| Filters.NoMatch | internal/modules/channel/service/service.go:247-261 | a lower-case keyword with a character absent from lower-case text is not contained |
| Filters.LowerIsIdentity | internal/modules/channel/service/service.go:263-274 | lowering text without capitals changes nothing |
| Folders.Find | internal/modules/channel/repository/file_storage.go:48-53 | a name is absent iff no entry carries it; otherwise the found entry is in the directory |
| Folders.FindEntry | internal/modules/channel/repository/file_storage.go:44-63 | in a sorted directory, looking up an entry's name finds that entry |
| Folders.Put | internal/modules/message/repository/file_storage.go:41-47 | writing a file keeps the directory sorted, makes the name hold the new record, adds nothing else and leaves every other name as it was |
| Folders.PutOverwrite | internal/modules/message/repository/file_storage.go:41-47 | writing the same name twice equals writing the second value once |
| Folders.Drop | internal/modules/channel/repository/file_storage.go:96-102 | removing a name keeps the order, makes the name absent, and leaves every other name as it was |
| Folders.Records | internal/modules/channel/repository/file_storage.go:74-91 | the decodable `.json` records, never more than there are entries |
| Folders.RecordsMembers | internal/modules/channel/repository/file_storage.go:74-91 | a value is listed iff some `.json` entry holds it as a decodable record; directories, other names and garbled files are skipped |
| Folders.RecordsAppend | internal/modules/channel/repository/file_storage.go:74-91 | listing two runs of entries lists each run in turn |
| Folders.Reverse | internal/modules/message/repository/file_storage.go:65 | the walk from the last entry sees position i at |s|-1-i |
| Folders.ReverseAppend | internal/modules/message/repository/file_storage.go:65 | reversing a concatenation reverses and swaps the parts |
| Folders.Take | internal/modules/message/repository/file_storage.go:65 | the first min(n, |s|) items (none when n <= 0), a prefix of the input |
| Folders.Newest | internal/modules/message/repository/file_storage.go:63-84 | the backward walk that skips bad entries and stops at the limit yields the first `limit` records of the reversed listing |
| Folders.NewestUnfold | internal/modules/message/repository/file_storage.go:65-83 | one step of the walk: the last entry contributes its record, if it has one, ahead of the walk over the rest, and only a record uses up the limit |
| Folders.TakeCons | internal/modules/message/repository/file_storage.go:82-83 | taking n from v followed by s keeps v and takes n-1 from s |
| Folders.NewestStep | internal/modules/message/repository/file_storage.go:65-66 | the reversed listing begins with the last entry's record, if any |
| Folders.Load | internal/modules/channel/repository/file_storage.go:44-63 | reading an absent name is not-found, a record reads as its value, and a directory or garbled file is a read or decode error |
| Folders.Save | internal/modules/channel/repository/file_storage.go:31-42 | the write fails only on a fault or when the name is a directory; after it the name reads back as the value and every other name is untouched |
| Folders.List | internal/modules/channel/repository/file_storage.go:65-94 | listing fails only when the directory cannot be read; otherwise it holds exactly the decodable `.json` records |
| Folders.Delete | internal/modules/channel/repository/file_storage.go:96-102 | `os.Remove` fails with not-found on an absent name; otherwise the name is gone and nothing else changes |
| Stores.ChannelFile | internal/modules/channel/repository/file_storage.go:35 | a channel's file is its id plus ".json" |
| Stores.NumberFile | internal/modules/message/repository/file_storage.go:41 | a message or user file name is `%d.json` |
| Stores.ChannelFileInjective | internal/modules/channel/repository/file_storage.go:35 | distinct channel ids use distinct files |
| Stores.NumberFileInjective | internal/modules/message/repository/file_storage.go:41 | distinct numeric ids use distinct files |
| Stores.GetChannel | storage.go:62-81 | an error is not-found, read or decode; not-found exactly when no file carries the id |
| Stores.SaveChannel | storage.go:49-60 | an upsert: fails only on a fault or a directory in the way; afterwards the id reads back as the channel, other ids and the other stores are unchanged |
| Stores.GetAllChannels | storage.go:83-114 | fails only when the directory cannot be read; every listed channel is the record of a `.json` entry, and every channel that reads back by id is listed |
| Stores.DeleteChannel | storage.go:116-122 | fails when the id is absent; otherwise the id reads as not-found and every other id is unchanged |
| Stores.ListedWhenLoaded | storage.go:94-111 | whatever a lookup reads is also in the listing |
| Stores.MessageFolder | storage.go:129-132 | an unknown channel has the empty readable directory `os.MkdirAll` creates |
| Stores.SaveMessage | storage.go:124-141 | messages are keyed by (channel id, id): the saved one reads back, every other key is unchanged, channels and users are untouched |
| Stores.SaveMessageOverwrite | internal/modules/message/repository/file_storage.go:36-47 | saving the same key twice leaves the second message only |
| Stores.GetMessages | storage.go:143-180 | unknown channel gives an empty list; unreadable directory gives an error; otherwise the newest `limit` decodable records by name, never more than `limit` |
| Stores.NewerThan | internal/modules/message/repository/file_storage.go:119-121 | the messages dated strictly after `since`, in order |
| Stores.NewerThanAppend | internal/modules/message/repository/file_storage.go:103-122 | the date filter distributes over concatenation |
| Stores.NewerThanMembers | internal/modules/message/repository/file_storage.go:119-121 | a message is kept iff it is present and dated strictly after `since` |
| Stores.GetRecentMessages | storage.go:182-218 | unknown channel gives an empty list; otherwise exactly the decodable records dated after `since`, in directory order; the loop invariant carries the prefix filtered so far |
| Stores.LastNameComesFirst | storage.go:143-180 | a message saved under a name sorting after every existing name is the first one listed |
| Stores.TextualNameOrder | internal/modules/message/repository/file_storage.go:41-66 | after saving messages 10 and 9 the single newest message listed is 9 |
| Stores.TenBeforeNine | internal/modules/message/repository/file_storage.go:41 | "10.json" sorts before "9.json" |
| Stores.GetUser | internal/modules/user/repository/file_storage.go:43-62 | an error is not-found, read or decode; not-found exactly when no file carries the id |
| Stores.SaveUser | internal/modules/user/repository/file_storage.go:30-41 | an upsert: the user reads back by id, other users and the other stores are unchanged |
| Stores.GetAllUsers | internal/modules/user/repository/file_storage.go:64-94 | fails only when the directory cannot be read; every listed user is the record of a `.json` entry, and every user that reads back is listed |
| Feeds.Truncate | internal/modules/feed/service/service.go:107-112 | a text within the limit is returned as is; a longer one becomes its first `maxLen` units and "...", `maxLen`+3 long |
| Feeds.TruncateLongText | internal/modules/feed/service/service.go:95 | a 150-unit text becomes a 103-unit title ending in "..." |
| Feeds.EscapeChar | internal/modules/feed/service/service.go:117-129 | an ordinary character is copied; a special one becomes an entity starting with '&' |
| Feeds.EscapeHTML | feed_service.go:105-124 | the output is never shorter than the input |
| Feeds.EscapeSafe | feed_service.go:105-124 | the output has no raw `<`, `>`, `"` or `'` |
| Feeds.EscapePlain | internal/modules/feed/service/service.go:114-133 | text without the five characters is returned unchanged |
| Feeds.UnescapeEscape | internal/modules/feed/service/service.go:114-133 | decoding the five entities inverts the escaping |
| Feeds.UnescapeChar | internal/modules/feed/service/service.go:117-129 | decoding inverts the replacement of one character |
| Feeds.EscapeAppend | internal/modules/feed/service/service.go:116-131 | escaping works character by character: a concatenation escapes part by part |
| Feeds.EscapeWords | internal/modules/feed/service/service.go:118-121 | plain words around `<` and `>` keep the words and escape the brackets |
| Feeds.EscapeExample | internal/modules/feed/service/service.go:114-133 | "Hello <world>" becomes "Hello &lt;world&gt;" |
| Feeds.MediaLinesAppend | internal/modules/feed/service/service.go:76-81 | attachment lines follow attachment order |
| Feeds.MediaLine | internal/modules/feed/service/service.go:77-80 | an attachment's description line starts with "- " and ends with a newline |
| Feeds.MediaLines | internal/modules/feed/service/service.go:76-81 | the attachment lines are empty exactly when there are no attachments |
| Feeds.Attachment | internal/modules/feed/service/service.go:89 | an attachment's list entry is wrapped in `<li>` and `</li>` |
| Feeds.Attachments | internal/modules/feed/service/service.go:88-90 | the list entries are empty exactly when there are no attachments |
| Feeds.MediaList | internal/modules/feed/service/service.go:86-92 | the attachment block of the content is empty exactly when there are no attachments |
| Feeds.Content | internal/modules/feed/service/service.go:85-92 | the content is the escaped description plus the seven characters of its paragraph tags, and longer exactly when there are attachments |
| Feeds.MediaLineParts | internal/modules/feed/service/service.go:77-80 | an attachment line is "- kind: fileId" and a newline, followed by a "  Caption: " line exactly when the caption is non-empty |
| Feeds.AttachmentsAppend | internal/modules/feed/service/service.go:88-90 | the list entries of two attachment runs are the entries of the first followed by those of the second |
| Feeds.AttachmentsSingle | internal/modules/feed/service/service.go:89 | one attachment's entry is `<li>kind: fileId</li>` |
| Feeds.MediaListParts | internal/modules/feed/service/service.go:86-92 | a non-empty attachment block is the "Media attachments" heading and `<ul>`, the list entries, then `</ul>` |
| Feeds.ContentParts | internal/modules/feed/service/service.go:85-92 | the content is `<p>`, the escaped description, `</p>`, then exactly the attachment block |
| Feeds.Body | internal/modules/feed/service/service.go:68-71 | the text, or "No text content" when the text is empty, so never empty |
| Feeds.Description | internal/modules/feed/service/service.go:68-82 | the body alone without attachments, otherwise the body, "\n\nMedia:\n" and the attachment lines |
| Feeds.ContentCarriesDescription | internal/modules/feed/service/service.go:85 | the content opens with a paragraph from which decoding the entities up to the first `<` gives the description back |
| Feeds.ItemId | internal/modules/feed/service/service.go:101 | "{channel}-{id}" is longer than the channel id plus the dash |
| Feeds.ItemIdUnique | internal/modules/feed/service/service.go:101 | for non-negative ids, equal item ids mean equal channel and message ids |
| Feeds.SuffixDigitClash | feed_service.go:84 | two ids whose digit tails differ in length never render the same |
| Feeds.ToItem | feed_service.go:50-88 | the title is the text truncated to 100 units (empty for empty text); the description and content are those of the message; the id is "{channel}-{id}"; link, author and date are the message's |
| Feeds.ToItems | internal/modules/feed/service/service.go:49-55 | one item per message, in message order |
| Feeds.ItemIdsDistinct | internal/modules/feed/service/service.go:49-55 | two messages of one channel with different ids give items with different ids |
| Feeds.GenerateFeed | internal/modules/feed/service/service.go:29-57 | succeeds iff the channel reads and its messages list; a channel error is returned; the metadata comes from the channel record; the items are the newest 50 messages in listing order |
| Feeds.FeedOfQuietChannel | feed_service.go:20-48 | a registered channel without messages yields a feed with no items |
| Feeds.FeedShowsLastSaved | feed_service.go:20-48 | a message saved under the greatest name is the feed's first item |
| Feeds.UpdateFeed | feed_service.go:90-96 | always succeeds and changes nothing |
| Ingest.AuthorName | bot_handler.go:159-169 | "@"+username when there is one, else the first name, else "Unknown"; never empty |
| Ingest.Slot | internal/transport/telegram/handler.go:233-260 | at most one attachment, present exactly when the post has that kind, and recording that kind's file id |
| Ingest.ExtractMedia | internal/transport/telegram/handler.go:230-263 | at most four attachments, each of a kind the post carries, with the file id `extractMedia` picks (the last photo size) |
| Ingest.FileOf | internal/transport/telegram/handler.go:233-260 | a photo records its last (largest) size; a video, document or audio records its own file id |
| Ingest.MediaOrdered | bot_handler.go:171-205 | attachment kinds appear in strictly increasing order photo, video, document, audio |
| Ingest.MediaComplete | bot_handler.go:171-205 | a kind is listed iff the post carries it |
| Ingest.Link | internal/transport/telegram/handler.go:91 | the link is "https://t.me/", the username, "/" and the `%d` of the id |
| Ingest.PostMessage | bot_handler.go:79-88 | the stored message carries the post's id and date, the given key and text, the channel's title, the author name, the extracted attachments and the t.me link |
| Ingest.ChannelOf | internal/transport/telegram/handler.go:70-81 | some channel exactly when the chat id's record reads and is active |
| Ingest.ProcessMessage | internal/modules/channel/service/service.go:110-140 | a rejected text changes nothing; a passing one errs only on a failed message write; otherwise the message is stored, only its key changes, and the channel's last update becomes `now` unless that second write fails |
| Ingest.ProcessChannelPost | internal/transport/telegram/handler.go:65-100 | unknown, inactive or rejected posts and failed message saves leave the store unchanged; other channels' records never change; a saved post is stored with the text-or-caption and its channel's last update becomes `now` unless that second write fails |
| Ingest.PostIsStored | internal/transport/telegram/handler.go:84-94 | a passing post is stored with the effective text and the channel's last update becomes `now` |
| Ingest.BotProcessChannelPost | bot_handler.go:57-109 | without a channel, an active record or a monitor nothing changes; channel and user records are never written; only the post's key can change, and it stores the post's own text |
| Ingest.BotProcessIdempotent | bot_handler.go:96-99 | handling a post twice stores what handling it once does |
| Ingest.MonitorProcessMessage | channel_monitor.go:144-173 | filters on text-or-caption, stores the post's own text keyed by the channel id, errs only on a failed write, never writes channels or users |
| Ingest.CaptionOnlyLayered | internal/transport/telegram/handler.go:84-87 | a caption-only post is stored with the caption as its text |
| Ingest.CaptionOnlyFlat | bot_handler.go:83-91 | the same post is stored by the flat bot with an empty text |
| Monitor.AddChannel | channel_monitor.go:62-66 | the id becomes watched and nothing else changes |
| Monitor.RemoveChannel | channel_monitor.go:68-72 | the id becomes unwatched and nothing else changes |
| Monitor.WatchIdempotent | internal/modules/channel/service/service.go:75-86 | adding or removing twice equals doing it once; removing just after adding leaves the id unwatched |
| Monitor.AddActive | channel_monitor.go:45-49 | exactly the active channels of the list are added to the set |
| Monitor.Start | internal/modules/channel/service/service.go:50-61 | an unreadable directory adds nothing; otherwise the ids added are exactly the active listed channels |
| Monitor.StartWatchesActive | channel_monitor.go:41-50 | every readable active channel is watched after `Start` |
| Monitor.DeleteChannel | internal/modules/channel/service/service.go:104-107 | the id is unwatched whatever the repository delete does; the delete itself behaves as the store's, leaving the other channels, the messages and the users as they were |
| Monitor.FetchChannel | channel_monitor.go:116-142 | no bot is an error; a lookup error is returned; an inactive channel is left alone; an active one gets `now` as its last update, and a failed write is swallowed |
| Monitor.FetchStamps | internal/modules/channel/service/service.go:219-244 | one fetch keeps records keyed by their ids and changes a channel only by stamping its last update |
| Monitor.FetchSettles | internal/modules/channel/service/service.go:219-244 | one successful fetch leaves the fetched channel stamped with that fetch's clock reading when it is active and its save succeeds, otherwise as it was, and no other channel changes |
| Monitor.CheckChannels | channel_monitor.go:97-137 | the sweep over the watched ids, each fetch with its own clock reading: every fetched channel ends stamped with its own reading when a bot is present, it is active and its save succeeds, otherwise as it was; channels outside the ids and inactive channels are untouched; messages and users are untouched; without a bot nothing changes |
| Commands.InAllowList | bot_handler.go:209-216 | true iff the user is in the allow-list |
| Commands.IsAuthorized | internal/modules/user/service/service.go:36-48 | true iff the allow-list is empty or holds the user; the user store is never consulted |
| Commands.CheckAuthorization | bot_handler.go:207-221 | with a non-empty allow-list, membership; with an empty one, whether the user record reads |
| Commands.AuthorizationAgrees | internal/transport/telegram/handler.go:102-104 | the two checks agree on a non-empty allow-list; on an empty one the layered check admits everyone while the flat one refuses unknown users |
| Commands.AllowListGrows | internal/modules/user/service/service.go:41-47 | adding ids to a non-empty allow-list never revokes an authorized user |
| Commands.FlatStart | bot_handler.go:223-245 | refused iff the allow-list is non-empty and lacks the user; with an empty list an unknown user is saved as an admin; channels, messages and the watched set are untouched; the other users are untouched, and a known user changes nothing |
| Commands.FirstStartAuthorizes | bot_handler.go:226-237 | after the first `/start` with an empty allow-list, the user is authorized |
| Commands.LayeredStart | internal/transport/telegram/handler.go:106-128 | refused iff the allow-list is non-empty and lacks the user; no user is ever written and the watched set is untouched |
| Commands.AddChannelCommand | bot_handler.go:274-332 | succeeds iff authorized, given a name, the chat resolves and the write succeeds; then the channel is stored active with no filters, with its two clock readings, under the chat id and watched, with "@" stripped from the username; the other channels, the messages and the users are untouched |
| Commands.NewChannel | bot_handler.go:306-315 | the new record is keyed by the `%d` of the chat id, carries the chat title, the username and the adding user, is active, has no filters, and carries the two separate clock readings as its added and last-update times |
| Commands.AddedChannelPassesAll | internal/transport/telegram/handler.go:189-198 | a freshly added channel is active, watched and passes every text |
| Commands.FlatRemoveChannel | bot_handler.go:334-367 | succeeds iff authorized, given a name, and the delete succeeds; only then is the channel deleted and unwatched; the other channels, the messages and the users are untouched |
| Commands.LayeredRemoveChannel | internal/transport/telegram/handler.go:265-296 | the id is unwatched whenever the command reaches the delete, even when the delete fails; succeeds iff the delete does, and then only that channel is gone; the messages and the users are untouched |
| Commands.RemoveUnknownChannel | bot_handler.go:352-361 | on an unregistered id, the flat bot refuses and keeps watching while the layered one stops watching |
| Commands.KeywordFilter | internal/transport/telegram/handler.go:360-375 | an enabled include filter whose keywords are the comma-split of the argument |
| Commands.AddFilterCommand | internal/transport/telegram/handler.go:341-391 | an unknown channel is refused; on success exactly one keyword filter is appended and the earlier filters are kept; a known channel with a successful write always succeeds; the other channels, the messages, the users and the watched set are untouched |
| Commands.AddFilterNarrows | bot_handler.go:442-448 | after adding, a text passes iff it passed before and contains one of the new keywords |
| Commands.Cut | bot_handler.go:509 | the list without element k, the others in order |
| Commands.FilterIndex | bot_handler.go:483-484 | an index is accepted only when `Atoi` reads it and it is at least 1 |
| Commands.RemoveFilterCommand | bot_handler.go:464-523 | a bad index is refused before the lookup, an unknown channel next, an index past the end after that; on success exactly element index-1 is removed; an in-range index on a known channel with a successful write always succeeds; the other channels, the messages, the users and the watched set are untouched |
| Commands.RemoveFilterWidens | internal/transport/telegram/handler.go:438 | removing a filter never rejects a text the channel accepted before |
| Commands.AddThenRemoveFilter | internal/transport/telegram/handler.go:341-452 | adding a filter and then removing it by its 1-based position restores the channel |
| Commands.BadIndexRefused | internal/transport/telegram/handler.go:412-419 | "0", "-1" and "x" are refused as invalid indexes |
| Config.ScanInt64 | config.go:159-161 | `Sscanf("%d")` reads only a string starting with a digit or sign, and only values in the 64-bit range |
| Config.DigitRun | config.go:160 | the length of the longest leading run of decimal digits, the token `%d` reads |
| Config.ScanAgreesWithAtoi | config.go:160 | on a string that is exactly a number, the scanner reads what `Atoi` reads |
| Config.ScanStopsAtNonDigit | config.go:160 | "12abc" is read as 12 |
| Config.Keep | config.go:154-164 | at most one id per piece, each in the 64-bit range |
| Config.KeepMembers | internal/shared/config/config.go:144-154 | an id is kept iff some piece, trimmed, reads as it |
| Config.ParseAllowedUsers | config.go:149-165 | the empty setting gives no ids; never more ids than comma-separated pieces; every id is 64-bit |
| Config.RenderParse | internal/shared/config/config.go:139-155 | writing 64-bit ids joined by commas and parsing the result gives the same ids in the same order |

## Left out

- JSON encoding, file I/O and `os` errors are abstracted. A record is a value, and
  an undecodable or unreadable file is an entry of kind `Garbled`. The particular
  error values and their wrapping are reduced to the `Error` datatype.
- Directory paths are left out. A channel id containing a path separator or "..",
  which would let files land elsewhere, is not modelled: ids are file names.
- Concurrency is left out:
  - goroutines, `sync.RWMutex`, `WaitGroup` and contexts;
  - the ticker of `monitorLoop`.
- `Monitor.CheckChannels` runs the fetches one after another in the order given.
  The real sweep runs them concurrently over a Go map, whose iteration order is
  unspecified.
- Clock readings (`time.Now`, `time.Unix`) are integer parameters, one per call
  in the source; the model says nothing about how they relate in time.
- Telegram API calls are left out. `GetChat` is the `chat` parameter of
  `Commands.AddChannelCommand`.
- Reply texts, `SendMessage`, command registration and `strings.Fields`
  tokenizing are left out. The commands take the already split words.
- `/help` is not a separate command: both handlers call the `/start` handler
  (bot_handler.go:270-272, internal/transport/telegram/handler.go:153-155), so it
  is modelled by `Commands.FlatStart` and `Commands.LayeredStart`.
- `/listchannels`, `/rsslink` and `/status` are left out: they only read the
  stores and format replies.
- Logging is left out. A logged and swallowed error appears in the model as
  "state unchanged".
- `LoadConfig`/`Load` are left out. The koanf file and environment loading is
  I/O.
- Dependency-injection wiring, `main` and the HTTP RSS server are left out. The
  XML serialisation of the feed is left out too.
- Feeds.UpdateFeed: its body is a log call, so it is modelled as an identity
  that always succeeds.
- Strings are sequences of Unicode code points, as Go's `rune`s are.
  `unicode.IsSpace`, the rune-wise `escapeHTML` and the name order are exact:
  comparing code points orders names as comparing their UTF-8 bytes does. Two
  byte-level details are not modelled, and both coincide with the model on
  ASCII text:
  - `truncate`'s cut after 100 bytes is a cut after 100 code points;
  - `strings.ToLower` in the flat bot handler, which is Unicode-aware, is modelled
    by the ASCII lowering the other matchers use.
- `strings.TrimSpace` is modelled with the Unicode white-space set of Go's
  `unicode.IsSpace` on characters.
- The record datatypes keep only the fields the core reads or writes. Go's
  `time.Time` fields are integers.
- The author filter type is a no-op in every copy of the source, and the model
  says exactly that. An unknown filter type in a stored record is the
  `Unrecognized` kind, and it is a no-op too. An attachment `type` other than
  the four the enum declares is kept verbatim as `OtherMedia` and rendered as
  stored, since decoding does not check it.
