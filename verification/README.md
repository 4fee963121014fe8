# lala-bar: the notification stack and its neighbours, in Dafny

lala-bar is a Wayland status bar built on layer-shell windows. It has its
own notification daemon, which implements the `org.freedesktop.Notifications`
D-Bus interface of the freedesktop Desktop Notifications Specification. This
project models the parts of the bar that decide state and proves properties
about them:

- **The notification server** (`notify_server.dfy`, `channel.dfy`). Each D-Bus
  call becomes a message for the bar. The message goes into a bounded channel
  with `try_send`, so a message that does not fit is lost and the call still
  succeeds. `CloseNotification` also emits the `NotificationClosed` signal
  with reason 2.
- **The notification stack** (`stack_spec.dfy`, `music_bar.dfy`,
  `ordering.dfy`, `notify.dfy`, `config.dfy`). The bar keeps one record per
  notification: its stack position (`counter`, 0 is the newest), its top
  margin (`upper`), a deletion mark (`to_delete`) and the reply text. At
  most four notification windows are shown. The other live notifications
  sit in a hidden queue, which an indicator window announces. The model
  covers every update arm that touches this state: `UnitAdd`, `UnitRemove`
  / `remove_notify`, `QuiteMode`, `ClearAllNotifications`, `InlineReply`,
  `RemoveNotify`, `InlineReplyMsgUpdate`, `CheckId`, `Ready`, `ReadyCheck`
  and `WindowClosed` / `remove_id`. It also covers the window registry
  (`id_info`, `set_id_info`). Each arm returns the window requests it makes
  (open, move, close, start a timer, check the output) as a list of effects.
  The order of a Rust `HashMap` is unspecified, so every loop over a map
  picks its keys freely. The order it used is returned as a ghost witness.
- **The record-store specification** (`stack_spec.dfy`). Adding and
  removing notifications are written as functions on the map from id to
  record. The invariants these steps keep are proved there:
  - every record sits at the margin its position dictates;
  - every record is filed under its own id;
  - the live records hold positions 0..k-1 without gaps or clashes.
- **The bar's glue** (`bar.dfy`). This covers the window-role tag, the
  conversion of server messages into bar messages, and the choice of the
  media player whose metadata is shown.
- **The launcher** (`launcher.dfy`). A regex search box over the installed
  applications, a highlighted position moved by the arrow keys, and launching.
- **The balance slider** (`slider.dfy`, `balance.dfy`). The three-way
  slider selector, and the integer split of the total volume between the
  two channels.
- **The audio-capture buffers** (`pipewire.dfy`). The waveform's sliding
  window per channel, the lock-step chunk iterator over a matrix of samples,
  and the split of one interleaved capture buffer into per-channel
  80-sample chunks.

Rust panics (`unwrap` on `None`, an index out of range, `usize`
underflow, `unreachable!()`) are modelled as an explicit `Panicked`
outcome or a `None` result.

## Model

| member | source | states |
|---|---|---|
| Config.UpperFor | lala_bar/src/config.rs:4-8 | a record at one of the four shown positions lies above the indicator's margin; a record at a hidden position lies at or below it |
| Channel.Queue.TrySend | notification_iced/src/lib.rs:81-83 | the message is appended exactly when the channel is not full; a full channel is left exactly as it was; the capacity bound is kept |
| NotifyServer.UnitOfCall | notification_iced/src/lib.rs:121-134 | the forwarded unit carries every call argument unchanged, with the caller's id as the unit id and the hints dropped |
| NotifyServer.Server.constructor | notification_iced/src/lib.rs:156-171 | the server holds the given sender, capabilities and version, and has emitted nothing |
| NotifyServer.Server.Notify | notification_iced/src/lib.rs:110-136 | the answer is always 0, no signal is emitted, and the channel is what one `try_send` of `UnitAdd` leaves |
| NotifyServer.Server.CloseNotification | notification_iced/src/lib.rs:73-85 | `NotificationClosed(id, 2)` is emitted, then one `try_send` of `UnitRemove(id)` is attempted; the call never fails |
| NotifyServer.Server.GetCapabilities | notification_iced/src/lib.rs:88-90 | the capability list the server was started with |
| NotifyServer.Server.GetServerInformation | notification_iced/src/lib.rs:93-106 | name, vendor, version and spec version, in that order |
| NotifyServer.NotifyBurstStaysBounded | notification_iced/src/lib.rs:121-134 | after any burst of `Notify` calls the channel stays within capacity; it holds min(capacity, old length + burst) messages and keeps the old ones as a prefix |
| Notify.Fresh | lala_bar/src/music_bar.rs:988-997 | a new record is live, on top (position 0), at the top margin, with no reply text |
| Bar.FromNotifyMessage | lala_bar/src/main.rs:93-97 | the server message is wrapped unchanged |
| Bar.AliveInfos | lala_bar/src/main.rs:107-110 | exactly the players with a non-empty title are kept |
| Bar.FindPlaying | lala_bar/src/main.rs:112-117 | a result is a listed player that is playing; there is no result exactly when none is playing |
| Bar.GetMetadata | lala_bar/src/main.rs:104-119 | there is no result exactly when no player has a title; a result is a listed player with a title |
| Bar.GetMetadataPrefersFirstPlaying | lala_bar/src/main.rs:112-117 | when some player with a title is playing, the first such player in list order is chosen |
| Bar.GetMetadataFallsBackToFirstAlive | lala_bar/src/main.rs:118 | when no player with a title is playing, the first player with a title is chosen |
| Slider.Default | lala_bar/src/slider.rs:1-7 | the selector starts on the balance slider |
| Slider.Next | lala_bar/src/slider.rs:10-16 | the `>` button goes Balance, then Left, then Right, then Balance again, and always changes the selection |
| Slider.Pre | lala_bar/src/slider.rs:17-23 | the `<` button walks the same cycle backwards and always changes the selection |
| Slider.PreNextInverse | lala_bar/src/slider.rs:10-23 | `<` undoes `>` and `>` undoes `<` |
| Slider.CycleOfThree | lala_bar/src/slider.rs:10-23 | three presses of either button return to the start, and two presses of `>` do not |
| Balance.BalancePercent | lala_bar/src/music_bar.rs:151-158 | the right channel's share of the total in whole percent, rounded down, is at most 100 (so the `u8` conversion cannot panic), and is 0 when both channels are silent |
| Balance.SetBalance | lala_bar/src/music_bar.rs:160-175 | the total of the volumes just re-read is kept; the right channel gets `balance` percent of it, rounded down; the left channel is non-negative whenever `balance` is at most 100 |
| Balance.BalanceChanged | lala_bar/src/music_bar.rs:867-873 | the guard reads the cached volumes: a balance of 0 there leaves them alone; otherwise the volumes just re-read from the mixer keep their total, which is re-split so that the right channel gets `balance` percent of it, rounded down, and the left channel is non-negative when `balance` is at most 100 |
| Launcher.Matching | lala_bar/src/launcher.rs:51-63 | exactly the applications whose title or description, lowercased by the given `to_lowercase`, matches (all of them when the text is not a valid regex), in list order, each once |
| Launcher.MatchCount | lala_bar/src/launcher.rs:85-97 | the count used by the key handler is the number of entries `Matching` lists |
| Launcher.AllMatch | lala_bar/src/launcher.rs:85-86 | with no valid regex every application is listed, in order |
| Launcher.Launcher.constructor | lala_bar/src/launcher.rs:32-39 | the given applications and lowercasing, empty search text, highlight on the first entry, not marked for closing |
| Launcher.Launcher.SearchSubmit | lala_bar/src/launcher.rs:49-73 | with a `scrollpos`-th match, that application is launched, the window is closed and the launcher is marked for closing; otherwise nothing happens |
| Launcher.Launcher.SearchEditChanged | lala_bar/src/launcher.rs:74-78 | the text is replaced and the highlight returns to the first match |
| Launcher.Launcher.Launch | lala_bar/src/launcher.rs:79-83 | a listed application is launched and the window is closed; an index past the list panics |
| Launcher.Launcher.HandleEvent | lala_bar/src/launcher.rs:84-124 | up and down move the highlight within the matches and stop at either end; with no match, down computes `0 - 1` in `usize`, which panics in a build with overflow checks and otherwise wraps to `usize::MAX`, so the highlight moves down one; Escape closes the window; any other event refocuses the search box; a highlight inside the matches stays inside |
| Ordering.SortByRank | lala_bar/src/music_bar.rs:199-202 | collecting a map and sorting it by a rank lists every key once, in rank order |
| MusicBar.TimeoutSeconds | lala_bar/src/music_bar.rs:976 | `timeout as u64` keeps a non-negative timeout and sign-extends a negative one to 2^64 + timeout seconds |
| MusicBar.Schedule | lala_bar/src/music_bar.rs:974-984 | a removal timer for the notification starts exactly when its timeout is not -1 |
| MusicBar.CloseAll | lala_bar/src/music_bar.rs:1096-1100 | one close request per window, in the given order |
| MusicBar.CachedContents | lala_bar/src/music_bar.rs:1210-1214 | over distinct windows the iteration order does not matter: a window whose record exists is cached with that record, and every other cached window is kept |
| MusicBar.ShownSlots | lala_bar/src/music_bar.rs:1001-1005 | exactly the live records at one of the four shown positions |
| MusicBar.MarginEffects | lala_bar/src/music_bar.rs:1024-1032 | the records after the first shown one are paired with the windows as far as both last, and each window is moved to its record's margin |
| MusicBar.Bindings | lala_bar/src/music_bar.rs:1108-1113 | the i-th reopened record is bound to window `first + i`, and no other window is bound |
| MusicBar.Opens | lala_bar/src/music_bar.rs:1114-1126 | one open request per reopened record, at window `first + i` and at the record's own margin |
| MusicBar.PairWindows | lala_bar/src/music_bar.rs:213-230 | the windows, by bound id, take the live ids one each; the surplus windows have their record cached, are bound to the removed id and are closed, in order |
| MusicBar.PairOnce | lala_bar/src/music_bar.rs:217-229 | one turn of that loop: the `j`-th window takes the `j`-th live id if there is one; otherwise its record is cached, it is bound to the removed id and closed; the windows after it are untouched |
| MusicBar.RebindShown | lala_bar/src/music_bar.rs:1014-1021 | with all four windows in use, the windows, by bound id, take the shown ids pairwise; the remaining windows keep their binding |
| MusicBar.MarginChanges | lala_bar/src/music_bar.rs:1024-1032 | the zip loop sends exactly the margin moves `MarginEffects` lists |
| MusicBar.CloseEach | lala_bar/src/music_bar.rs:1096-1100 | every bound window is closed once, in some iteration order |
| MusicBar.CacheEach | lala_bar/src/music_bar.rs:1210-1214 | each bound window with an existing record gets that record cached |
| MusicBar.BumpAll | lala_bar/src/music_bar.rs:969-972 | every record moves one position down |
| MusicBar.ShiftAll | lala_bar/src/music_bar.rs:192-197 | exactly the records below the removed one move one position up |
| MusicBar.HiddenList | lala_bar/src/music_bar.rs:132-146 | the hidden queue lists every hidden live record once (in quiet mode, every live record), by ascending position |
| MusicBar.HiddenCount | lala_bar/src/music_bar.rs:132-146 | the hidden queue is exactly as long as the set of hidden records |
| MusicBar.SortWindows | lala_bar/src/music_bar.rs:199-202 | every bound window is listed once, by bound id, highest first |
| MusicBar.SortIds | lala_bar/src/music_bar.rs:204-211 | every live id is listed once, strictly descending |
| MusicBar.SlotIds | lala_bar/src/music_bar.rs:1108-1111 | exactly the records at one of the four shown positions, marked or not |
| MusicBar.CloseHidden | lala_bar/src/music_bar.rs:1101-1105 | the indicator window is closed exactly when there is one |
| MusicBar.Cleared | lala_bar/src/music_bar.rs:658-673 | after a window closes, a singleton slot no longer names that window, and any other slot is left as it was |
| MusicBar.RemoveStep | lala_bar/src/music_bar.rs:180-256 | removing a present id yields the records `AfterRemove` describes, the window pairing, the caching of surplus windows and the close requests |
| MusicBar.Settle | lala_bar/src/music_bar.rs:231-255 | marked records are purged unless a window was closed; the removed record is dropped when asked; the indicator closes once at most four live records remain; an output check follows once none remain |
| MusicBar.Removal | lala_bar/src/music_bar.rs:180-257 | with the corrected guard, an absent or already marked id changes nothing; a live one is removed as `RemoveStep` says. Either way the offsets, the filing by id and the gap-free live positions are kept, the bound windows stay bound, and exactly `id` leaves the live set |
| MusicBar.PlaceNew | lala_bar/src/music_bar.rs:999-1063 | with four windows in use, the windows are rebound to the shown ids and nothing opens; otherwise the shown windows move to their records' margins and a new window opens for the new id at the top margin |
| MusicBar.AddStep | lala_bar/src/music_bar.rs:963-1087 | a new id is added as `NewAddition` says: records bumped and the new one on top, windows placed, hidden queue recomputed, indicator opened when needed, timer started |
| MusicBar.AddKeepsAtMostFour | lala_bar/src/music_bar.rs:1000-1062 | adding a notification never binds a fifth notification window |
| MusicBar.AddKeepsWindowsBelow | lala_bar/src/music_bar.rs:1037-1087 | the windows opened lie at or above the next window number, and that number moves past them, so no window number is reused |
| MusicBar.Addition | lala_bar/src/music_bar.rs:963-1090 | a known id only has its unit replaced; a new one is added as `NewAddition` says; the offsets, the filing, the gap-free live positions, the four-window bound and fresh window numbers are all kept |
| MusicBar.OpenedBelow | lala_bar/src/music_bar.rs:1112-1147 | windows opened from the next window number on, with the indicator after them, leave every window in use below the new next number |
| MusicBar.Reopen | lala_bar/src/music_bar.rs:1106-1147 | leaving quiet mode opens one fresh window per record at a shown position, at its margin. The indicator opens when more than four records exist and none is open. Window numbers stay fresh |
| MusicBar.Quieting | lala_bar/src/music_bar.rs:1092-1152 | entering quiet mode closes every bound window and the indicator, and binds nothing; leaving it reopens as `Reopen` says; the hidden queue is recomputed either way |
| MusicBar.Clearing | lala_bar/src/music_bar.rs:1197-1221 | every bound window and the indicator are closed and an output check follows; every bound window with a record has it cached; the hidden queue ends empty |
| MusicBar.MusicBar.constructor | lala_bar/src/music_bar.rs:571-607 | nothing stored, no window bound, quiet mode off, no senders, and the stack invariant holds |
| MusicBar.MusicBar.UpdateHiddenNotification | lala_bar/src/music_bar.rs:132-146 | the hidden queue is recomputed from the records; nothing else changes |
| MusicBar.MusicBar.IdInfo | lala_bar/src/music_bar.rs:613-637 | the slots are checked in the order launcher, indicator, time picker, right panel, calendar, and the first one holding the window gives its role; then a cached record wins over the bound one, even when both exist, as for the surplus windows of `remove_notify`; then the bound record. There is no answer exactly when nothing claims the window. The answer is an error exactly when a bound window's record is gone |
| MusicBar.MusicBar.SetIdInfo | lala_bar/src/music_bar.rs:639-655 | exactly the slot for the role is set, and an error tag panics; on an unclaimed window `IdInfo` then reports what was set |
| MusicBar.MusicBar.ClearSlots | lala_bar/src/music_bar.rs:658-673 | every singleton slot holding the window is emptied, and the launcher closes with its window; nothing else changes |
| MusicBar.MusicBar.RemoveId | lala_bar/src/music_bar.rs:657-689 | the closed window is forgotten everywhere, so `IdInfo` no longer answers for it; its record is dropped unless still live; the live set and the stack invariant are kept |
| MusicBar.MusicBar.UnitAdd | lala_bar/src/music_bar.rs:963-1090 | the `UnitAdd` arm: a known id only has its unit replaced; a new one is added as `NewAddition` says; the stack invariant and the four-window bound are kept |
| MusicBar.MusicBar.RemoveNotify | lala_bar/src/music_bar.rs:1154-1156 | the `UnitRemove` arm, with the corrected guard: a non-live id changes nothing; a live one is removed as `LiveRemoval` says; exactly `id` leaves the live set and the stack invariant is kept |
| MusicBar.MusicBar.QuiteMode | lala_bar/src/music_bar.rs:1092-1152 | the records are untouched; entering quiet mode closes every bound window and the indicator; leaving it reopens the shown records in fresh windows, plus the indicator when more than four records exist |
| MusicBar.MusicBar.ClearAllNotifications | lala_bar/src/music_bar.rs:1197-1221 | every bound window and the indicator close, the bound records are cached, every record and the hidden queue are dropped, and an output check follows |
| MusicBar.MusicBar.InlineReplyMsgUpdate | lala_bar/src/music_bar.rs:1190-1196 | the typed text is stored on the bound record; an unbound window is ignored; a bound window whose record is gone panics; the live set is unchanged |
| MusicBar.MusicBar.Ready | lala_bar/src/music_bar.rs:1230 | the relay to the server is installed |
| MusicBar.MusicBar.ReadyCheck | lala_bar/src/music_bar.rs:1231 | the answer channel for `CheckId` is installed |
| MusicBar.MusicBar.CheckId | lala_bar/src/music_bar.rs:1232-1235 | whether a record for `id` exists is offered once to the answer channel; the arm panics before `ReadyCheck` |
| MusicBar.MusicBar.InlineReply | lala_bar/src/music_bar.rs:1168-1178 | the reply is offered once to the relay, then the notification is removed exactly as `RemoveNotify` does: the same effects, the same records, bindings, cache and hidden queue, quiet mode, indicator, window counter and window slots, and exactly `id` leaves the live set; the arm panics, changing nothing, before `Ready` |
| MusicBar.MusicBar.RemoveNotifyMsg | lala_bar/src/music_bar.rs:1179-1189 | the default action is offered once to the relay, then the notification is removed exactly as `RemoveNotify` does: the same effects, the same records, bindings, cache and hidden queue, quiet mode, indicator, window counter and window slots, and exactly `id` leaves the live set; the arm panics, changing nothing, before `Ready` |
| StackSpec.LiveIds | lala_bar/src/music_bar.rs:204-209 | exactly the stored ids not marked for deletion |
| StackSpec.Purged | lala_bar/src/music_bar.rs:231-233 | `retain` keeps exactly the live records |
| StackSpec.HiddenIds | lala_bar/src/music_bar.rs:136-139 | exactly the live records past the fourth position, or every live record in quiet mode |
| StackSpec.AddedKeepsInvariants | lala_bar/src/music_bar.rs:963-997 | adding keeps the offsets and the filing by id; a new id joins the live set and keeps the live positions gap-free; a known id leaves the live set alone |
| StackSpec.AddedPositions | lala_bar/src/music_bar.rs:964-997 | an unknown id goes on top and every other record moves one position (135 pixels) down, mark and unit kept; a known id only has its unit replaced |
| StackSpec.TombstonedKeepsInvariants | lala_bar/src/music_bar.rs:182-197 | marking keeps offsets and filing, takes exactly `id` out of the live set, and keeps the live positions gap-free when `id` was live |
| StackSpec.DroppedKeepsInvariants | lala_bar/src/music_bar.rs:674-686 | dropping a non-live record keeps the live set and every invariant |
| StackSpec.ReplyTextKeepsInvariants | lala_bar/src/music_bar.rs:1194-1195 | storing reply text keeps the live set and every invariant |
| StackSpec.PurgedKeepsInvariants | lala_bar/src/music_bar.rs:231-233 | purging keeps the live records, so it keeps every invariant |
| StackSpec.AfterRemoveKeepsInvariants | lala_bar/src/music_bar.rs:180-237 | removal keeps offsets and filing and takes exactly `id` out of the live set; removing a live id keeps the live positions gap-free |
| StackSpec.RemoveOnce | lala_bar/src/music_bar.rs:180-237 | the corrected removal takes exactly `id` out of the live set, and leaves the store alone when `id` is absent or already marked |
| StackSpec.AfterRemoveLive | lala_bar/src/music_bar.rs:180-237 | removal as written of a stored id takes exactly that id out of the live set |
| StackSpec.RemoveOnceIdempotent | lala_bar/src/music_bar.rs:182-190 | with the corrected guard, a second removal of the same id changes nothing, whatever the windows and the mode in between |
| StackSpec.RemoveOnceKeepsContiguous | lala_bar/src/music_bar.rs:180-237 | with the corrected guard, removal of any id keeps the live positions gap-free |
| StackSpec.DoubleRemovalBreaksContiguity | lala_bar/src/music_bar.rs:182-237 | as written, removing the same id twice before its window closes puts two live records on one position |
| Pipewire.Chunk | lala_bar/src/wav_canvars/pipewire.rs:144-150 | a piece of `slice::chunks` holds at most `size` elements |
| Pipewire.Advance | lala_bar/src/wav_canvars/pipewire.rs:144-150 | the piece followed by the rest is the whole slice, and the rest is shorter |
| Pipewire.FirstEmpty | lala_bar/src/wav_canvars/pipewire.rs:126-129 | the channels before it all have samples left, and it is the first channel with none, or the channel count |
| Pipewire.NextRest | lala_bar/src/wav_canvars/pipewire.rs:124-131 | after one `next`, the channels before the first exhausted one have given up a chunk and the others are untouched |
| Pipewire.NextItem | lala_bar/src/wav_canvars/pipewire.rs:124-131 | an item is produced exactly when no channel is exhausted, and it holds one chunk per channel |
| Pipewire.MatrixChunks.constructor | lala_bar/src/wav_canvars/pipewire.rs:144-150 | one chunk iterator per channel, over all its samples |
| Pipewire.MatrixChunks.Next | lala_bar/src/wav_canvars/pipewire.rs:124-131 | the loop yields what `NextItem` says and leaves the iterators as `NextRest` says, including the channels it advanced before returning `None` |
| Pipewire.ChunkItems | lala_bar/src/wav_canvars/pipewire.rs:259-263 | every item the iterator yields has one piece per channel |
| Pipewire.ChunkItemsConcat | lala_bar/src/wav_canvars/pipewire.rs:259-263 | for equal-length channels, a channel's pieces glued back together give that channel: nothing is lost or reordered |
| Pipewire.ChunkItemsSizes | lala_bar/src/wav_canvars/pipewire.rs:259-263 | every piece holds between one and `size` samples |
| Pipewire.StepOrStop | lala_bar/src/wav_canvars/pipewire.rs:94-95 | chunks of one sample walk the channels in lock-step: item `i` is sample `i` of every channel, and the walk stops at the shortest channel |
| Pipewire.MatrixFixed.constructor | lala_bar/src/wav_canvars/pipewire.rs:76-82 | `channel` windows of `len` default samples each |
| Pipewire.MatrixFixed.Append | lala_bar/src/wav_canvars/pipewire.rs:92-101 | each channel's window is slid over the matrix's samples, up to the shortest channel, and keeps its length |
| Pipewire.SlideAll | lala_bar/src/wav_canvars/pipewire.rs:94-100 | the chunk loop slides every window over its channel's samples up to the shortest channel |
| Pipewire.SlideOnce | lala_bar/src/wav_canvars/pipewire.rs:95-99 | one turn of the loop either finds the iterator exhausted or extends every window's slide by one sample |
| Pipewire.PushPop | lala_bar/src/wav_canvars/pipewire.rs:96-99 | each window gets its channel's sample at the back and loses one at the front |
| Pipewire.MinLen | lala_bar/src/wav_canvars/pipewire.rs:96 | the length of the shortest channel, which bounds every channel |
| Pipewire.Slide | lala_bar/src/wav_canvars/pipewire.rs:97-98 | a window keeps its length as samples pass through it |
| Pipewire.Deinterleaved | lala_bar/src/wav_canvars/pipewire.rs:245-255 | a whole buffer splits into `nChannels` rows, each a whole number of frames long |
| Pipewire.Pos | lala_bar/src/wav_canvars/pipewire.rs:248 | sample `i` of channel `c` sits inside the buffer, in frame `i` at offset `c` |
| Pipewire.DeinterleaveInterleave | lala_bar/src/wav_canvars/pipewire.rs:245-255 | splitting a buffer and interleaving it again gives the buffer back |
| Pipewire.InterleaveDeinterleave | lala_bar/src/wav_canvars/pipewire.rs:245-255 | interleaving channels and splitting them again gives the channels back |
| Pipewire.Deinterleave | lala_bar/src/wav_canvars/pipewire.rs:245-255 | the loops panic exactly when there is no channel or the buffer is not a whole number of frames; otherwise they build the split |
| Pipewire.FillRow | lala_bar/src/wav_canvars/pipewire.rs:248-254 | one channel's walk writes past its row exactly when its offset falls in a partial last frame; otherwise it fills the channel's row |
| Pipewire.PastLastFrame | lala_bar/src/wav_canvars/pipewire.rs:248 | a write past the row only happens to a channel whose offset lies in the partial last frame |
| Pipewire.WalkCoversRow | lala_bar/src/wav_canvars/pipewire.rs:248 | otherwise the walk leaves the buffer after exactly one sample per frame |
| Pipewire.Process | lala_bar/src/wav_canvars/pipewire.rs:245-263 | one capture buffer is split and sent as one matrix per 80-sample chunk, in order; it panics exactly as `Deinterleave` does |
| Pipewire.SendChunks | lala_bar/src/wav_canvars/pipewire.rs:259-263 | every item of `chunks(size)` is sent as a matrix of its own, in order |
| Pipewire.SendOnce | lala_bar/src/wav_canvars/pipewire.rs:259-263 | one turn either finds the iterator exhausted with everything sent, or sends the next item |
| Pipewire.ProcessKeepsEverySample | lala_bar/src/wav_canvars/pipewire.rs:245-263 | across the matrices one buffer produces, every channel's samples appear once each and in order |

## Left out

- MusicBar.MusicBar.RemoveNotify: uses the corrected guard, under which an id already marked for deletion is a no-op. The code as written removes it again; see Findings.
- MusicBar.Removal: uses the same corrected guard, for the same reason.
- MusicBar.MusicBar.InlineReply: uses the same corrected guard when it removes the notification.
- MusicBar.MusicBar.RemoveNotifyMsg: uses the same corrected guard when it removes the notification.
- Pipewire.MatrixFixed.Append: requires at least one channel. With no channel the chunk iterator yields an empty item forever, so the Rust loop never ends.
- Channel.Queue.TrySend: a fixed capacity stands for the futures channel's buffer plus its per-sender slots. A closed receiver is not modelled.
- Integer widths are not modelled: ids, window numbers and positions are unbounded naturals rather than `u32`/`usize`. Apart from the launcher's `len - 1`, which is written out in both build modes, the code never comes near the bound. The `i32` timeout and its `as u64` conversion are written out.
- Window ids: `Id::unique` is modelled as a counter, `nextWindow`.
- Effect order: the effects an update returns are listed in the order the code pushes them, but `Command::batch` itself runs them concurrently.
- Not modelled: the layer-shell settings of opened windows (size, anchor, layer, keyboard mode) and the 50 ms delay before a `UnitAdd` is relayed.
- The D-Bus connection is not modelled: bus names, the object path, signal delivery failures and the `hints` argument beyond being ignored.
- Not modelled: markdown parsing of notification bodies (`notifications_markdown`) and the regex engine. A compiled regex is a predicate passed in as a parameter.
- Not modelled: the Unicode case mapping of `str::to_lowercase`. The launcher takes it as a function on strings.
- Not modelled: reading the apps list (`all_apps`) and launching an application. Both are effects or parameters.
- The mixer is not modelled: volumes read from and written to ALSA are parameters and results of `Balance`.
- Not modelled: PipeWire stream setup, byte decoding (`f32::from_le_bytes`) and floating point. Samples are of a generic type.
- Not modelled: the toggle arms for the launcher, the right panel, the calendar and the time picker, which open or close windows. Their slots appear only through `IdInfo`, `SetIdInfo` and `RemoveId`.
- Not modelled: MPRIS player control, the clock, the settings file, localisation, and `dbusbackend.rs`.
- `DEFAULT_ACTION` is a constructor parameter of the bar.
- The relay drain loop is not modelled. It forwards the queued `NotifyCommand`s to the server's bus connection as signals, and its point is concurrency between tasks.
- The four-window bound is proved for `UnitAdd` only. Leaving quiet mode opens one window per record at a shown position, marked records included. Bindings left from before quiet mode stay until their windows report closing. So no bound on bound windows is claimed across `QuiteMode`.

## Findings

| source | as written | input that shows it | evidently intended | confidence | as-written member | corrected member |
|---|---|---|---|---|---|---|
| lala_bar/src/music_bar.rs:180-237 | `remove_notify` only checks that the id is stored. A record already marked for deletion, which is kept while its window closes, is removed again: the records below it move up a second time | four live notifications 1..4 with four windows bound; `UnitRemove(3)` twice before the closed window reports back. After the second removal, records 1 and 2 share position 1 | an id already marked for deletion is left alone, since its gap was already closed | not executed | StackSpec.DoubleRemovalBreaksContiguity | StackSpec.RemoveOnce |
