# Ticket bot core, modelled in Dafny

`bot.py` runs a Discord support bot for "premium app" requests. A user opens a
private ticket channel, either from a persistent panel button or with `/ticket`.
A 48-hour per-user cooldown limits how often they can do that. In the ticket
they name an app from the catalog and upload a subscription screenshot. The
bot forwards the proof to a verification channel. There an administrator
verifies it, which delivers the app's link, or declines it. Closing a ticket
writes a chunked transcript to a log channel and then deletes the channel.
Administrators edit the catalog, clear cooldowns, force-close tickets and list
the open tickets.

The model covers the sequential logic inside those handlers. Conventions:

- Timestamps are integer seconds since the Unix epoch.
- Users, channels, messages and attachments are plain records (`Platform`).
- Every platform call the bot makes is an `Event` appended to an `Outbox`:
  a send with its target and meaning, a defer, a channel creation or deletion,
  or the edit that closes a review message. Only delivered sends are events.
  A direct message the user has closed shows up as the fallback notice the
  bot sends instead.
- State that the bot updates in place is modelled as classes:
  - the cooldown dictionary is `Cooldowns.CooldownRegistry`, over `map<int, int>`;
  - the app catalog is `Apps.Catalog`, a `seq<App>` with unique keys, whose
    order is the Python dictionary's insertion order;
  - an open review is `Review.VerificationView`, whose `active` flag is what
    `stop()` turns off.
- Each handler is a method. It emits its events step by step and is proved
  equal to a pure function (`OpenEvents`, `ClosureEvents`, `VerifyEvents`, …).
  Lemmas state the handler's rules about that function.

Modules:

- `Wrappers`: `Option`.
- `Strings`: ASCII lower-casing, Python's `in` on strings, decimal rendering, parsing.
- `Platform`: records, events, the outbox.
- `Transcript`: `create_transcript`, its rendering and its chunking fold.
- `TranscriptLaws`: the chunking rule stated on its own, and its consequences.
- `Cooldowns`: the cooldown dictionary.
- `Apps`: the catalog and its edits.
- `Tickets`: open, close, force-close, view_tickets.
- `Review`: `on_message` detection and the verification view.
- `Panel`: `setup_ticket_panel`.

### The transcript chunking rule

Each message becomes a block: a header line plus one line per attachment.
Blocks are taken oldest first. A block starts a new chunk when the current
chunk's length plus the block's length exceeds 4000. Each block is then
appended with one extra `"\n"`, which that test does not count.

`TranscriptLaws.ValidGrouping` states the rule declaratively. The chunks cover
the blocks exactly and every chunk fits. Every chunk after the first was
started because its first block did not fit onto the previous chunk. The first
chunk is empty exactly when the first block alone is too long. The grouping
the loop builds satisfies the rule (`GroupingValid`), and it is the only
grouping that does (`GroupingUnique`).

### Behaviour worth knowing

- The cooldown is the only gate on opening a ticket. It is a fixed 48 hours,
  and nothing checks whether the user already has a ticket open.
- A proof is any message in a ticket channel that mentions a catalog key, in
  any case, and carries an attachment.
- The link is looked up in the catalog when the administrator decides. It is
  not copied when the proof is submitted.
- Transcript chunks are not bounded by 4000 characters. A chunk of several
  blocks can reach 4001 characters, and a single over-long block forms a
  chunk of any length.

## Model

| member | source | states |
|---|---|---|
| `Strings.LowerShape` | bot.py:445 | lower-casing keeps the length, maps each character, and leaves no capital letter |
| `Strings.LowerFindsAnyCase` | bot.py:680-682 | a pattern written in the content in any mixture of ASCII cases is found, at the same position, as the lower-cased pattern in the lower-cased content |
| `Strings.ContainsIffOccurs` | bot.py:682 | Python's `key in content` holds exactly when the key occurs at some position of the content (both directions) |
| `Strings.IntRoundTrip` | bot.py:146 | the decimal rendering of a user id reads back as that id |
| `Strings.IntToDecimalInjective` | bot.py:146 | distinct user ids render differently |
| `Transcript.CivilFromDays` | bot.py:99 | the calendar date of a day number has a month 1..12 and a day 1..31 (so `%m` and `%d` are two digits) |
| `Transcript.DayOfYearBounds` | bot.py:99 | within a 400-year era, the year estimate lands on the year holding the day: the day of that year is 0..365 |
| `Transcript.FormatUtcLength` | bot.py:99 | every timestamp of the years 0..9999 renders as `%Y-%m-%d %H:%M:%S` in exactly 19 characters, so the header length the chunk test counts does not depend on the time shown |
| `Transcript.Header` | bot.py:99 | a message's header line starts with `[` and ends with a newline |
| `Transcript.Block` | bot.py:99-101 | a message's block starts with its header and ends with a newline |
| `Transcript.Reversed` | bot.py:92-93 | the newest-first history reversed puts the message at position i of the result from position n-1-i of the history |
| `Transcript.CreateTranscript` | bot.py:89-112 | the loop returns the reversed history and exactly the chunks of the fold `Chunks` over the messages' blocks |
| `TranscriptLaws.GroupingValid` | bot.py:98-110 | the loop's grouping obeys the chunking rule: complete coverage, every chunk fits, a flush only when the next block does not fit, and an empty first chunk only for an over-long first block |
| `TranscriptLaws.GroupingUnique` | bot.py:98-110 | any grouping of the blocks that obeys the chunking rule is the loop's grouping |
| `TranscriptLaws.TranscriptRoundTrip` | bot.py:92-110 | the chunks concatenated in order are every block, oldest first, each followed by one extra newline |
| `TranscriptLaws.ChunksAreWholeBlocks` | bot.py:103-107 | chunk k is exactly the text of group k, and the groups flattened are the blocks, so no block is split |
| `TranscriptLaws.NoChunksIffNoMessages` | bot.py:109-110 | there are no chunks exactly when there are no messages |
| `TranscriptLaws.EmptyFirstChunk` | bot.py:103-105 | only the first chunk can be empty, and it is empty exactly when the first block alone exceeds 4000 characters |
| `TranscriptLaws.MultiBlockChunkBound` | bot.py:103-107 | a chunk of two or more blocks has at most 4001 characters |
| `TranscriptLaws.FlushCondition` | bot.py:103-105 | every chunk after the first starts with a block that does not fit onto the previous chunk |
| `TranscriptLaws.ChunkOfLimitPlusOne` | bot.py:103-107 | the 4001 bound is reached: blocks of 1999 and 2000 characters make one chunk of 4001 |
| `TranscriptLaws.HistoryRoundTrip` | bot.py:89-112 | for a newest-first history, the chunks spell the blocks oldest first, the first block is the oldest message's, and no chunks means no history |
| `Cooldowns.WaitIsPositive` | bot.py:123-124 | a user waits exactly when they have an entry later than now, and the wait is positive and ends at the entry |
| `Cooldowns.BlockedWithinWindow` | bot.py:123-139 | after an opening at t1, an attempt at t2 within 48 hours waits t1 + 48h - t2, which is at most 48 hours |
| `Cooldowns.FreeAfterWindow` | bot.py:123 | from t1 + 48h on, including at expiry == now, the user may open again |
| `Cooldowns.OthersUnaffected` | bot.py:139 | setting or deleting one user's entry changes nobody else's wait |
| `Cooldowns.ClearedIsFree` | bot.py:519-520 | a user whose entry was deleted may open at once |
| `Cooldowns.CooldownRegistry.constructor` | bot.py:84 | the cooldown dictionary starts empty, so nobody waits |
| `Cooldowns.CooldownRegistry.TryOpen` | bot.py:123-139 | a user inside the window gets the remaining wait and the dictionary is unchanged; anyone else gets an entry now + 48h and nothing else changes |
| `Cooldowns.CooldownRegistry.Remove` | bot.py:519-534 | deletes only that user's entry, changes nothing when there is none, and reports which case occurred |
| `Apps.Lookup` | bot.py:375 | `dict.get` finds a link exactly when the key is in the catalog, and the entry it finds is in the catalog |
| `Apps.DefaultAppsUnique` | bot.py:46-53 | the default catalog has unique keys, in the order spotify, youtube, kinemaster, hotstar, truecaller, castle |
| `Apps.PutPlacement` | bot.py:448 | assigning to an existing key overwrites it in place and changes nothing else; a new key is appended at the end |
| `Apps.PutUnique` | bot.py:448 | assigning keeps the keys unique |
| `Apps.PutKeys` | bot.py:448 | the key order is unchanged for an overwrite and gains the new key last otherwise |
| `Apps.PutLookup` | bot.py:448 | after the assignment the key holds the new link and every other key keeps its link |
| `Apps.PutIdempotent` | bot.py:448 | adding the same app twice is adding it once |
| `Apps.DeleteAbsent` | bot.py:470-471 | deleting an absent key leaves the catalog unchanged |
| `Apps.DeleteAt` | bot.py:473 | deleting a present key removes exactly its entry and keeps the rest in order |
| `Apps.DeleteKeepsOthers` | bot.py:473 | deleting a key keeps every other key's link |
| `Apps.DeleteRemoves` | bot.py:473 | after the deletion the key is not found |
| `Apps.DeleteUnique` | bot.py:473 | deleting keeps the keys unique |
| `Apps.DeleteUndoesPut` | bot.py:448-473 | adding a new app and removing it again restores the catalog |
| `Apps.Catalog.constructor` | bot.py:46-57 | the catalog starts as the default six entries, with unique keys |
| `Apps.Catalog.AddApp` | bot.py:445-457 | stores the link under the lower-cased name, keeps the keys unique, and confirms |
| `Apps.Catalog.RemoveApp` | bot.py:466-481 | an unknown lower-cased name is reported and changes nothing; a known one is deleted and confirmed |
| `Tickets.TicketChannelNameRoundTrip` | bot.py:146 | `ticket-<id>` passes the `ticket-` guard, gives back the owner's id, and is never shared by two users |
| `Tickets.OpenTicket` | bot.py:117-199 | the cooldown check, then either the wait reply alone or defer, channel creation, welcome and confirmation; the dictionary changes exactly as in `TryOpen` |
| `Tickets.OpenCreatesIffFree` | bot.py:123-199 | a channel named after the user is created exactly when the user is outside the cooldown, and the welcome offers the catalog keys in catalog order; otherwise the only reply is the wait |
| `Tickets.ReopenWithinWindowRefused` | bot.py:123-139 | a ticket opened at t1 makes a second attempt at t2 within 48 hours produce only the wait t1 + 48h - t2 |
| `Tickets.CloseTicket` | bot.py:310-355 | emits the countdown reply, the metadata, one numbered part per transcript chunk, then the delete, exactly as `ClosureEvents` |
| `Tickets.ClosureOrder` | bot.py:345-355 | metadata first, then parts 1..n carrying the chunks in order, then the channel delete, which is the only delete and is last |
| `Tickets.TicketOwnerOfName` | bot.py:146 | the channel opened for a user records that user as its owner |
| `Tickets.ClosureEvents` | bot.py:310-355 | close_ticket as written: the countdown reply, the metadata, the numbered parts and the delete; its properties are the lemmas below |
| `Tickets.OpenerAsWritten` | bot.py:325 | the opener as written: the oldest message's author, or the closer for an empty channel |
| `Tickets.ClosureMetadata` | bot.py:323-343 | in every channel: the channel and closer are named; the opener and opening time are the oldest message's author and time, or the closer and now for an empty channel; the duration is close - open |
| `Tickets.ClosureCorrectedNamesOwner` | bot.py:325 | the corrected closure differs from close_ticket only in the metadata's opener: a `ticket-<id>` channel names user id, and any other channel keeps the code's choice |
| `Tickets.OpenerAsWrittenNamesBot` | bot.py:325 | as written, a ticket whose oldest message is the bot's welcome post logs the bot as opener, not the user it was opened for; the corrected closure logs that user |
| `Tickets.ClosureLogsWholeHistory` | bot.py:323-353 | the parts sent to the log spell out every message's block, oldest first, before the delete |
| `Tickets.ForceClose` | bot.py:542-576 | emits exactly `ForceCloseEvents`: the guard reply alone, or defer, the preparing reply, the full closure and the confirmation |
| `Tickets.ForceCloseGuard` | bot.py:544-571 | the given channel, or else the current one, is refused unless it is a text channel named `ticket-…`; a refused target is not deleted; an accepted one is deleted with its whole history logged |
| `Tickets.ForceCloseEventsAsWritten` | bot.py:542-571 | force_close as written stops after the preparing reply: its events are a prefix of the intended command's, and none of them deletes anything |
| `Tickets.ForceCloseAsWrittenKeepsChannel` | bot.py:554-571 | as written, force_close on a ticket channel deletes nothing and sends nothing to the log; the corrected one deletes the channel |
| `Tickets.OpenTickets` | bot.py:630-633 | a channel is listed exactly when it is one of the guild's text channels with a `ticket-` name; the list is no longer than the guild's channels |
| `Tickets.OpenTicketsAppend` | bot.py:630-633 | the filter keeps guild order: filtering a concatenation concatenates the filtered parts |
| `Tickets.CreatedTicketIsListed` | bot.py:146-151 | a channel created for a user is listed by view_tickets |
| `Tickets.OverviewAccounts` | bot.py:635-644 | the overview gives the count, at most 20 channels in order, and how many more, so that shown + more == count |
| `Tickets.ViewTickets` | bot.py:628-652 | replies with the overview of the guild's channels |
| `Review.FirstMatch` | bot.py:682 | the position found holds the first key, in catalog order, contained in the text; no position means no key is contained |
| `Review.FirstMatchIff` | bot.py:682 | FirstMatch finds position i exactly when key i is the first contained key |
| `Review.DetectRules` | bot.py:673-720 | bots and non-ticket channels are ignored; a detected key is non-empty and the first contained key; with attachments the first attachment's URL is forwarded, without any a screenshot is asked for |
| `Review.DetectComplete` | bot.py:682-687 | when all keys are non-empty, a mentioned catalog key in a ticket channel is always acted on |
| `Review.AddedAppDetected` | bot.py:680-690 | after add_app stores a name lower-cased, a ticket message containing the name in any ASCII case is acted on, and with an attachment it is forwarded with that attachment |
| `Review.ScreenshotOnlyIgnored` | bot.py:680-687 | a screenshot sent with no text, as the dropdown instructions ask, produces no event at all |
| `Review.NamedScreenshotForwarded` | bot.py:680-703 | a screenshot sent with a catalog app's name in the text is forwarded to the verification channel with the sender and the attachment URL, and the ticket gets the upload confirmation |
| `Review.OnMessage` | bot.py:671-720 | sends the proof to the verification channel and the upload confirmation, or the screenshot request, or nothing; a review view is created exactly for forwarded proofs |
| `Review.NoPermissionNoEffect` | bot.py:371-372 | without manage-guild, verify and decline only reply with the permission error and settle nothing |
| `Review.RemovedAppNotGranted` | bot.py:374-379 | an app removed from the catalog before the decision is "not found", and nothing goes to the ticket channel |
| `Review.VerifyGrants` | bot.py:381-404 | a successful verify sends the catalog's current link to the ticket channel, then the DM exactly when allowed or else the channel notice, then the closure offer, then closes the review message |
| `Review.VerifyUsesLatestLink` | bot.py:374-375 | a link changed by add_app before the decision is the one handed out |
| `Review.VerificationView.Verify` | bot.py:370-409 | emits `VerifyEvents` while the view is active and nothing after `stop()`; the view stops exactly when a link was granted |
| `Review.VerificationView.Decline` | bot.py:411-432 | emits `DeclineEvents` while active; an administrator's decline notifies the ticket and stops the view |
| `Review.VerificationView.constructor` | bot.py:362-367 | a new view holds the submission and is active |
| `Panel.Window` | bot.py:747 | the scan looks at most at the five newest messages, a prefix of the history |
| `Panel.ScanFromIff` | bot.py:746-752 | the scan finds a panel exactly when a panel comes before any message that raises, and finds none exactly when every scanned message is ordinary |
| `Panel.FindPanel` | bot.py:745-752 | the loop, with its found flag and its early exit, computes `ScanFrom` over the window |
| `Panel.SetupTicketPanel` | bot.py:728-761 | emits exactly `SetupEvents` |
| `Panel.PanelSentIff` | bot.py:730-756 | a panel is posted exactly when the panel channel is configured and visible and none of the scanned messages is the bot's panel or makes the button lookup raise; it is posted once |
| `Panel.SetupIdempotent` | bot.py:746-756 | once a panel has been posted, the next start-up posts nothing |
| `Panel.PanelOutsideWindowMissed` | bot.py:747 | a panel behind five other users' messages is not seen, and a new one is posted |

## Findings

| source | as written | input that shows it | evidently intended | confidence | as-written member | corrected member |
|---|---|---|---|---|---|---|
| bot.py:554-571 | Two faults end `force_close` after the "preparing" reply, so the channel is neither logged nor deleted. First, in discord.py 2.x a view's decorated method is replaced on the instance by its `Button`, so `view.close_ticket(...)` at bot.py:571 calls a Button and raises TypeError. Second, even once close_ticket runs, the stand-in sets `response` to the follow-up webhook, and close_ticket's first call, `response.send_message`, does not exist on a webhook (AttributeError). | `/force_close channel:#ticket-123` on an existing ticket channel | The command runs the closure through the button's callback, and the stand-in routes `send_message` through its own method, so the full closure runs and the channel is deleted | medium. It rests on discord.py 2.x's view and `Webhook` APIs. Not executed. | `Tickets.ForceCloseAsWrittenKeepsChannel` | `Tickets.ForceCloseGuard` |
| bot.py:325 | The "Ticket Opener" is `messages[0].author`, the author of the oldest message. In a ticket opened by `create_new_ticket` the oldest message is the bot's welcome post (bot.py:194), so the log names the bot. | any ticket opened from the panel or `/ticket` and then closed | The log names the user the ticket was opened for, whose id the channel name `ticket-<id>` carries | high that the bot is named whenever its welcome is still the oldest message. Not executed. | `Tickets.OpenerAsWrittenNamesBot` | `Tickets.ClosureCorrectedNamesOwner` |
| bot.py:235 | The dropdown's instructions say "Send the screenshot in this ticket now. Please do not type any additional text." `on_message` (bot.py:682-687) acts only on messages that contain a catalog key, so a screenshot sent as instructed is ignored. | a user picks an app in the dropdown, then sends only the screenshot | The instructions ask the user to write the app's name with the screenshot, which the detection forwards | high that such a message is ignored; the fix could equally be on the detection side. Not executed. | `Review.ScreenshotOnlyIgnored` | `Review.NamedScreenshotForwarded` |

`Tickets.ForceCloseEventsAsWritten` models the command as written, and
`Tickets.ForceCloseAsWrittenKeepsChannel` shows that on every ticket channel it
deletes nothing and logs nothing. `Tickets.ForceCloseEvents` and the method
`Tickets.ForceClose` are the intended command. `Tickets.ForceCloseGuard` proves
that it deletes exactly the accepted ticket channels and logs their whole history.

`Tickets.ClosureEvents`, which `Tickets.CloseTicket` and force_close use,
names the opener as written (`Tickets.OpenerAsWritten`).
`Tickets.ClosureEventsCorrected` is the corrected closure. It names
`Tickets.Opener`, which reads the owner from a `ticket-<id>` name and otherwise
falls back to the code's choice. The screenshot instructions are not
part of the model, since the dropdown callback is left out. The detection is
modelled as written, and `Review.NamedScreenshotForwarded` states what a user
must send for it to act.

## Left out

- Flask keep-alive server and its thread (bot.py:69-76, 784): HTTP and threading only.
- Environment variables and startup failure (bot.py:16-34): OS configuration. The configured channel ids are plain parameters. A panel channel id of 0 means unset, as in Python.
- apps.json load and save (bot.py:40-62): the catalog is kept in memory. A missing file gives the default six entries (`Apps.DefaultApps`).
- Embeds, colours, emoji maps, `.title()` display names and all wording: presentation only. Each message is modelled by its meaning, a `Notice`. Catalog notices carry the lower-cased key.
- Channel permission overwrites (bot.py:141-151), slash-command registration, permission decorators and view timeouts: platform API. A decorator-checked command is modelled as already permitted. The verify/decline permission check is modelled as a boolean.
- The close countdown, its edits and `asyncio.sleep` (bot.py:312-319): only the first reply is kept, as `CloseCountdown`.
- Concurrency between handlers: everything is sequential. This includes the race between the cooldown check (bot.py:123) and the set (bot.py:139) across the `await` at bot.py:137.
- Tickets.ClosureEvents: the two clock reads at bot.py:326-327 are one `now`, so an empty channel's duration is 0.
- Formatting of durations and of the remaining wait (bot.py:125, 330): the model carries integer seconds. Timestamps in transcript headers are rendered as `%Y-%m-%d %H:%M:%S` UTC from integer seconds. Sub-second parts are not modelled.
- `str.lower` is ASCII-only; Unicode case mapping is not modelled.
- Resolving channel ids to channels (`bot.get_channel`): the verification and log channels are assumed to exist. The panel channel's lookup result is the `resolved` flag. The instructions channel of the welcome (bot.py:160-165) is assumed to resolve. If it does not, `None.mention` raises after the channel was created and the cooldown set, so neither the welcome nor the confirmation is sent. The model does not capture that.
- `on_message` in a direct-message channel, which has no name: the model's channels always have a name.
- `bot.process_commands` (bot.py:722): the bot defines no prefix commands.
- The app dropdown and its callback (bot.py:205-241): they send instructions with no logic. Their wording matters for one finding. The dropdown's options, the catalog keys in order, are the `appChoices` of the welcome. An empty catalog gives an empty list, standing for the disabled "no apps" button.
- `/view_apps` and `/send_app` (bot.py:484-622): outside the modelled core.
- `on_ready` (bot.py:767-778): command sync and persistent-view registration. It calls `setup_ticket_panel`, which is modelled.
- Platform failures: `discord.Forbidden` in the panel setup, failed sends and failed deletions. Only the forbidden direct message in verify is modelled, as `dmDelivered`. A panel message whose first row is empty, so that the button lookup raises, is modelled: it is caught and nothing is posted.
- Review.VerificationView.Verify: a press after `stop()` emits nothing. The platform no longer dispatches those presses, and the buttons are removed by the message edit.
