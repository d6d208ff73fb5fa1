# Botnak chat core in Dafny

A model of three parts of Botnak, a Twitch chat client, with proofs about them.

- **The chat pane** (`gui/ChatPane.java`). This is the per-channel state:
  - the viewer count and its peak, shown with thousands separators;
  - the cleanup counter and its one-request guard;
  - the autoscroll timestamp;
  - the subscriber tally.

  It also covers how a chat message is laid out: the badges before the sender's name, the separator and body style, the `printMessage` walk over the special ranges of the text, and `findLinks`. Printing is appending a `(text, style)` piece to a sequence, which is all `print` does: it queues one insertion.
- **The viewer's protocol callbacks** (`irc/IRCViewer.java`). Each callback either appends a typed message to `MessageQueue` or changes shared state:
  - the task queue;
  - the channel set;
  - `BanQueue`;
  - the subscriber records;
  - the room settings.

  `MessageQueue` is a sequence, the channel set a set, `BanQueue` a map from channel to names, and the subscriber records a map from name to `active`.
- **The pure helpers of `util/APIRequests.java`**: the uptime answer, the advert length, the `!settitle`/`!setgame` argument, the YouTube link pattern and the video time string. Every web request is a function parameter.

Modules:

- `Wrappers`: `Option`.
- `JavaText`: the `java.lang.String` operations the core uses, with Java semantics:
  - `split` drops trailing empty strings;
  - `compareTo` is lexicographic;
  - `Integer.toString`.
- `Messages`: the `Message` and `Task` records handed to the queues.
- `ChatLayout`: `format`, badges, separator and style, the `printMessage` walk and `findLinks`.
- `ChatPanes`: the `ChatPane` class.
- `Irc`: the `IrcViewer` class.
- `Api`: the `APIRequests` helpers.

Collaborators whose code is not part of this model are parameters. These are `Utils.inRanges`, `Utils.checkURL`, `Utils.capNumber`, `Utils.mentionsKeyword`, `Utils.isMainChannel`, the emote providers, the URL matcher, `SubscriberManager.addNewSubscriber`, and the icon labels of `Icons`. The settings each operation reads are parameters too, and so are the clock and the scroll bar and viewport positions. `Message.java`, `Task.java`, `IconEnum.java`, `Utils.java` and `User.java` are not part of this model: the fields of a message are the ones the core sets.

Where the code does something its own comments or a reader might not expect, the model follows the code:

- **Autoscroll.** The Javadoc of `maybeScrollToBottom` (`gui/ChatPane.java:222-225`) says "more than 10 seconds". The code scrolls once at least 10000 ms have passed (`>=`).
- **Badge order.** The badges come in the order of the code: broadcaster, moderator, global moderator, donor, staff, admin, subscriber or ex-subscriber, turbo.
- **Overlapping ranges.** `findLinks` only tests the two endpoints of a link against the stored ranges, so overlapping ranges are not resolved (`ContainingLinkAdmitted`).
- **Cleanup reset.** The cleanup counter is reset only by a removal that succeeds at a positive offset. `messageOut` is lowered whenever the viewport is known, even when nothing was removed.
- **Malformed room-state fields.** A room-state field made only of `=` throws and ends the loop instead of being skipped. `IrcViewer.OnRoomstate` models this as written; the corrected rule is kept beside it (see Findings).
- **Cleanup and autoscroll.** The pane listens to its own document, so the removal in `cleanupChat` fires `removeUpdate` and with it the autoscroll rule.
- **The pulse after a failed print.** When `printMessage` throws, `onMessage`'s catch skips the pulse check.

## Model

| member | source | states |
|---|---|---|
| ChatLayout.Format | src/main/java/gui/ChatPane.java:102-111 | the comma-inserting loop yields `Grouped(t)` |
| ChatLayout.GroupedSpec | src/main/java/gui/ChatPane.java:102-111 | strings under four characters are unchanged; deleting the commas gives the input back; the first group has 1 to 3 characters, every later group exactly 3, and there are ⌈n/3⌉ groups |
| ChatPanes.ChatPane.constructor | src/main/java/gui/ChatPane.java:321-329 | a new pane is offline (count -1, peak 0), with no timestamp, counter 0, no request out and an empty document |
| ChatPanes.ChatPane.SetViewerCount | src/main/java/gui/ChatPane.java:85-90 | the count becomes the new value; the peak becomes the larger of the old peak and the new value, so it never decreases and stays at least the count; the title is refreshed iff the pane's tab is selected |
| ChatPanes.ChatPane.ViewerCountString | src/main/java/gui/ChatPane.java:96-100 | null exactly for "system logs" in any case; "Viewer count: Offline" for count -1; otherwise it starts with "Viewer count: " |
| ChatPanes.ViewerCountDigits | src/main/java/gui/ChatPane.java:96-111 | for a known count the text is "Viewer count: N (P)" with both numbers grouped, and removing the commas from N gives the count's decimal text |
| ChatPanes.ChatPane.ShouldPulse | src/main/java/gui/ChatPane.java:123-128 | a tab pulses only if pulses are on, its own toggle (or its combined pane's active pane's toggle) is on, it is visible, not selected and not tab 0; all of these together make the tab pulse, for a single pane with its own toggle and for a combined pane with its active pane's toggle |
| ChatPanes.AfterInsert | src/main/java/gui/ChatPane.java:195-209 | a request is made iff cleanup is on, none is out and the new counter is over chatMax, and it raises the guard; the guard is up iff it was up or a request was made; the counter rises by one iff cleanup is on and the text holds a line break |
| ChatPanes.AtMostOneClearRequest | src/main/java/gui/ChatPane.java:195-209 | over any run of inserts, at most one CLEAR_TEXT is requested and none while one is out; the counter counts the inserts with a line break |
| ChatPanes.RequestWhenOverMax | src/main/java/gui/ChatPane.java:202-207 | once the counter passes chatMax with no request out, the insert enqueues one |
| ChatPanes.ChatPane.InsertUpdate | src/main/java/gui/ChatPane.java:193-210 | the text is appended to the document; the scroll state follows `ScrollStep`; the counter and guard follow `AfterInsert`, and the outbox gains the pane's CLEAR_TEXT exactly when a request is made |
| ChatPanes.ChatPane.ClearRequest | src/main/java/gui/ChatPane.java:205 | the request is a CLEAR_TEXT whose extra names this pane |
| ChatPanes.ChatPane.CleanupChat | src/main/java/gui/ChatPane.java:583-609 | the early returns change nothing; otherwise the guard is lowered; a positive offset inside the document removes the text before it, resets the counter, and runs the autoscroll rule through `removeUpdate` (lines 212-215), so the timestamp and the scroll follow `ScrollStep`; any other offset leaves document, counter and timestamp alone and does not scroll |
| ChatPanes.ScrollStep | src/main/java/gui/ChatPane.java:227-243 | at the bottom: clear and scroll; away with no timestamp: record now, no scroll; it scrolls iff at the bottom or at least 10000 ms have passed since the timestamp; a scroll always clears the timestamp |
| ChatPanes.ChatPane.MaybeScrollToBottom | src/main/java/gui/ChatPane.java:227-243 | the new timestamp and the scroll decision are those of `ScrollStep` |
| ChatPanes.WaitsWhileScrolledUp | src/main/java/gui/ChatPane.java:234-240 | while scrolled up, events within ten seconds of the timestamp never scroll and keep it |
| ChatPanes.ScrollsAfterTenSeconds | src/main/java/gui/ChatPane.java:227-243 | leaving the bottom records the time; the following events inside ten seconds do not scroll; the first one at ten seconds or later scrolls and clears the timestamp |
| ChatPanes.IconMessageShape | src/main/java/gui/ChatPane.java:505-515 | a newline, three icons, the content, then the same three icons; the content carries the tally subCount + 1 exactly for a subscriber; the icons carry the channel only for a subscriber |
| ChatPanes.ChatPane.OnIconMessage | src/main/java/gui/ChatPane.java:505-521 | prints `IconMessagePieces` with the old tally; the tally rises by one iff the status is SUBSCRIBER and the extra is null |
| ChatPanes.InsertIcons | src/main/java/gui/ChatPane.java:509-511 | the three-iteration loop appends exactly three copies of the icon pieces |
| ChatPanes.RepeatsNotCounted | src/main/java/gui/ChatPane.java:519-520 | announcements that carry an extra never change the tally |
| ChatPanes.LogPieces | src/main/java/gui/ChatPane.java:660-663 | two normal pieces that spell exactly a newline, the time, a space, "SYS: " for a system message only, and the content |
| ChatLayout.BadgesForRoles | src/main/java/gui/ChatPane.java:351-372 | broadcaster iff the channel without its first character equals the sender; moderator iff an operator who is not the broadcaster, staff, admin or global moderator; donor iff donor icons are on and the user donates; global moderator, staff and admin iff flagged |
| ChatLayout.BadgesForSubscription | src/main/java/gui/ChatPane.java:373-386 | subscriber iff subscribed; ex-subscriber iff not subscribed, in the main channel, with an inactive record; turbo iff turbo |
| ChatLayout.BadgesOrdered | src/main/java/gui/ChatPane.java:351-386 | the badges follow the code's fixed order, each at most once |
| ChatLayout.BodyStyle | src/main/java/gui/ChatPane.java:399-404 | the keyword style iff a keyword is mentioned; else the user colour for an action and the normal style for chat |
| ChatLayout.NameSuffix | src/main/java/gui/ChatPane.java:391-397 | ends with " " for an action and ": " for chat; with the channel shown it is exactly " (" + the channel without its first character + ")" + the separator in normal style; otherwise it is exactly the separator in the user colour |
| ChatPanes.Header | src/main/java/gui/ChatPane.java:348-397 | the time piece first, then a space and an icon per badge in the badges' order (the channel named only for subscriber and ex-subscriber icons), then a space, the display name in the user style and the separator last |
| ChatPanes.BadgeIconsLayout | src/main/java/gui/ChatPane.java:564-575 | each badge prints a space and then its icon, two pieces per badge, in order |
| ChatLayout.PrintMessage | src/main/java/gui/ChatPane.java:432-458 | the loop prints the walk over the ranges in ascending order of start; with disjoint ranges the pieces spell the text exactly |
| ChatLayout.WalkRoundTrip | src/main/java/gui/ChatPane.java:442-457 | with disjoint in-bounds ranges the printed pieces concatenate to the text from the current position |
| ChatLayout.WalkPiecesSound | src/main/java/gui/ChatPane.java:443-456 | every printed piece is in the default style or is one whole range in the style stored for its start |
| ChatLayout.WalkPrintsRange | src/main/java/gui/ChatPane.java:443-453 | every range is printed whole, in its stored style |
| ChatLayout.FindLinks | src/main/java/gui/ChatPane.java:460-474 | the loop leaves the ranges and styles of `FindLinksSpec`, one admission test per match in order |
| ChatLayout.FindLinksProvenance | src/main/java/gui/ChatPane.java:463-473 | no stored range is dropped; each resulting range was there before, or is a match accepted by checkURL, stored as [start, end - 1] in its link style |
| ChatLayout.ContainingLinkAdmitted | src/main/java/gui/ChatPane.java:466-471 | a link that strictly contains a stored range passes the endpoint test and is stored, making the ranges overlap |
| ChatLayout.FindLinksDisjoint | src/main/java/gui/ChatPane.java:460-474 | links found left to right after the stored ranges keep the ranges in bounds and disjoint |
| ChatLayout.LinkLayoutRoundTrip | src/main/java/gui/ChatPane.java:438-458 | a message whose special ranges are all links prints back exactly its text |
| ChatPanes.ChatPane.OnMessage | src/main/java/gui/ChatPane.java:340-422 | prints the header (time, badges, name, separator), then the walk over the links and emote ranges in the body style; ranges that do not fit the text print no body and, since the exception skips line 417, no pulse; otherwise the tab pulses iff `ShouldPulse` holds |
| ChatPanes.MessageLineEndsWithText | src/main/java/gui/ChatPane.java:388-406 | with disjoint ranges the printed line ends with the message text, unchanged |
| Irc.ChannelName | src/main/java/irc/IRCViewer.java:25 | the name starts with '#'; a name with '#' is kept; any other gets '#' in front |
| Irc.ChannelNameIdempotent | src/main/java/irc/IRCViewer.java:25 | normalising a normalised name changes nothing |
| Irc.ChannelNameSame | src/main/java/irc/IRCViewer.java:41-44 | "x" and "#x" name the same channel, and no other name does |
| Irc.IrcViewer.DoConnect | src/main/java/irc/IRCViewer.java:24-33 | one JOIN task for the normalised name, which is then in the channel set; the set invariant (every channel starts with '#') is kept |
| Irc.IrcViewer.DoLeave | src/main/java/irc/IRCViewer.java:41-45 | one LEAVE task for the normalised name, which leaves the channel set |
| Irc.IrcViewer.Close | src/main/java/irc/IRCViewer.java:52-60 | with an account: a DISCONNECT task with no channel, the account forgotten iff asked, the viewer dropped; without one the log line throws and nothing changes |
| Irc.IrcViewer.OnMessage | src/main/java/irc/IRCViewer.java:63-65 | enqueues exactly one chat message with the channel, sender and text |
| Irc.IrcViewer.OnAction | src/main/java/irc/IRCViewer.java:68-70 | enqueues exactly one action message (the sender is the first argument) |
| Irc.IrcViewer.OnBeingHosted | src/main/java/irc/IRCViewer.java:73-76 | enqueues a HOSTED_NOTIFY on the account's own channel; without an account nothing is enqueued |
| Irc.IrcViewer.OnHosting | src/main/java/irc/IRCViewer.java:79-95 | enqueues one HOSTING_NOTIFY whose content is `HostingContent` |
| Irc.HostingContent | src/main/java/irc/IRCViewer.java:81-92 | "Exited host mode." exactly for the target "-"; otherwise "C is now hosting T" followed by a bare "." when viewers is "-", else by " for V viewers." when V compares above "1" and " for V viewer." otherwise |
| Irc.PluralIffAtLeastTwo | src/main/java/irc/IRCViewer.java:87-91 | for a count in decimal, the comparison with "1" chooses the plural exactly for two or more viewers |
| Irc.HostingAnnouncement | src/main/java/irc/IRCViewer.java:81-92 | a hosting announcement reads "C is now hosting T for N viewer(s)." with the plural iff N >= 2 |
| Irc.NewSubscriberMessage | src/main/java/irc/IRCViewer.java:98-119 | nothing is shown exactly for an accepted "subscribed!" line on the main channel; anything shown is the line as a SUB_NOTIFY |
| Irc.RenewalsNotCounted | src/main/java/irc/IRCViewer.java:108-115 | the pane's tally counts a shown announcement iff it is not a renewal line on the main channel |
| Irc.IrcViewer.OnNewSubscriber | src/main/java/irc/IRCViewer.java:98-120 | a "subscribed!" line on the main channel takes addNewSubscriber's records; a renewal re-activates an existing record; the queue gains `NewSubscriberMessage` |
| Irc.IrcViewer.OnDisconnect | src/main/java/irc/IRCViewer.java:122-131 | a reconnect is scheduled iff not shutting down, a viewer exists and auto-reconnect is on |
| Irc.ClearChatNotice | src/main/java/irc/IRCViewer.java:138-140 | a BAN_NOTIFY starting "The chat was cleared by a moderator", ending " (Prevented by Botnak)." iff the chat is really cleared |
| Irc.IrcViewer.OnClearChat | src/main/java/irc/IRCViewer.java:133-142 | a named user is only added to the channel's ban set; a cleared chat enqueues exactly one notice and asks the pane to clean up iff actuallyClearChat |
| Irc.IrcViewer.OnJtvMessage | src/main/java/irc/IRCViewer.java:145-147 | enqueues exactly one JTV_NOTIFY with the line |
| Irc.IrcViewer.OnWhisper | src/main/java/irc/IRCViewer.java:150-153 | enqueues exactly one whisper with no channel and the receiver as extra |
| Irc.PartUpdateOfPair | src/main/java/irc/IRCViewer.java:161-169 | a key=value field with a value dispatches to subs-only or slow by its key in any case, and otherwise nothing |
| Irc.PartWithoutValue | src/main/java/irc/IRCViewer.java:161-163 | a field with no '=', or a non-empty key and an empty value, dispatches nothing and does not throw |
| Irc.UpdatesFromFields | src/main/java/irc/IRCViewer.java:159-170 | every dispatched update comes from one of the fields |
| Irc.IrcViewer.OnRoomstate | src/main/java/irc/IRCViewer.java:156-172 | only the main channel acts; the loop is proved equal to `RoomstateAsWritten`: the updates of the fields are dispatched in order until one throws, and `ok` is false iff the tags are empty or a field throws |
| Irc.IrcViewer.DispatchField | src/main/java/irc/IRCViewer.java:161-169 | one field throws iff it is made only of '=' and then changes nothing; otherwise it appends its update, if it has one: a subs-only or slow key (any case) with a value |
| Irc.PartAsWritten | src/main/java/irc/IRCViewer.java:161-163 | reading a field's key throws exactly when the field is non-empty and made only of '='; otherwise the field dispatches what the corrected rule gives |
| Irc.AsWrittenThrowsIff | src/main/java/irc/IRCViewer.java:160-170 | the loop as written throws iff some field is made only of '=' |
| Irc.AsWrittenStopsAtThrow | src/main/java/irc/IRCViewer.java:160-170 | once a field has thrown, the fields after it dispatch nothing |
| Irc.RoomstateAsWritten | src/main/java/irc/IRCViewer.java:156-172 | empty tags throw with no update; otherwise it throws iff a field is made only of '='; when nothing throws, the updates are exactly the corrected rule's |
| Irc.RoomstateAsWrittenThrows | src/main/java/irc/IRCViewer.java:161-163 | as written, onRoomstate with "@=;slow=5" throws on the field "=" and slow mode is never updated |
| Irc.RoomstateSkipsEmptyField | src/main/java/irc/IRCViewer.java:161-163 | with the length check first, "@=;slow=5" updates slow mode to "5" |
| Irc.AsWrittenAgrees | src/main/java/irc/IRCViewer.java:159-170 | when no field throws, the loop as written dispatches exactly the corrected rule's updates |
| Irc.IrcViewer.OnConnect | src/main/java/irc/IRCViewer.java:175-179 | one JOIN task per channel of the set, for every channel and no other; the set is unchanged |
| Api.UptimeUrl | src/main/java/util/APIRequests.java:31-34 | the request is the service address followed by the channel with every '#' removed (`RemoveAll`, String.replace) |
| Api.UptimeUrlKeepsName | src/main/java/util/APIRequests.java:31-34 | after the address come exactly the channel's characters other than '#', each as often as in the name; a '#'-free name is sent unchanged |
| Api.UptimeIgnoresHash | src/main/java/util/APIRequests.java:31 | a channel given with or without its '#' asks the same question |
| Api.UptimeUrlStable | src/main/java/util/APIRequests.java:31-34 | asking again with the name the request carried asks the same question |
| Api.UptimeResponse | src/main/java/util/APIRequests.java:36-48 | success iff a non-empty line mentions neither "is not" nor "No chan"; no text exactly for an empty line |
| Api.GetUptimeString | src/main/java/util/APIRequests.java:30-50 | asks the service about the channel: success iff the answer is a non-empty line with neither "is not" nor "No chan", shown after "The stream has been live for: "; an exception gives the exception text; "#c" and "c" ask the same question |
| Api.UptimeTexts | src/main/java/util/APIRequests.java:36-48 | "is not" gives "The stream is not live!", then "No chan" gives the no-channel error, an exception its own error, and success shows the line after "The stream has been live for: " |
| Api.AdvertLength | src/main/java/util/APIRequests.java:229-230 | a multiple of 30; the capped length when that is a multiple of 30, else 30; within [30,180] whenever the cap is |
| Api.AdvertLengthAccepted | src/main/java/util/APIRequests.java:229-230 | with the clamp the result is one of 30, 60, ..., 180; a length is kept iff it already is one; long requests become 180 and short ones 30 |
| Api.AdvertLengthExamples | src/main/java/util/APIRequests.java:229-230 | 45 and 170 become 30, 0 becomes 30 and 600 becomes 180 |
| Api.AdvertRequest | src/main/java/util/APIRequests.java:231-237 | the request is "https://api.twitch.tv/kraken/channels/" + the channel with every '#' removed + "/commercial", and the body is "length=" and the normalised length |
| Api.AdvertPathKeepsName | src/main/java/util/APIRequests.java:231-233 | a '#'-free name is the path segment unchanged, and "#name" asks for the same commercial endpoint as "name" |
| Api.PlayAdvert | src/main/java/util/APIRequests.java:226-258 | false without posting when `key.split(":")` has no second field (the read throws into the outer catch); otherwise true iff the post of the request with "OAuth " + that field answers 204 |
| Api.AdvertNeedsToken | src/main/java/util/APIRequests.java:238 | a key with no colon, or nothing after it, never plays an advert; "name:token" sends "OAuth token" |
| Api.NewValue | src/main/java/util/APIRequests.java:162-163 | the new value is never a lone space or "null", and it is shorter than the command |
| Api.NewValueAfterFirstSpace | src/main/java/util/APIRequests.java:162-163 | for any command "H T" with no space in H, the value is T, except that " " and "null" give the empty value |
| Api.Shown | src/main/java/util/APIRequests.java:172 | a non-empty value is shown as is; an empty one as "(untitled broadcast)" for a title and "(not playing a game)" for a game |
| Api.SetStreamStatus | src/main/java/util/APIRequests.java:157-185 | without the permission, the OAuth error and no update; without an argument, the usage error and no update; a value equal to the current one ignoring case fails with "already set" and no update; otherwise the update sets the new title with the current game, or the reverse |
| Api.StatusSuccess | src/main/java/util/APIRequests.java:167-176 | success iff an update was made and the service reported success, shown as "Successfully set ... to: "V" !" with the empty value named; otherwise the service's text |
| Api.UsageIffBlankArgument | src/main/java/util/APIRequests.java:161-179 | the usage error is given iff there is no space or nothing but spaces follows the first one |
| Api.BlankValueUnreachable | src/main/java/util/APIRequests.java:161-163 | with an argument, the text after the first space is never " ", so the value is empty only for "null" |
| Api.TimePartsRecombine | src/main/java/util/APIRequests.java:471-474 | hours*3600 + minutes*60 + seconds equals the count for every count; for a non-negative count minutes and seconds are in [0,59] |
| Api.TimeStringRoundTrip | src/main/java/util/APIRequests.java:470-477 | the time text reads back as the count; it has three fields from one hour on, two below |
| Api.TimeString | src/main/java/util/APIRequests.java:470-477 | under an hour the text is "MM:SS": five characters, two digits on each side of the colon; from an hour on it has the "H:MM:SS" shape, with colons third and sixth from the end and at least seven characters |
| Api.ToInt | src/main/java/util/APIRequests.java:471 | the result is in the int range, equals the value when that is in range, and is congruent to it modulo 2^32 |
| Api.ChooseVideoPattern | src/main/java/util/APIRequests.java:427-438 | "youtu.be/" first, then "v=", then "/embed/"; none iff the link contains none of them |
| Api.GetVideoData | src/main/java/util/APIRequests.java:424-468 | an unreadable link gives "Could not read YouTube URL!" without a request; success iff the id is found and the lookup gives details |
| Api.VideoAnnouncement | src/main/java/util/APIRequests.java:456-461 | a found video under an hour long is announced with its five-character "MM:SS" length at the end |

## Left out

- Swing rendering: pop-out windows, `doScrollToBottom`, `createPane`, `deletePane`, `getUserSet`, the icon images, and the viewport-to-offset conversion. The offset `cleanupChat` removes up to and the scroll bar position are parameters.
- `scrollToBottom`'s deferral on the event queue: a scroll decision is a returned boolean.
- The clock and `getTime`'s date format: the current time and the time text are parameters.
- `pulseTab`, `displayMention`, `notifyTrayIcon`, `Utils.logChat`, `GUIMain.log` and `updateTitle`: they are external side effects with no logic of their own. `SetViewerCount` returns whether the title is refreshed.
- `SubscriberManager.updateSubscriber` (called at the end of `onMessage`), `channelManager.addUser` (`onConnect`), `channelManager.dispose` (`close`), and the FrankerFaceZ channel lookup and chat log of `doConnect`. They belong to managers outside this core.
- Concurrency: `close` is synchronized, `onDisconnect` starts a reconnect thread, and `MessageQueue` is shared between threads. The queue is a plain sequence and a scheduled reconnect is a counter.
- Every HTTP and JSON call in `APIRequests`, `Duration.parse`, the regular-expression match that extracts a video id, and `getHost`. They are function parameters (`fetch`, `post`, `setStatus`, `find`, `lookup`).
- The other `APIRequests` operations (`isChannelLive`, `countViewers`, `getStatusOfStream`, `getTitleOfVOD`, followed channels, suggestions, followers, LastFM, `getUnshortened`) are not part of this core. `setStatusOfStream` is the `setStatus` parameter of `SetStreamStatus`.
- Api.SetStreamStatus: the current title and game are parameters read once. The source fetches them again for each comparison and for the update, and could see them change in between.
- Api.AdvertLength: takes `Utils.capNumber(30, 180, _)` as a parameter. Its bound on the result holds whenever the cap stays within [30, 180]. `AdvertLengthAccepted` instantiates it with the clamp that the comment at the call describes.
- ChatPanes.ChatPane.OnMessage: when the emote ranges do not fit the text, Java prints the body pieces before the failing range and then logs the exception. The model prints no body at all. The method also does not model the mention check or the subscriber update.
- Irc.IrcViewer.OnClearChat: the pane of the channel is assumed to exist. When actuallyClearChat is on and the channel has no pane, `getChatPane(channel).cleanupChat()` at IRCViewer.java:136 throws a NullPointerException and no BAN_NOTIFY is enqueued; the model has no missing pane to stand for that.
- Irc.IrcViewer.OnAction: `Message.java` is not part of this model. The action flag of its four-argument constructor is modelled as the ACTION_MESSAGE type.
- The emote providers (`FaceManager.handleFaces`) are one function parameter that returns the new ranges and styles.
- `Utils.inRanges`, `Utils.checkURL` and the URL matcher are parameters, so their own behaviour is not modelled. `Covered` is one reading of `inRanges`, used only to exhibit the overlap.
- Case folding is ASCII only. Java's `compareTo` on UTF-16 units is modelled on characters.

## Findings

| source | as written | input that shows it | evidently intended | confidence | as-written member | corrected member |
|---|---|---|---|---|---|---|
| src/main/java/irc/IRCViewer.java:161-163 | `keyValPairs[0]` is read before the `length <= 1` check. A field made only of `=` splits into an empty array, the read throws, and the fields after it are never dispatched | tags `@=;slow=5`: no update, then ArrayIndexOutOfBoundsException | skip fields without a value and go on (the length check guards the read) | not executed | Irc.RoomstateAsWrittenThrows | Irc.RoomstateSkipsEmptyField |
