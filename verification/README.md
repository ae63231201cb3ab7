# AutosZap: WhatsApp formatting, gateway session, signup, phones and notifications

A Dafny model of the parts of AutosZap that hold real algorithms or state, with proofs about every input, every
run or every interleaving.

* **WhatsApp text** (`InlineFormatting`, `InlineParser`, `InlineTheorems`, `InlineNormalForm`, `TextBlocks`,
  `TextBlockTheorems`, `MessageRendering`). The cursor-and-buffer loops of the block splitter and the inline parser are
  methods proved equal to a recursive grammar. The grammar is lossless, never nests a format in itself (so it is at most
  three deep), and its output is the one and only normal form of its input, for a normal form that is read off the
  characters and does not mention the parser.
* **Gateway session** (`SessionMachine`, `HistorySpec`, `HistoryTheorems`, `HistoryMeaning`, `HistoryPrefixes`,
  `GatewaySession`). `SessionMachine` is the control state as a machine stepped at await points, with theorems over all
  runs. `HistorySpec` says what a history sync should do, as functions of what the WhatsApp client answers,
  `HistoryTheorems` what holds of that, and `HistoryMeaning` what it comes to message by message and chat by chat.
  `GatewaySession` is the imperative session class. At each await point any number of calls and events may run;
  `Valid()` says that the fields are exactly what the recorded events make of a new session, so every theorem about runs
  holds of the class. A sync that resolves is proved to have done exactly what the specification says; one that does not
  has sent a prefix of the same batches.
* **Recipients and contacts** (`RecipientRouting`, `LidCache`). Candidate addresses, the send loop with its fallback, and
  the cache from LIDs to phone addresses.
* **Gateway manager** (`GatewayRegistry`, `GatewayTheorems`, `RegistryMeaning`). The session map, the registry file, the
  management requests, what they do to each instance, and what a restart rebuilds.
* **Embedded signup** (`EmbeddedSignup`, `BridgeSignup`). Three settle-once promises fed by window events in any order.
* **Brazilian phones** (`BrazilPhone`). The three canonicalisers, the formatter and the mask.
* **Notification cache** (`NotificationCache`). The cache updaters and the component state that applies them.
* **Shared** (`JsString`, `DesiredState`). The string operations of JavaScript that the above rely on.

Where the code does something else than one would expect, an input is given and the exact condition is proved:

* `normalizeWhatsAppText` is not idempotent: on `\r\r\n` a second pass still finds something to replace
  (`NormalizeTwiceDiffers`). It is idempotent for a text exactly when the text holds no `\r\r\n`.
* "Auto-start implies that the session is meant to run" can break: a logout or unregistration of an auto-starting
  session that fails half-way (`FailingLogoutBreaksCoherence`), or a registration asking for auto-start on a stopped
  session whose write fails (`UnsavedRegistrationBreaksCoherence`). A run keeps it at every step exactly when no request
  in it is one of these.
* A cached LID can give another phone number than a fresh lookup: when the contact has no number and its formatted
  number is not that of the phone address (`CachedNumberMayDiffer`). The two agree exactly when the contact's number
  normalises, or the formatted number gives nothing usable, or both give the same digits.
* Suppressing or opening lowers the unread counter by the items newly read exactly when the counter is at least one
  whenever an item is newly read (`EmptyCounterCannotDrop` otherwise) and, for an item whose read stamp is the empty
  string, the counter is zero (`BlankStampBreaksCounter` otherwise). The server never sends an empty stamp: it stores
  `null` or a date (backend/src/modules/notifications/notifications.service.ts), so that second case needs a cache
  filled by something else. Between stream events a counter that covers the unread items keeps doing so.
* A read notification pushed out of a full list and created again comes back unread (`PushedOutComesBackUnread`).
* A bridge signup settles on a code alone, with empty ids (`CodeAloneSettlesOnlyTheBridge`), and never on signup data
  alone.

## Model

| member | source | states |
|---|---|---|
| `JsString.TrimEmptyIffBlank` | frontend/lib/whatsapp-formatting.ts:159-161 | The trim test that rejects a closing marker fails exactly for contents that are all white space. |
| `JsString.TrimShape` | frontend/lib/whatsapp-formatting.ts:159 | Trimming cuts off exactly the white space at both ends. |
| `JsString.SpaceCodePoints` | frontend/lib/whatsapp-formatting.ts:159 | White space by code point, as sections 12.2 and 12.3 of ECMA-262 list it. |
| `JsString.DigitsCons` | frontend/lib/utils.ts:28 | Removing non-digits keeps the characters 0 to 9, in order, and nothing else. |
| `InlineFormatting.ClosingIsLeast` | frontend/lib/whatsapp-formatting.ts:147-167 | A closing marker is the least index holding the marker with a non-blank content before it, or -1 when there is none. |
| `InlineFormatting.LeastClosingUnique` | frontend/lib/whatsapp-formatting.ts:147-167 | That description has only one solution. |
| `InlineFormatting.SpanEndExactly` | frontend/lib/whatsapp-formatting.ts:99-136 | Where a span opens and closes, from the characters alone: an asterisk, underscore, tilde or a backtick that starts no triple one, closed by the first same character with something other than white space in between. |
| `InlineParser.FindClosingMarker` | frontend/lib/whatsapp-formatting.ts:147-167 | The loop with its two `continue`s finds that closing, for every text, marker and start. |
| `InlineParser.FlushBuffer` | frontend/lib/whatsapp-formatting.ts:87-97 | Flushing empties the buffer and adds a text node only when there was text. |
| `InlineParser.ParseInlineFormatting` | frontend/lib/whatsapp-formatting.ts:82-145 | The cursor-and-buffer loop, recursing from inside, terminates and computes the recursive grammar. |
| `InlineNormalForm.MarkersMean` | frontend/lib/whatsapp-formatting.ts:99-136 | Around text that is not blank and holds no marker, asterisks make bold, underscores italic, tildes strikethrough, backticks code; without markers text stays text. |
| `InlineTheorems.Lossless` | frontend/lib/whatsapp-formatting.ts:82-145 | Un-parsing the tree gives back exactly the input, for every text. |
| `InlineTheorems.LosslessSpan` | frontend/lib/whatsapp-formatting.ts:102-136 | Each span node un-parses to exactly the slice from its opening to its closing marker. |
| `InlineTheorems.LengthAccounting` | frontend/lib/whatsapp-formatting.ts:82-145 | Input length is leaf text plus two per code or formatted node. |
| `InlineTheorems.SpanHoldsOwnMarkerAtMostOnce` | frontend/lib/whatsapp-formatting.ts:116-121 | A span's content holds its own marker at most once, and then only after white space. |
| `InlineTheorems.MarkCostsTwo` | frontend/lib/whatsapp-formatting.ts:123-131 | A formatted node anywhere in a tree puts two of its markers in the source text. |
| `InlineTheorems.ParseNeverNestsItself` | frontend/lib/whatsapp-formatting.ts:116-136 | No formatted node has a descendant of its own kind. |
| `InlineTheorems.DepthBoundedByKinds` | frontend/lib/whatsapp-formatting.ts:25 | A tree without self-nesting is no deeper than the number of kinds in it. |
| `InlineTheorems.DepthAtMostThree` | frontend/lib/whatsapp-formatting.ts:82-145 | Formatted nesting is at most three deep on every input. |
| `InlineNormalForm.NormalFormIffParse` | frontend/lib/whatsapp-formatting.ts:82-145 | A node list is a normal form of a text (laid end to end it is the text, no empty or adjacent text nodes, every span closed at the least admissible index with non-blank content, no plain character that could open a span) exactly when it is the parse: the normal form exists and is unique. |
| `InlineNormalForm.FitsAtOffset` | frontend/lib/whatsapp-formatting.ts:82-145 | Each node of a normal form fits the text at its own offset. |
| `InlineNormalForm.PlainMarkersNeverCloseAtAnyDepth` | frontend/lib/whatsapp-formatting.ts:99-140 | In text nodes at every depth, a marker left as text starts a triple backtick or has no closing within its own span's content. |
| `InlineNormalForm.PlainMarkersNeverClose` | frontend/lib/whatsapp-formatting.ts:99-140 | The same by position in the whole text, for text nodes outside all spans. |
| `TextBlocks.LeftoverCrLf` | frontend/lib/whatsapp-formatting.ts:27-29 | One replacement pass leaves a CR LF behind exactly when the text had CR CR LF. |
| `TextBlocks.NormalizeIdempotentIff` | frontend/lib/whatsapp-formatting.ts:27-29 | Normalising twice equals normalising once exactly when the text has no CR CR LF. |
| `TextBlocks.CrLfBecomesLf` | frontend/lib/whatsapp-formatting.ts:27-29 | Each CR LF becomes one LF wherever it stands. |
| `TextBlocks.NormalizeTwiceDiffers` | frontend/lib/whatsapp-formatting.ts:27-29 | CR CR LF becomes CR LF in one pass and LF in two. |
| `TextBlocks.SplitTextBlocks` | frontend/lib/whatsapp-formatting.ts:31-80 | The splitting loop computes the recursive split of the normalised text. |
| `TextBlockTheorems.CanonicalIffSplit` | frontend/lib/whatsapp-formatting.ts:31-80 | A block list is canonical (code runs to the first fence after its opening, text before code holds no fence, final text holds no fence pair, no empty text, no two texts in a row) exactly when it is the split. |
| `TextBlockTheorems.SplitLossless` | frontend/lib/whatsapp-formatting.ts:31-80 | Re-fencing the code blocks and concatenating gives the text back. |
| `TextBlockTheorems.SplitShape` | frontend/lib/whatsapp-formatting.ts:31-80 | No code block and no text block but the last holds a fence, text is always followed by code, an empty text block appears only for empty input. |
| `TextBlockTheorems.FencesMean` | frontend/lib/whatsapp-formatting.ts:31-80 | Two triple backticks around text without backticks make a code block, with the text before and after it as text blocks if there is any. |
| `TextBlockTheorems.NoFenceMeans` | frontend/lib/whatsapp-formatting.ts:72-77 | Text without backticks is one text block, even when empty. |
| `MessageRendering.LinesLossless` | frontend/components/shared/whatsapp-formatted-text.tsx:64 | Splitting a text block into lines loses nothing and leaves no line break in a line. |
| `MessageRendering.RenderLossless` | frontend/components/shared/whatsapp-formatted-text.tsx:25-69 | Blocks, lines and inline nodes together still hold the whole normalised message. |
| `MessageRendering.ComponentLosslessIff` | frontend/components/shared/whatsapp-formatted-text.tsx:23-27 | The component normalises twice; it shows the whole normalised message exactly when the message has no CR CR LF. |
| `SessionMachine.RunsAreSafe` | apps/whatsapp-web-gateway/src/whatsapp-session.ts:905-916 | After any run: an armed timer is the held one, a held timer means the session should run and is not destroyed, and the sync in flight is the one the promise field names. |
| `SessionMachine.AtMostOneTimerOneSync` | apps/whatsapp-web-gateway/src/whatsapp-session.ts:1159-1173 | At most one timer is armed and at most one sync is in flight, over every interleaving. |
| `SessionMachine.DisconnectArms` | apps/whatsapp-web-gateway/src/whatsapp-session.ts:905-916 | After any run, a reported disconnect of a session that should run and is not destroyed arms a new timer, the only one and the one held; otherwise the timers stay as they were. |
| `SessionMachine.ArmedExactly` | apps/whatsapp-web-gateway/src/whatsapp-session.ts:1159-1173 | A timer is armed exactly if a disconnect was reported while the session should run and was not destroyed, and since then there was no stop and no timer went off. |
| `SessionMachine.FiresOnce` | apps/whatsapp-web-gateway/src/whatsapp-session.ts:1161-1165 | A timer goes off at most once. |
| `SessionMachine.StoppedExactly` | apps/whatsapp-web-gateway/src/whatsapp-session.ts:247-311 | The session is meant to be stopped exactly if a stop has run and nothing has started it since. |
| `SessionMachine.StopDisarmsUntilStart` | apps/whatsapp-web-gateway/src/whatsapp-session.ts:308-311 | After `stop`, nothing is armed again until `start` runs, whatever else happens. |
| `SessionMachine.DestroyDisarmsForGood` | apps/whatsapp-web-gateway/src/whatsapp-session.ts:474-477 | After `destroy`, nothing is ever armed again, even if `start` is called. |
| `SessionMachine.CancelSticks` | apps/whatsapp-web-gateway/src/whatsapp-session.ts:461-472 | While a sync is unsettled its cancel flag is never reset: it is up exactly if it was up or a stop has run. |
| `SessionMachine.ActiveExactlyIfUndisturbed` | apps/whatsapp-web-gateway/src/whatsapp-session.ts:827-831 | An activity check of an unsettled sync passes exactly if no stop has run since the sync was called and the session was meant to run then or has been started since. |
| `SessionMachine.StopDoomsSync` | apps/whatsapp-web-gateway/src/whatsapp-session.ts:596-597 | A stop before the final check means the sync never resolves, in any continuation, even with starts and new syncs. |
| `SessionMachine.ResolvedWhileUndisturbed` | apps/whatsapp-web-gateway/src/whatsapp-session.ts:596-611 | A sync that resolved passed its final check with no stop between its call and that check. |
| `SessionMachine.InactiveNeedsStop` | apps/whatsapp-web-gateway/src/whatsapp-session.ts:827-831 | An active sync becomes inactive only through a stop. |
| `SessionMachine.EndingsAreFinal` | apps/whatsapp-web-gateway/src/whatsapp-session.ts:461-472 | A sync settles once: its ending never changes. |
| `HistoryTheorems.BatchesPartition` | apps/whatsapp-web-gateway/src/whatsapp-session.ts:674-731 | The batches of a list hold exactly its messages in order, 1 to 50 each, all but the last exactly 50. |
| `HistoryTheorems.BatchSnoc` | apps/whatsapp-web-gateway/src/whatsapp-session.ts:717-722 | One more message either waits in the batch or completes it. |
| `HistoryTheorems.VisitConserves` | apps/whatsapp-web-gateway/src/whatsapp-session.ts:647-736 | A visit that succeeds sends exactly its non-ignored messages; one that fails keeps back at most 49. |
| `HistoryTheorems.InboundPlusOutbound` | apps/whatsapp-web-gateway/src/whatsapp-session.ts:702-715 | Inbound plus outbound is the number of messages, media at most that number. |
| `HistoryMeaning.CountsAreSizes` | apps/whatsapp-web-gateway/src/whatsapp-session.ts:708-719 | Outbound is the number of messages from oneself, inbound of all others, media of those with media. |
| `HistoryMeaning.SnapshotMeans` | apps/whatsapp-web-gateway/src/whatsapp-session.ts:582-590 | The figures of a progress event, each by what it counts. |
| `HistoryMeaning.KeptOne` | apps/whatsapp-web-gateway/src/whatsapp-session.ts:1126-1146 | Which message is kept: private, not of an archived chat, not of a group, not a status, not a blank template without media, not a broadcast notification. |
| `HistoryMeaning.KeptConcat` | apps/whatsapp-web-gateway/src/whatsapp-session.ts:674-725 | Messages are kept in order up to the first that cannot be read. |
| `HistoryMeaning.VisitMeans` | apps/whatsapp-web-gateway/src/whatsapp-session.ts:647-736 | A visit goes well for an archived chat or if every message can be read, asking for another visit if some contact is open; else it fails with the first error. |
| `HistoryMeaning.EligibleOne` | apps/whatsapp-web-gateway/src/whatsapp-session.ts:135-145 | A chat is eligible if it is not archived and its trimmed id ends in @c.us or @lid. |
| `HistoryMeaning.EligibleConcat` | apps/whatsapp-web-gateway/src/whatsapp-session.ts:511-525 | Eligible chats are taken in order. |
| `HistoryMeaning.RevisitedExactly` | apps/whatsapp-web-gateway/src/whatsapp-session.ts:537-595 | Every eligible chat is visited in the first pass, and again in the next of at most three exactly if all its messages could be read and some contact was still open. |
| `HistoryMeaning.SyncedExactly` | apps/whatsapp-web-gateway/src/whatsapp-session.ts:563-565 | The synced chats are those that some visit went well for. |
| `HistoryMeaning.ErrorsConcat` | apps/whatsapp-web-gateway/src/whatsapp-session.ts:575-581 | Errors are recorded in the order of the visits. |
| `HistoryMeaning.ErrorsOfOne` | apps/whatsapp-web-gateway/src/whatsapp-session.ts:575-581 | One error, with chat and message, for a visit that fails, none for one that does not. |
| `HistoryMeaning.SentInOrder` | apps/whatsapp-web-gateway/src/whatsapp-session.ts:549-591 | Every visit sends its batches right after those of the visits before it. |
| `HistoryMeaning.DiscoveredOnce` | apps/whatsapp-web-gateway/src/whatsapp-session.ts:707-721 | What a sync discovers is what the first visit of each chat keeps, in order; retries discover nothing. |
| `HistoryTheorems.DiscoveredIsEmitted` | apps/whatsapp-web-gateway/src/whatsapp-session.ts:549-591 | Over any mix of successes, failures and retries, what was discovered was emitted but for at most 49 messages per error. |
| `HistoryTheorems.FirstVisitsEmitExactly` | apps/whatsapp-web-gateway/src/whatsapp-session.ts:549-591 | Error-free first visits emit exactly what they discover, in order. |
| `HistoryTheorems.PassAccounting` | apps/whatsapp-web-gateway/src/whatsapp-session.ts:537-595 | Before each pass, processed plus pending chats are the eligible ones. |
| `HistoryTheorems.ChatAccounting` | apps/whatsapp-web-gateway/src/whatsapp-session.ts:537-595 | At every step processed, still pending and requeued chats add up to the eligible ones. |
| `HistoryTheorems.SyncProcessesEveryChat` | apps/whatsapp-web-gateway/src/whatsapp-session.ts:537-595 | After the last pass nothing is pending and every eligible chat is processed. |
| `HistoryTheorems.EmptyQueueStays` | apps/whatsapp-web-gateway/src/whatsapp-session.ts:537-541 | Leaving the loop on an empty queue skips nothing. |
| `HistoryTheorems.AtMostThreeVisitsOneError` | apps/whatsapp-web-gateway/src/whatsapp-session.ts:537-591 | Each chat is visited at most three times and fails at most once. |
| `HistoryTheorems.EveryChatSyncedOrFailed` | apps/whatsapp-web-gateway/src/whatsapp-session.ts:549-591 | Every eligible chat ends in the synced set or among the errors. |
| `HistoryTheorems.ProgressAdvancesToTotal` | apps/whatsapp-web-gateway/src/whatsapp-session.ts:1148-1157 | The progress of an undisturbed sync only advances, never passes the total and ends at it; for canceled syncs see `SyncHistory`. |
| `HistoryTheorems.SnapshotsOrdered` | apps/whatsapp-web-gateway/src/whatsapp-session.ts:582-591 | More processed chats and more discovered messages never make any progress figure smaller. |
| `HistoryPrefixes.FilledSoFar` | apps/whatsapp-web-gateway/src/whatsapp-session.ts:674-731 | The batches filled by some of a chat's messages are the first batches of the whole visit. |
| `HistoryPrefixes.SentSoFar` | apps/whatsapp-web-gateway/src/whatsapp-session.ts:537-595 | What some visits send is the beginning of what the whole sync sends. |
| `GatewaySession.HistorySyncResult.CountMessage` | apps/whatsapp-web-gateway/src/whatsapp-session.ts:702-715 | One more message counts as outbound if it is from oneself, else inbound, and as media if it has media; updating the four counters keeps them the counts of the list of discovered messages. |
| `GatewaySession.WhatsAppSession.SafeAtAllTimes` | apps/whatsapp-web-gateway/src/whatsapp-session.ts:1159-1173 | The timer and sync guarantees hold of the session object after any calls and events. |
| `GatewaySession.WhatsAppSession.Start` | apps/whatsapp-web-gateway/src/whatsapp-session.ts:247-248 | Starting takes the machine's step: the session is meant to run, the cancel flag stays. |
| `GatewaySession.WhatsAppSession.Stop` | apps/whatsapp-web-gateway/src/whatsapp-session.ts:308-311 | Stopping takes the machine's step: desired state, cancel flag and timer in one go. |
| `GatewaySession.WhatsAppSession.Destroy` | apps/whatsapp-web-gateway/src/whatsapp-session.ts:474-477 | Destroying marks the session and stops it. |
| `GatewaySession.WhatsAppSession.ScheduleReconnect` | apps/whatsapp-web-gateway/src/whatsapp-session.ts:1159-1173 | Scheduling first clears the held timer, then holds a new one. |
| `GatewaySession.WhatsAppSession.OnDisconnectReported` | apps/whatsapp-web-gateway/src/whatsapp-session.ts:905-916 | After its callback the handler holds and arms a new timer, the only one, exactly if a report was due and the session should still run and is not destroyed. |
| `GatewaySession.WhatsAppSession.OnTimer` | apps/whatsapp-web-gateway/src/whatsapp-session.ts:1159-1166 | A timer that fires starts the session; a cleared one does nothing. |
| `GatewaySession.WhatsAppSession.JoinSync` | apps/whatsapp-web-gateway/src/whatsapp-session.ts:461-464 | Asking for a sync while one is in flight joins it and changes nothing. |
| `GatewaySession.WhatsAppSession.Await` | apps/whatsapp-web-gateway/src/whatsapp-session.ts:461-472 | Whatever runs at an await point of a sync, its cancel flag is not reset, and a session that ran is still meant to run or has had the sync canceled. |
| `GatewaySession.WhatsAppSession.FlushHistoryBatch` | apps/whatsapp-web-gateway/src/whatsapp-session.ts:1108-1124 | A non-empty batch is emptied, sent once at the instant of the call and counted; an empty one sends nothing. |
| `GatewaySession.WhatsAppSession.EmitHistorySyncProgress` | apps/whatsapp-web-gateway/src/whatsapp-session.ts:1148-1157 | One event with the processed chats clamped to the total. |
| `GatewaySession.WhatsAppSession.AddMessage` | apps/whatsapp-web-gateway/src/whatsapp-session.ts:702-723 | Counting, pushing and flushing a full batch keep "full batches sent and counted, the rest waiting"; a full batch is not sent once the sync is canceled. |
| `GatewaySession.WhatsAppSession.SyncReadings` | apps/whatsapp-web-gateway/src/whatsapp-session.ts:674-735 | The message loop sends, counts and answers exactly what the specification says unless the sync was canceled; else it has sent a prefix, and at most 50 discovered messages are unsent. |
| `GatewaySession.WhatsAppSession.SyncPrivateChatHistory` | apps/whatsapp-web-gateway/src/whatsapp-session.ts:647-736 | The same for the whole visit, with archived chats, failed fetches and the activity checks; batches are sent only while the sync is active. |
| `GatewaySession.WhatsAppSession.VisitChat` | apps/whatsapp-web-gateway/src/whatsapp-session.ts:549-591 | Try, catch and finally around a visit: processed or requeued, never both; counters balanced at 50 per error even when canceled inside; clamping changes nothing; the event sent is not behind the one before, canceled or not. |
| `GatewaySession.WhatsAppSession.RunPass` | apps/whatsapp-web-gateway/src/whatsapp-session.ts:543-594 | A pass makes the specified visits and leaves the specified queue; chats are accounted for at every step and progress advances even if the sync gets canceled. |
| `GatewaySession.WhatsAppSession.RunPasses` | apps/whatsapp-web-gateway/src/whatsapp-session.ts:537-595 | The loop over passes reaches exactly the full schedule of visits unless the sync is canceled. |
| `GatewaySession.WhatsAppSession.SelectChats` | apps/whatsapp-web-gateway/src/whatsapp-session.ts:511-525 | The eligible chats are the unarchived ones with a private id, in order, and every chat is counted as evaluated. |
| `GatewaySession.WhatsAppSession.BeginSync` | apps/whatsapp-web-gateway/src/whatsapp-session.ts:491-535 | The opening section fails only without client, without chat list or when inactive; otherwise it selects the chats and reports zero progress. |
| `GatewaySession.WhatsAppSession.FinishSync` | apps/whatsapp-web-gateway/src/whatsapp-session.ts:596-611 | The closing section resolves exactly if the session is active at the final check, with every result field as specified. |
| `GatewaySession.WhatsAppSession.CompletedTallies` | apps/whatsapp-web-gateway/src/whatsapp-session.ts:602-611 | The counters of a completed sync and of its last progress event are the numbers of messages, of own, of others' and of media messages that the first visits keep. |
| `GatewaySession.WhatsAppSession.PerformHistorySync` | apps/whatsapp-web-gateway/src/whatsapp-session.ts:491-612 | A sync that resolves has the specified result, batches and progress; one that rejects without a client failure does so at an inactive instant; in any case a prefix of the specified batches was sent, and progress only advanced and never passed its total. |
| `GatewaySession.WhatsAppSession.ResolvedUndisturbed` | apps/whatsapp-web-gateway/src/whatsapp-session.ts:596-597 | On the session object: a resolved sync met no stop before its final check. |
| `GatewaySession.WhatsAppSession.SyncHistory` | apps/whatsapp-web-gateway/src/whatsapp-session.ts:461-472 | Joins the sync in flight or runs a new one: resolved means specified result, counters that count what the first visits keep, and no stop before the final check; rejected with client and chat list at hand means a stop ran; batches only while active; resolved or rejected, the progress sent only advances, never passes its total and is never clamped. |
| `RecipientRouting.ResolveRecipientCandidates` | apps/whatsapp-web-gateway/src/whatsapp-session.ts:1033-1095 | The candidate list is the filtered assembly of LID, recipient and phone address; an invalid recipient is an error. |
| `RecipientRouting.RecipientMeans` | apps/whatsapp-web-gateway/src/whatsapp-session.ts:100-109 | Blank stays blank, an at sign leaves the address alone, no digit is invalid, else the digits with @c.us. |
| `RecipientRouting.CandidateOrder` | apps/whatsapp-web-gateway/src/whatsapp-session.ts:1056-1084 | LID first, then the recipient, then the phone address, when all are at hand and different. |
| `RecipientRouting.OnlyRecipient` | apps/whatsapp-web-gateway/src/whatsapp-session.ts:1033-1088 | Without an identity or for another kind of address the recipient is the only candidate. |
| `RecipientRouting.FilteredIsDeduplication` | apps/whatsapp-web-gateway/src/whatsapp-session.ts:1090-1094 | The `findIndex` filter is first-occurrence de-duplication of the non-blank addresses. |
| `RecipientRouting.FilteredAddresses` | apps/whatsapp-web-gateway/src/whatsapp-session.ts:1090-1094 | Filtered addresses are distinct and non-blank, and no non-blank address is lost. |
| `RecipientRouting.CandidateList` | apps/whatsapp-web-gateway/src/whatsapp-session.ts:1033-1095 | At most three distinct non-blank candidates, the recipient among them when it is not blank. |
| `RecipientRouting.SendWithFallback` | apps/whatsapp-web-gateway/src/whatsapp-session.ts:1002-1030 | Candidates are tried in order, each at most once; the first success after retryable failures only is the answer, otherwise the error of the last one tried. |
| `RecipientRouting.ExplanationUnique` | apps/whatsapp-web-gateway/src/whatsapp-session.ts:1002-1030 | That description of the send loop fixes both the number of addresses tried and the outcome. |
| `RecipientRouting.RetryableMeans` | apps/whatsapp-web-gateway/src/whatsapp-session.ts:1097-1106 | An error is retryable exactly if it says one of the three phrases, in any case. |
| `RecipientRouting.SendMessage` | apps/whatsapp-web-gateway/src/whatsapp-session.ts:990-1031 | The same from the recipient as given: at most three distinct addresses are sent to, none if the recipient is invalid. |
| `LidCache.CacheHoldsExactly` | apps/whatsapp-web-gateway/src/whatsapp-session.ts:1405-1441 | After any lookups the cache holds exactly the usable LIDs looked up, each with the directory's own phone address. |
| `LidCache.HitAgreesIff` | apps/whatsapp-web-gateway/src/whatsapp-session.ts:1405-1441 | For a LID the cache holds, a hit and a fresh lookup give the same contact and phone address, and the same number exactly when the numbers agree. |
| `LidCache.CachedNumberMayDiffer` | apps/whatsapp-web-gateway/src/whatsapp-session.ts:1414-1441 | With a contact without number whose formatted number is not that of the phone address, the second lookup answers another number than the first. |
| `LidCache.PlainPeerMeans` | apps/whatsapp-web-gateway/src/whatsapp-session.ts:1384-1403 | Without an address, and for one that is no LID: which contact, address and number. |
| `LidCache.LidMeans` | apps/whatsapp-web-gateway/src/whatsapp-session.ts:1421-1447 | For a LID: the directory's address, the contact there, and its number, else its formatted number, else the address's digits. |
| `LidCache.FailedLookupMeans` | apps/whatsapp-web-gateway/src/whatsapp-session.ts:1448-1454 | A failing lookup leaves the contact given and its number. |
| `LidCache.HitMeans` | apps/whatsapp-web-gateway/src/whatsapp-session.ts:1405-1418 | On a hit: the contact at the cached address, its number, else the address's digits. |
| `LidCache.UsableMeans` | apps/whatsapp-web-gateway/src/whatsapp-session.ts:1439-1441 | A LID is remembered exactly if the directory has a phone address for it and some number comes of it. |
| `LidCache.LidPhoneCache.ResolvePeerContact` | apps/whatsapp-web-gateway/src/whatsapp-session.ts:1379-1455 | With or without a hit the contact and phone address are those of the uncached lookup; the phone number on a hit is the same exactly when the numbers agree. |
| `GatewayRegistry.RegistryStore.Load` | apps/whatsapp-web-gateway/src/registry.ts:12-24 | Loading answers the usable entries of the document in order, nothing for a missing or corrupt file. |
| `GatewayRegistry.RegistryStore.Save` | apps/whatsapp-web-gateway/src/registry.ts:26-33 | A successful write makes the entries the document; a failed one may leave anything. |
| `GatewayRegistry.SessionManager.constructor` | apps/whatsapp-web-gateway/src/index.ts:95-134 | Boot makes one session per loaded entry, a repeated id keeping its first place and its last entry. |
| `GatewayRegistry.SessionManager.PersistRegistry` | apps/whatsapp-web-gateway/src/index.ts:136-140 | Persisting writes the entries of the map in insertion order. |
| `GatewayRegistry.SessionManager.OnRegister` | apps/whatsapp-web-gateway/src/index.ts:142-188 | Registration updates map and file as the request model says, in the source's order of effects. |
| `GatewayRegistry.SessionManager.OnStart` | apps/whatsapp-web-gateway/src/index.ts:289-335 | Start, connect and reconnect set the desired state first and the entry and file only after success. |
| `GatewayRegistry.SessionManager.OnStop` | apps/whatsapp-web-gateway/src/index.ts:350-394 | Disconnect and logout likewise. |
| `GatewayRegistry.SessionManager.OnRefreshQr` | apps/whatsapp-web-gateway/src/index.ts:337-348 | Refreshing the QR code reconnects unless connected and leaves registry and file alone. |
| `GatewayRegistry.SessionManager.OnUseClient` | apps/whatsapp-web-gateway/src/whatsapp-session.ts:479-489 | A request that needs the client starts a session that has none and leaves registry and file alone. |
| `GatewayRegistry.SessionManager.OnUnregister` | apps/whatsapp-web-gateway/src/index.ts:396-417 | Unregistering removes the session and saves only after a successful logout. |
| `GatewayRegistry.PutTwice` | apps/whatsapp-web-gateway/src/index.ts:177-178 | Setting a key twice is setting it once: the place in the map does not change. |
| `GatewayRegistry.RemovePut` | apps/whatsapp-web-gateway/src/index.ts:407-408 | Deleting a key forgets an update of it. |
| `GatewayTheorems.RunKeepsValid` | apps/whatsapp-web-gateway/src/index.ts:136-417 | From a valid manager over any run of requests, failing or not, keys stay distinct and match their entries, and after a successful write the document is the registry in insertion order. |
| `GatewayTheorems.RunStaysSynced` | apps/whatsapp-web-gateway/src/index.ts:136-417 | As long as no write fails, memory and file never part, even when starts and stops fail. |
| `GatewayTheorems.BootIsValid` | apps/whatsapp-web-gateway/src/index.ts:95-134 | Booting from any file, corrupt, with unusable entries or with repeated ids, gives distinct keys that match their entries, each session meant to run. |
| `GatewayTheorems.EveryRunFromBoot` | apps/whatsapp-web-gateway/src/index.ts:95-417 | From boot on any file through any run of requests the registry stays valid, and "auto-start implies meant to run" holds at every step exactly if no request is one of the named failing ones at its own step. |
| `GatewayTheorems.CoherentIff` | apps/whatsapp-web-gateway/src/index.ts:142-417 | "Auto-start implies meant to run" survives one request exactly when the request is not one of the named failing ones. |
| `GatewayTheorems.RunCoherentIff` | apps/whatsapp-web-gateway/src/index.ts:142-417 | Over any run it holds at every step exactly if no request in the run is one of them at its own step. |
| `GatewayTheorems.FailingLogoutBreaksCoherence` | apps/whatsapp-web-gateway/src/index.ts:380-417 | A logout or unregistration that fails half-way leaves an auto-starting session stopped. |
| `GatewayTheorems.UnsavedRegistrationBreaksCoherence` | apps/whatsapp-web-gateway/src/index.ts:177-185 | So does a registration asking for auto-start on a stopped session whose write fails. |
| `GatewayTheorems.BootRebuilds` | apps/whatsapp-web-gateway/src/index.ts:95-134 | Booting from entries with distinct ids gives one session per entry, in order. |
| `GatewayTheorems.RestartRebuilds` | apps/whatsapp-web-gateway/src/index.ts:95-140 | A restart after a successful write rebuilds the same instances in the same order, with the same auto-start flags and creation times, each meant to run: loading drops nothing that saving wrote. |
| `GatewayTheorems.BootKeepsLast` | apps/whatsapp-web-gateway/src/index.ts:95-114 | From any document the last entry of an id wins. |
| `GatewayTheorems.CreatedAtKept` | apps/whatsapp-web-gateway/src/index.ts:154 | Whatever is requested, a still registered instance keeps its creation time. |
| `RegistryMeaning.UnregisterRemoves` | apps/whatsapp-web-gateway/src/index.ts:406-408 | A successful unregistration takes the instance out, leaves all others as they were and in order, and when saved leaves no entry with its id in the document. |
| `RegistryMeaning.UnregisteredStaysGone` | apps/whatsapp-web-gateway/src/index.ts:406-408 | A restart does not bring it back. |
| `RegistryMeaning.UsableOfEntries` | apps/whatsapp-web-gateway/src/registry.ts:17-20 | Loading keeps exactly the entries with an id and a callback URL. |
| `RegistryMeaning.StartMeans` | apps/whatsapp-web-gateway/src/index.ts:289-335 | Start, connect and reconnect, field by field, and nothing for other instances. |
| `RegistryMeaning.StopMeans` | apps/whatsapp-web-gateway/src/index.ts:350-394 | Disconnect and logout, field by field, and nothing for other instances. |
| `RegistryMeaning.NudgeMeans` | apps/whatsapp-web-gateway/src/index.ts:337-348 | Refreshing a QR code or needing the client only makes the session meant to run. |
| `RegistryMeaning.UnknownIdChangesNothing` | apps/whatsapp-web-gateway/src/index.ts:289-417 | A request for an instance that is not registered changes nothing. |
| `RegistryMeaning.RegisterMeans` | apps/whatsapp-web-gateway/src/index.ts:142-188 | Registering, field by field: trimmed id, given or default callback URL, given or previous auto-start, first creation time, new update time, metadata, and what the session is meant to do. |
| `RegistryMeaning.RegisteredExactly` | apps/whatsapp-web-gateway/src/index.ts:142-417 | Which instances are registered after a run, and in which order, is a function of the requests alone. |
| `EmbeddedSignup.SignupPromise.Sdk` | frontend/lib/facebook-sdk.ts:447-529 | The SDK promise starts unsettled with its timeout and its message listener to clean up. |
| `EmbeddedSignup.SignupPromise.OAuth` | frontend/lib/facebook-sdk.ts:616-740 | The OAuth promise also has its close watcher to clean up. |
| `EmbeddedSignup.SignupPromise.SettleWithError` | frontend/lib/facebook-sdk.ts:453-461 | Settles once, running the registered cleanups; afterwards does nothing. |
| `EmbeddedSignup.SignupPromise.SettleWithSuccess` | frontend/lib/facebook-sdk.ts:463-476 | Settles once, only with a code and a complete signup at hand, with the code and each id in its own field. |
| `EmbeddedSignup.SignupPromise.OnSignupEvent` | frontend/lib/facebook-sdk.ts:490-525 | Cancel, error and incomplete finish reject; a complete finish is remembered and may resolve. |
| `EmbeddedSignup.SignupPromise.OnSdkMessage` | frontend/lib/facebook-sdk.ts:485-526 | Only signup events from Facebook's origins count. |
| `EmbeddedSignup.SignupPromise.OnLoginResponse` | frontend/lib/facebook-sdk.ts:531-540 | A login answer brings the code or rejects. |
| `EmbeddedSignup.SignupPromise.OnOAuthMessage` | frontend/lib/facebook-sdk.ts:659-721 | The OAuth listener: signup events from Facebook, code or error from the redirect page. |
| `EmbeddedSignup.SignupPromise.OnClosePoll` | frontend/lib/facebook-sdk.ts:728-740 | A closed popup rejects. |
| `EmbeddedSignup.UndecidedRun` | frontend/lib/facebook-sdk.ts:447-551 | Before anything decisive the promise only remembers the latest code and finish. |
| `EmbeddedSignup.SettlesAtFirstDecisiveEvent` | frontend/lib/facebook-sdk.ts:616-741 | For every event sequence: without a decisive event nothing settles; otherwise the promise settles exactly once, at the first event that is an error or completes code and finish in either order, with the latest of each, and each cleanup runs exactly once. |
| `EmbeddedSignup.OrderDoesNotMatter` | frontend/lib/facebook-sdk.ts:616-741 | With one code and one complete signup in play the promise resolves with these two as soon as both have come, in any order and repetition. |
| `EmbeddedSignup.ResolvedMeans` | frontend/lib/facebook-sdk.ts:642-649 | A promise that resolves carries, field by field, the last code and the last finished signup that had come by the decisive event, with neither id empty. |
| `EmbeddedSignup.DecisiveExactly` | frontend/lib/facebook-sdk.ts:622-741 | An event is decisive exactly if it is an error, an incomplete signup, or comes when a code and a signup are both there. |
| `EmbeddedSignup.DecisiveMeans` | frontend/lib/facebook-sdk.ts:622-741 | An error is passed on, an incomplete signup rejects with its message, else the promise resolves. |
| `EmbeddedSignup.SignupEventMeans` | frontend/lib/facebook-sdk.ts:495-525 | Which event names are errors and which finish. |
| `EmbeddedSignup.WabaOnlyErrorMeans` | frontend/lib/facebook-sdk.ts:211-213 | The error for a business account without a number. |
| `EmbeddedSignup.CancelErrorMeans` | frontend/lib/facebook-sdk.ts:215-220 | The error for a cancellation, with the step if there is one. |
| `EmbeddedSignup.ErrorErrorMeans` | frontend/lib/facebook-sdk.ts:222-227 | The error for an error, its own message unless blank. |
| `EmbeddedSignup.OAuthMessageMeans` | frontend/lib/facebook-sdk.ts:659-721 | Signup events from Facebook, code or error from the redirect page, nothing else. |
| `BridgeSignup.BridgePromise.constructor` | frontend/lib/facebook-sdk.ts:781-913 | The bridge promise starts unsettled with listener and watcher to clean up. |
| `BridgeSignup.BridgePromise.OnMessage` | frontend/lib/facebook-sdk.ts:821-898 | Bridge results, redirect codes and Facebook events, in the source's order of tests. |
| `BridgeSignup.BridgePromise.TryResolve` | frontend/lib/facebook-sdk.ts:808-819 | Resolves only with a code and a complete signup, each id in its own field. |
| `BridgeSignup.BridgePromise.OnClosePoll` | frontend/lib/facebook-sdk.ts:903-913 | A closed popup rejects. |
| `BridgeSignup.WaitingRun` | frontend/lib/facebook-sdk.ts:885-896 | Signup data alone never settles the bridge promise; it is only remembered. |
| `BridgeSignup.BridgeSettlesAtFirstDecidingEvent` | frontend/lib/facebook-sdk.ts:781-915 | The first deciding event settles the promise once and runs every cleanup once; later events change nothing. |
| `BridgeSignup.CodeAloneSettlesOnlyTheBridge` | frontend/lib/facebook-sdk.ts:842-856 | A code without signup data settles the bridge promise with empty ids, while the joining promise keeps waiting. |
| `BridgeSignup.CodeWithSignupMeans` | frontend/lib/facebook-sdk.ts:808-844 | A deciding code goes out, field by field, with the last signup data before it when these have both ids. |
| `BridgeSignup.CodeAloneMeans` | frontend/lib/facebook-sdk.ts:846-855 | Otherwise it goes out with the ids it carries itself. |
| `BridgeSignup.BridgePassesOn` | frontend/lib/facebook-sdk.ts:822-833 | A bridge result or an error that decides is passed on as it is. |
| `BridgeSignup.BridgeMessageMeans` | frontend/lib/facebook-sdk.ts:821-898 | What the bridge listens to, origin by origin. |
| `BrazilPhone.NormalizePhoneIdempotent` | frontend/lib/utils.ts:27-39 | Normalising twice is normalising once. |
| `BrazilPhone.ComparisonKeyIdempotent` | frontend/lib/utils.ts:41-65 | A comparison key is its own key. |
| `BrazilPhone.GatewayIdempotent` | apps/whatsapp-web-gateway/src/whatsapp-session.ts:172-196 | The gateway's digits are their own digits. |
| `BrazilPhone.GatewayDefinedIff` | apps/whatsapp-web-gateway/src/whatsapp-session.ts:172-196 | The gateway yields digits exactly for the numbers that the web app normalises to ten or eleven digits. |
| `BrazilPhone.CanonicalisersAgree` | frontend/lib/utils.ts:27-65 | Where the gateway yields digits they are 55 and the web app's digits, and the web comparison key is "+" and those digits. |
| `BrazilPhone.KeysCoincideIff` | frontend/lib/utils.ts:41-65 | Two numbers have the same key exactly when the gateway gives both the same digits or, when it gives neither any, their raw digits are the same: keys of the two classes never collide. |
| `BrazilPhone.NormalizeMeans` | frontend/lib/utils.ts:27-39 | Area code and rest: a leading 55 of twelve or thirteen digits goes, eight digits starting with 6 to 9 get a 9 in front, other lengths stay. |
| `BrazilPhone.KeyMeans` | frontend/lib/utils.ts:41-65 | The key is +55 and the normalised number where the gateway has digits, else + and the raw digits, nothing for nothing. |
| `BrazilPhone.FormatRoundTrip` | frontend/lib/utils.ts:67-79 | A formatted number normalises to the same digits, for every input. |
| `BrazilPhone.MaskDigits` | frontend/lib/utils.ts:81-97 | The mask shows the first eleven normalised digits. |
| `BrazilPhone.MaskIdempotent` | frontend/lib/utils.ts:81-97 | Masking a masked value changes nothing. |
| `BrazilPhone.FormatMeans` | frontend/lib/utils.ts:67-79 | Eleven digits as (dd) ddddd-dddd, ten as (dd) dddd-dddd, character by character; anything else as it came. |
| `BrazilPhone.MaskMeans` | frontend/lib/utils.ts:81-97 | Each length of the mask, character by character. |
| `NotificationCache.NotificationCenter.SuppressNotification` | frontend/components/layout/topbar.tsx:178-216 | Suppressing updates the cache and asks for the read once per id. |
| `NotificationCache.NotificationCenter.OnSilentReadFailed` | frontend/components/layout/topbar.tsx:141-151 | A failed read request frees the id again. |
| `NotificationCache.NotificationCenter.OnStreamEvent` | frontend/components/layout/topbar.tsx:281-408 | A stream event updates the cache; a hidden created notification is suppressed and read. |
| `NotificationCache.NotificationCenter.BeginMarkAllRead` | frontend/components/layout/topbar.tsx:249-267 | The optimistic update, answering the snapshot to roll back to. |
| `NotificationCache.NotificationCenter.RollBackMarkAllRead` | frontend/components/layout/topbar.tsx:271-275 | A failed mark-all restores the snapshot when there was one. |
| `NotificationCache.NotificationCenter.OpenNotification` | frontend/components/layout/topbar.tsx:478-510 | Opening updates the cache after its read request succeeded. |
| `NotificationCache.RunKeepsWellFormed` | frontend/components/layout/topbar.tsx:178-510 | Any run of stream events and local steps keeps ids distinct and at most twelve items. |
| `NotificationCache.RunNeverClearsReadAt` | frontend/components/layout/topbar.tsx:178-510 | Over any run a listed notification's read stamp is never cleared nor changed. |
| `NotificationCache.CreatedIsUnreadIffUnlisted` | frontend/components/layout/topbar.tsx:390-399 | A created event keeps a listed notification's stamp; one that is not listed comes in unread. |
| `NotificationCache.MarkingCounts` | frontend/components/layout/topbar.tsx:202-209 | Marking an id read lowers the unread items by one exactly when it was unread and its stamp was not blank. |
| `NotificationCache.FirstIsUnreadIffHas` | frontend/components/layout/topbar.tsx:193-196 | With distinct ids the two ways of asking whether an id is unread agree. |
| `NotificationCache.DropsExactlyIff` | frontend/components/layout/topbar.tsx:187-211 | Suppressing and opening are the same update, and lower the counter by exactly the items they newly read if and only if the counter has room for it. |
| `NotificationCache.CoveringCounterStaysExact` | frontend/components/layout/topbar.tsx:483-510 | While the counter covers the unread items and no stamp is blank, suppress and open are exact and keep it covering. |
| `NotificationCache.OpenKeepsCoveringIff` | frontend/components/layout/topbar.tsx:483-510 | Opening keeps the counter at or above the unread items except for a blank-stamped item under a tight counter. |
| `NotificationCache.MarkAllKeepsCoveringIff` | frontend/components/layout/topbar.tsx:254-264 | The zero counter of mark-all is right exactly when no stamp is blank. |
| `NotificationCache.LocalRunKeepsCovered` | frontend/components/layout/topbar.tsx:178-510 | Any run of suppress, open and mark-all keeps a covering counter covering and, without mark-all, lowers it by exactly the items newly read. |
| `NotificationCache.EmptyCounterCannotDrop` | frontend/components/layout/topbar.tsx:496-499 | A counter of zero does not follow an unread item that is opened. |
| `NotificationCache.BlankStampBreaksCounter` | frontend/components/layout/topbar.tsx:491-505 | Opening an item stamped with the empty string lowers the counter but not the unread items. |
| `NotificationCache.PushedOutComesBackUnread` | frontend/components/layout/topbar.tsx:390-399 | A read item pushed out of a full list and created again is unread. |
| `NotificationCache.OpenMeans` | frontend/components/layout/topbar.tsx:483-510 | Suppressing and opening, item by item and with the counter. |
| `NotificationCache.MarkAllMeans` | frontend/components/layout/topbar.tsx:254-264 | Mark-all, item by item and with the counter. |
| `NotificationCache.ReadEventsMean` | frontend/components/layout/topbar.tsx:344-371 | Read and read-all events, item by item, with the event's counter if it has one. |
| `NotificationCache.CreatedMeans` | frontend/components/layout/topbar.tsx:390-399 | A created event puts its notification first, unread, unless listed, and keeps the first twelve. |
| `NotificationCache.HiddenMeans` | frontend/components/layout/topbar.tsx:376-388 | A created event of the conversation being read adds nothing, reads the items with its id and counts one less. |
| `NotificationCache.OtherEventsMeanNothing` | frontend/components/layout/topbar.tsx:402 | Any other event changes nothing. |

## Left out

- Characters are code points; JavaScript's are UTF-16 units. The markers, fences, digits and white space are all single
  units, so no slice the modelled code takes splits a pair.
- The component shows a blank line as a no-break space and an empty code block as one space, and renders nothing for a
  blank message (whatsapp-formatted-text.tsx:29-31,59,69).
- A visit's answers are given beforehand as a function of chat and pass: fetching (with the limit of 12 messages on
  retries), contact and profile-picture lookups, normalisation and media download of one message are one reading, which
  may fail. The client's own history sync before fetching is an await point whose answer is ignored, as in the source.
- `GatewaySession.WhatsAppSession.SyncHistory`: one sync body runs as one method whose await points let any other call
  or event run; the order of promise callbacks between the end of a sync and its `finally` callback is one such point.
- `GatewaySession.WhatsAppSession.SelectChats`: a chat is its id and whether it is archived; the two archive flags of
  the client library are one.
- `GatewaySession.WhatsAppSession.Start`: only the desired state; initialising a client, its recovery, the QR fields and
  status strings are not modelled, nor is the absence of a client after `stop`, which the code does not guarantee.
- Time stamps and the duration of a sync result, and the transport's failures, which `emit` swallows
  (whatsapp-session.ts:1295-1318): the logs record what was handed to the transport.
- `RecipientRouting.SendMessage`: lower-casing the error message covers ASCII letters, which is exact for the three
  phrases looked for; the message content and options are not modelled.
- `LidCache.LidPhoneCache.ResolvePeerContact`: the directory answers the same all through; the profile-picture cache is
  not modelled, as its content depends on which contact was looked up first.
- `GatewayRegistry.RegistryStore.Load`: reading the JSON text back into the document that was written is taken for
  granted, metadata being one opaque value; a document whose entries are not an array counts as corrupt.
- `GatewayRegistry.SessionManager.OnRegister`: requests run one after the other; a managed session is its desired state
  inside the map, and whether its status is "stopped" comes with the request. Auto-starts at boot leave the desired
  state as a new session has it.
- `EmbeddedSignup.SignupPromise.Sdk`: opening the popup, loading the SDK and the errors thrown before the promise
  exists; `event.data` is taken as already parsed, with the event name in upper case.
- `NotificationCache.NotificationCenter.OnStreamEvent`: the fields of a notification other than id and read stamp are
  one opaque value, whether it belongs to the conversation being read is a parameter, events that cannot be parsed only
  cause a refetch, and refetches replace the cache.
- Encryption and signatures, HTTP, the database, permissions, the web interface and configuration: thin wrappers or easy
  members.
