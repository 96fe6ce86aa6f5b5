# Verified model of inspect-http-proxy-plus

A Dafny model of the parts of this HTTP inspection proxy whose correctness spans
several functions, threads or processes, with machine-checked proofs about every run
or every input. `dafny verify dfyconfig.toml` checks it.

| file | what it models |
|---|---|
| `HubSpec.dfy` | the WebSocket hub as a state machine: register, unregister, subscribe, unsubscribe, broadcast, take |
| `WsHub.dfy` | the hub and its clients as objects updated in place, each method proved equal to a step of `HubSpec` |
| `Provider.dfy` | the browser's callback registry, and both ends of one connection over the messages in flight |
| `SessionDb.dfy`, `Reaper.dfy` | the session table, and the reaper as separate count, select, delete and publish steps |
| `Feed.dfy`, `FeedCoverage.dfy`, `FeedGaps.dfy`, `FeedNewestFirst.dfy` | the history page's list: paging mixed with live notifications; no gap and no duplicate, the two runs that break it, and the ordinary case that needs no condition |
| `FeedFirstPage.dfy`, `FeedTurns.dfy`, `FeedOrder.dfy`, `FeedOvertaking.dfy` | the exact order of that list: one page, one notification ahead of others, whole runs, and the run that breaks it |
| `HubFeed.dfy` | the hub and the feed together: what is published is what a subscribed page is sent |
| `Base64.dfy`, `Shell.dfy`, `Utf8.dfy`, `Curl.dfy` | the cURL generator, read back by a POSIX shell lexer (POSIX.1-2017, Shell Command Language, sections 2.2.1, 2.2.2 and 2.3; RFC 4648, sections 3.5 and 4; RFC 3629, section 3) |
| `GoQuote.dfy`, `JsonPrinter.dfy`, `JsonRoundTrip.dfy`, `JsonFormatter.dfy` | the coloured JSON printer, a decoder for its output, and the builder-appending code |
| `SessionIndex.dfy`, `Bookmarks.dfy` | the two full-text indexes kept by triggers; bookmarks as snapshots |
| `Registry.dfy`, `RegistryReach.dfy`, `RegistrySessions.dfy`, `RegistryObjects.dfy` | configuration rows, the process-wide store, start, stop and delete; servers out of reach; sessions and their configurations; the code |
| `DaemonMerge.dfy` | the daemon's merge of proxies and the client's filter before it |
| `SseRelay.dfy` | the event-stream relay loop with its reused buffer, and the buffered path |
| `Lists.dfy`, `Options.dfy` | filtering, paging, optional values |

## What the proofs say about the code

Where the code does not meet a property everywhere, the model keeps the code as it is
and says exactly when it does.

* The eviction branch of the hub closes a slow client's channel and leaves the client in
  the topic sets. A broadcast panics exactly when some evicted client still has the topic
  (`PanicIffEvictedSubscriber`); 257 broadcasts to a client that reads nothing and one more
  do it (`AsWrittenCanCrash`). `AsWritten` is the code. `Intended` also drops the evicted
  client's subscriptions and refuses new ones, and never panics (`IntendedNeverCrashes`).
* The comment on `Publish` speaks of a full channel. The channel has no buffer, so a
  message is dropped whenever the hub goroutine is not waiting at its `select`.
* A page fetched while a reap has selected rows and not deleted them can leave a gap
  (`UnsettledFetchLeavesGap`). It leaves none exactly when the sessions that the reap will
  move up are on the page already, are listed, or are about to be announced
  (`FetchThenReapIff`); this holds whenever the selected rows are still the tail of the table
  (`SettledIfTail`).
* The reaper publishes a deletion after it has deleted. A session that finishes in between is
  stored again, and the late deletion takes it off the list (`LateDeletionLeavesGap`).
  Publishing a deletion does no harm exactly when each session it names that is stored again
  is still to be announced (`PublishKeepsInvIff`, `PublishCoversIff`).
* No session stored behind one that a reap has selected, and none under an id about to be
  published as deleted: no gap and no duplicate, whenever pages are fetched and notifications
  published (`NoGapNewestFirst`).
* Each notification is published by the goroutine that made the change, so two requests can be
  announced the wrong way round; the list then shows the older session in front
  (`OvertakingBreaksOrder`). A notification published ahead of others keeps the order, and then
  changes nothing, exactly when a deletion deletes before nothing they announce, and an
  announcement shows no older content than theirs and passes no session still to enter the list
  (`PublishOrderIff`, `AheadIff`). With the k newest sessions unannounced, only the first of
  them may be published next (`NewsTurnIff`).
* A new session of the configuration outside the date range is put in front of the list although
  the query excludes it: a start keeps the order exactly when the session is of another
  configuration, or is selected and newer than all that are (`StartOrderIff`).
* A later page merged while new sessions are still to be announced keeps the order exactly
  when none of them is on that page, the first page exactly when all of them are
  (`FetchOrderIff`); whatever is still to come, the first page keeps it exactly when each
  session still to be announced is on it or will be removed again (`FirstPageOrderIff`).
* The generated cURL command reads back as intended exactly when no shown header name and
  not the URL has a single quote (`LexesIff`). A captured body is decoded to one character
  per byte and reaches curl as UTF-8: as captured exactly when all its bytes are ASCII, and
  longer otherwise (`CapturedBodyArrivesIff`, `AccentArrivesAsFourBytes`). A body given as
  plain text is changed exactly when it happens to be a canonical base64 encoding
  (`PlainBodyUnchangedIff`).
* Object keys are printed unescaped: the JSON output decodes to its tree exactly when keys
  and number literals are free of the escape character (`RoundTripIff`), and two trees with
  such keys can print alike (`EscapesInKeysCollide`).
* The update trigger of the session index keeps table and index together exactly when the
  update leaves the primary key alone (`UpdateAgreesIff`); that of the bookmark index is a
  whole re-indexing exactly when no other indexed column changes (`PartialUpdateIff`).
* Starting an entry that is running already replaces its server in the store. A listening
  server is out of reach of a stop exactly when such a start, or one without a database, lost
  it (`OutOfReachIff`).
* Deleting a configuration deletes its sessions, but a request that has not finished saves its
  session afterwards, for a configuration that is gone (`LateFinishLeavesUnbackedSession`);
  so does a lost server (`LostServerLeavesUnbackedSession`). Sessions and configurations stay
  together, whatever happens next, exactly when no configuration was deleted while a request
  of it was unfinished or a server of it could still store one (`SessionsBackedIff`).
* The client's filter before a merge changes nothing, whatever is handed over, exactly when
  the daemon's answer has a list of proxies and names no address that the daemon's own list
  lacks (`FilterIsSafeIff`). A proxy created through the HTTP API is in the answer and not in
  that list.
* The relay logs the upstream body exactly when no write to the client fails
  (`CapturedIff`); the buffered path logs it either way.
* The migration's comment calls the fingerprint a hash of source path, directory and
  configuration. The code hashes the configuration alone, its `active` and `error` fields
  included, and the model follows the code.

## Model

| member | source | states |
|---|---|---|
| `HubSpec.ReachableInv` | pkg/web/api/ws.go:75-193 | in every reachable state a channel is open exactly while its client is registered or being registered, no queue exceeds 256, and for every client not cleanly unregistered the two indexes agree on every topic |
| `HubSpec.InvKept` | pkg/web/api/ws.go:75-193 | every step of either variant that does not panic keeps that invariant |
| `HubSpec.DeliverPrefix` | pkg/web/api/ws.go:96-108 | sending to the subscribers one at a time, in any order, is the same as sending to all at once |
| `HubSpec.BroadcastAnyOrder` | pkg/web/api/ws.go:96-108 | in every reachable state with open subscribers, every visiting order of the topic's map yields the same queues, closed channels and registered set |
| `HubSpec.PanicIffEvictedSubscriber` | pkg/web/api/ws.go:83-106 | a step panics exactly when it is a broadcast to a topic that an evicted client still has; no channel is ever closed twice |
| `HubSpec.IntendedNeverCrashes` | pkg/web/api/ws.go:96-108 | the intended hub panics in no run |
| `HubSpec.NoCrashBeforeEviction` | pkg/web/api/ws.go:83-106 | the hub as written cannot panic before its first eviction |
| `HubSpec.AsWrittenCanCrash` | pkg/web/api/ws.go:100-105 | a concrete run: 257 broadcasts to one idle client leave the hub running, the 258th panics |
| `HubSpec.SubscribersAreLive` | pkg/web/api/ws.go:83-106 | every unevicted subscriber (in the intended hub, every subscriber) is registered, or in the middle of it, and its channel open |
| `HubSpec.UnregisterClearsEveryTopic` | pkg/web/api/ws.go:83-93 | visiting only the client's own topics removes it from every topic set and touches no other client |
| `HubSpec.StreamStep` | pkg/web/api/ws.go:96-123 | what one step does to one client's stream of taken and queued messages, and when it evicts the client |
| `HubSpec.FifoDelivery` | pkg/web/api/ws.go:96-128 | over every run, taken messages followed by the queue equal, in order, the broadcasts made while the client was subscribed; for an evicted client, those up to the broadcast that found its queue full |
| `HubSpec.TakenIsHeard` | pkg/web/api/ws.go:117-128 | over every run the n receives of a client have handed over the first n messages broadcast while it was subscribed, one each |
| `WsHubObjects.WsClient.constructor` | pkg/web/api/ws.go:138-143 | a new client has an empty open queue and no topics |
| `WsHubObjects.WsClient.HandleSubscribe` | pkg/web/api/ws.go:164-178 | equals the subscribe step, or nothing without a topic, and keeps the hub's invariant |
| `WsHubObjects.WsClient.Enter` | pkg/web/api/ws.go:170-176 | both indexes gain the entry and nothing else changes |
| `WsHubObjects.WsClient.HandleUnsubscribe` | pkg/web/api/ws.go:180-193 | equals the unsubscribe step, or nothing without a topic, and keeps the hub's invariant |
| `WsHubObjects.WsClient.Leave` | pkg/web/api/ws.go:186-191 | both indexes lose the entry and nothing else changes |
| `WsHubObjects.WsClient.Receive` | pkg/web/api/ws.go:117 | takes the oldest queued message and leaves the others |
| `WsHubObjects.WsHub.constructor` | pkg/web/api/ws.go:46-54 | the empty hub satisfies the invariant |
| `WsHubObjects.WsHub.Accept` | pkg/web/api/ws.go:78 | the receive from the register channel is the connect step |
| `WsHubObjects.WsHub.HandleRegister` | pkg/web/api/ws.go:78-81 | entering the client is the register step |
| `WsHubObjects.WsHub.DropFromTopics` | pkg/web/api/ws.go:87-91 | the loop over the client's topics removes it from exactly those topic sets |
| `WsHubObjects.WsHub.Remove` | pkg/web/api/ws.go:85-93 | the whole new state of the unregister arm for a registered client |
| `WsHubObjects.WsHub.HandleUnregister` | pkg/web/api/ws.go:83-94 | equals the unregister step, for registered and evicted clients alike |
| `WsHubObjects.WsHub.TrySend` | pkg/web/api/ws.go:100-105 | one non-blocking send: queue the message, or close the channel and forget the client |
| `WsHubObjects.WsHub.SendNext` | pkg/web/api/ws.go:99-106 | one turn of the loop adds one client to those served |
| `WsHubObjects.WsHub.SendToAll` | pkg/web/api/ws.go:97-107 | the loop, in whatever order, either panics exactly when a subscriber's channel is closed or serves every subscriber |
| `WsHubObjects.WsHub.HandleBroadcast` | pkg/web/api/ws.go:96-108 | equals the broadcast step, or panics exactly when that step does |
| `WsHubObjects.WsHub.Publish` | pkg/web/api/ws.go:260-271 | a message is broadcast if the hub goroutine is waiting and dropped without effect otherwise |
| `Provider.LocalStepAgrees` | frontend/src/app/_components/websocket-provider.tsx:75-97 | adding or removing a callback keeps the server's eventual topics equal to the registry's topics |
| `Provider.ReplaySnoc` | pkg/web/api/ws.go:164-193 | sending one more message acts last on the server's topics |
| `Provider.WebSocketProvider.AddCallback` | frontend/src/app/_components/websocket-provider.tsx:75-84 | adds the callback to those of the topic and sends a subscribe message every time; no topic is left without callbacks |
| `Provider.WebSocketProvider.RemoveCallback` | frontend/src/app/_components/websocket-provider.tsx:86-97 | removes the callback and sends an unsubscribe message exactly when it was the last one; no topic is left without callbacks |
| `TwoEnded.AgreeKept` | frontend/src/app/_components/websocket-provider.tsx:75-97 | every step of browser, wire or hub keeps both ends in agreement |
| `TwoEnded.SubscriptionAgreement` | frontend/src/app/_components/websocket-provider.tsx:75-97 | at any moment of a connection, applying the messages in flight to the server's topics gives exactly the topics with a local callback |
| `TwoEnded.ListensIffAddedLast` | frontend/src/app/_components/websocket-provider.tsx:75-97 | at any moment of a connection a callback is called for a topic exactly when its last change there was an add |
| `TwoEnded.BroadcastReachesCallbacks` | pkg/web/api/ws.go:96-108 | with nothing in flight, a broadcast joins this client's stream exactly when a callback listens to its topic, or finds its queue full and evicts it |
| `SessionDb.SaveDistinct` | pkg/core/model_proxy_session.go:158-174 | saving a finished session, as update or as insert of a reaped row, keeps ids distinct |
| `SessionDb.FilterNewestFirst` | pkg/core/model_proxy_session.go:193-212 | a filtered query is newest first |
| `SessionDb.DeleteOldest` | pkg/core/reaper.go:61-83 | deleting the ids of the oldest rows leaves exactly the others |
| `SessionDb.FinishStoresResponse` | pkg/core/model_proxy_session.go:158-174 | saving a finished session leaves a row with the response's columns and the request's as stored, and no other row changes |
| `SessionDb.UnlimitedAnswer` | pkg/core/model_proxy_session.go:193-212 | without a limit the answer is exactly the rows of the configuration from since to until, both included, in the order of the table |
| `SessionDb.PagedAnswer` | pkg/core/model_proxy_session.go:206-208 | with a limit, row i of the answer is row offset + i of that one |
| `SessionDb.OnSomePageIff` | pkg/core/model_proxy_session.go:193-212 | a stored row is on some page exactly when it is of the configuration and within the bounds given |
| `Reaper.ReapBounds` | pkg/core/reaper.go:46-83 | with i rows added and d removed by others between count and delete, the final count lies between maxRetain + i - d and maxRetain + i |
| `Reaper.ReapAfterSelect` | pkg/core/reaper.go:61-83 | the same bounds for what happens between select and delete |
| `Reaper.SelectsOldest` | pkg/core/reaper.go:61-67 | whatever happened before the select, no selected row is newer than an unselected one |
| `Reaper.SelectionSize` | pkg/core/reaper.go:61-67 | the select yields that many distinct ids, each of a row that is present |
| `Reaper.OldestIdsAreOldest` | pkg/core/reaper.go:61-67 | the ids read oldest first are the ids of the table's last rows |
| `Reaper.MaxSessionRowsReaper.CountRows` | pkg/core/reaper.go:39-58 | goes on exactly when retention is positive, the count succeeds and exceeds it, and then knows by how much |
| `Reaper.MaxSessionRowsReaper.SelectOldest` | pkg/core/reaper.go:61-75 | holds exactly the oldest ids, or stops on an error or an empty answer |
| `Reaper.MaxSessionRowsReaper.DeleteSelected` | pkg/core/reaper.go:77-88 | deletes exactly the selected ids, or nothing on an error |
| `Reaper.MaxSessionRowsReaper.Reap` | pkg/core/reaper.go:38-99 | undisturbed, keeps exactly the newest maxRetain rows and publishes the ids of the others, oldest first |
| `Feed.MergedStub` | frontend/src/app/history/page.tsx:51-62 | merging a session shows it and what was shown, and nothing else |
| `Feed.ReceivedStub` | frontend/src/app/history/_components/with-configs-history.tsx:148-175 | which ids one notification adds or removes |
| `Feed.PresentReceive` | frontend/src/app/history/_components/with-configs-history.tsx:148-175 | which ids the list holds once a whole queue of notifications has been received |
| `Feed.ReceiveDistinct` | frontend/src/app/history/_components/with-configs-history.tsx:159-165 | a notification never makes an id appear twice |
| `Feed.MergePageDistinct` | frontend/src/app/history/_components/with-configs-history.tsx:130-143 | neither does merging a page |
| `Feed.WithConfigsHistory.OnSessionList` | frontend/src/app/history/_components/with-configs-history.tsx:130-146 | the merge effect: replace at offset 0, append unseen sessions otherwise, and stop loading |
| `Feed.WithConfigsHistory.OnMessage` | frontend/src/app/history/_components/with-configs-history.tsx:148-175 | the handler's whole effect on the list, other configurations' sessions ignored |
| `FeedCoverage.StepKeepsInv` | frontend/src/app/history/_components/with-configs-history.tsx:130-202 | every step (change, publication, receipt, load-more, fetch) keeps the first offset + 50 rows listed or to be listed, now and after the reap under way, if it is no unsettled fetch and no late deletion |
| `FeedCoverage.FetchLoads` | pkg/core/model_proxy_session.go:193-212 | after a page is merged, a row is listed or to be listed exactly when it is among the first offset + 50 or had been announced |
| `FeedCoverage.FetchThenReapIff` | frontend/src/app/history/_components/with-configs-history.tsx:130-143 | fetching a page and completing the reap under way leaves no gap exactly when the moment was settled |
| `FeedCoverage.PublishKeepsInvIff` | pkg/core/reaper.go:77-98 | publishing keeps the whole invariant exactly when a published deletion names no stored session but those still to be announced |
| `FeedCoverage.PublishCoversIff` | pkg/core/reaper.go:77-98 | publishing a deletion hides one of the first offset + 50 sessions exactly when it names one that is stored again and already announced |
| `FeedCoverage.NoGapNoDuplicate` | frontend/src/app/history/_components/with-configs-history.tsx:130-202 | with nothing to be published or received, the list has distinct ids and every session among the first offset + 50 of the server's order, after any run of inserts anywhere, finishes, reaps, publications in any order, receipts and load-more whose fetches were settled and deletions published in time |
| `FeedCoverage.NoGapOnceReceived` | frontend/src/app/history/_components/with-configs-history.tsx:130-175 | at any moment the list that the notifications in flight lead to has the session, or its announcement is still to be published |
| `FeedCoverage.ShortPageIsComplete` | frontend/src/app/history/_components/with-configs-history.tsx:189-193 | when a page of fewer than 50 rows was merged, the list held every session, or notifications in flight lead to it |
| `FeedGaps.UnsettledFetchLeavesGap` | frontend/src/app/history/_components/with-configs-history.tsx:131-134 | a run in which a page fetched between a reap's select and delete leaves a gap |
| `FeedGaps.LateDeletionLeavesGap` | pkg/core/reaper.go:77-98 | a run in which a session finishes between the reaper's delete and its publication and is lost from the list |
| `FeedNewestFirst.SettledIfTail` | pkg/core/reaper.go:61-67 | a moment is settled whenever the selected rows are exactly the tail of the table |
| `FeedNewestFirst.SettledWithoutReap` | pkg/core/reaper.go:61-67 | a moment without a reap under way is settled |
| `FeedNewestFirst.TimelyIfNoneCondemned` | pkg/core/reaper.go:92-98 | a deletion is published in time whenever no stored session is about to be published as deleted |
| `FeedNewestFirst.NewestFirstIsOnCourse` | frontend/src/app/history/_components/with-configs-history.tsx:130-202 | a run that stores no session behind a selected one, nor under an id about to be published as deleted, meets every condition |
| `FeedNewestFirst.NoGapNewestFirst` | frontend/src/app/history/_components/with-configs-history.tsx:130-202 | such a run leaves no gap and no duplicate, with no condition on fetches and publications |
| `FeedFirstPage.CoreReceiveAll` | frontend/src/app/history/page.tsx:51-62 | receiving any notifications leaves a page's rows in their order, each as last announced |
| `FeedFirstPage.FirstPageOrderIff` | frontend/src/app/history/_components/with-configs-history.tsx:131-134 | the first page merged with anything still to come ends as a prefix of the server's order, and then as the page itself, exactly when each session still to be announced is on it or will be removed again |
| `FeedCoverage.ReapedInsert` | pkg/core/reaper.go:61-83 | inserting a row and deleting selected ones commute |
| `FeedTurns.EarlierEntryIff` | frontend/src/app/history/page.tsx:51-62 | a session merged before others instead of after them ends in the same place, whatever follows, exactly when it was listed or none of them had yet to enter |
| `FeedTurns.ReceiveAllEnters` | frontend/src/app/history/page.tsx:51-62 | stored sessions enter the list at its front, each with the first of its announcements, and keep their places |
| `FeedTurns.ShownAsAnnounced` | frontend/src/app/history/page.tsx:51-62 | each row shown is what was announced of it last, or was there from the start |
| `FeedTurns.AheadIff` | pkg/core/proxy.go:98-110 | a notification published ahead of any others leaves the list to come a prefix of the server's order, and then the same list, exactly when it is in turn |
| `FeedOrder.MergeOrderIff` | frontend/src/app/history/page.tsx:51-62 | a new session keeps the list a prefix of the server's order exactly when it is the newest |
| `FeedOrder.StartOrderIff` | frontend/src/app/history/_components/with-configs-history.tsx:159-165 | a stored session, announced, keeps the list a prefix of what the query selects exactly when it is of another configuration, or is selected and newer than all that are |
| `FeedOrder.FinishOrderIff` | frontend/src/app/history/page.tsx:51-62 | a finished session keeps it a prefix exactly when the list has it |
| `FeedOrder.FetchOrderIff` | frontend/src/app/history/_components/with-configs-history.tsx:131-143 | with the k newest sessions still unannounced, merging a later page keeps the list a prefix exactly when none of them is on it, merging the first page exactly when all of them are |
| `FeedOrder.PublishOrderIff` | pkg/core/proxy.go:225-234 | in every ordered state publishing any of the changes made, first or not, keeps the order exactly when it is in turn |
| `FeedOrder.NewsTurnIff` | pkg/core/proxy.go:98-110 | with the k newest sessions still unannounced, publishing one of them next keeps the list a prefix exactly when it is the oldest |
| `FeedOrder.QuietMerge` | frontend/src/app/history/_components/with-configs-history.tsx:136-165 | merging a page and receiving notifications commute when none of them concerns a row of the page |
| `FeedOrder.StepKeepsOrder` | frontend/src/app/history/_components/with-configs-history.tsx:130-202 | every step under its condition keeps the list to come a prefix of the server's order, at least min(offset + 50, rows) long from the first page on |
| `FeedOrder.ExactOrder` | frontend/src/app/history/_components/with-configs-history.tsx:130-202 | the same over every run whose steps met their conditions, date filters and publications in any harmless order included |
| `FeedOrder.ListIsServerPrefix` | frontend/src/app/history/_components/with-configs-history.tsx:130-202 | with nothing to be published or received, the list shown is row for row a prefix of the server's newest-first order, at least min(offset + 50, rows) long |
| `FeedOrder.ListShowsServerRows` | frontend/src/app/history/_components/with-configs-history.tsx:130-202 | with nothing to be published or received, entry i of the list shows the columns of row i among the stored sessions of the configuration within the date bounds |
| `FeedOrder.FinishAnnounces` | pkg/core/model_proxy_session.go:142-174 | a finished request is stored and announced with its response's status and duration and the columns it was stored with |
| `FeedOvertaking.OvertakingBreaksOrder` | pkg/core/proxy.go:98-110 | a run in which two requests begin, the second is announced first, and the list ends with the older in front |
| `HubFeed.NoneLost` | frontend/src/app/history/_components/with-configs-history.tsx:148-175 | what was in flight and what was published is, in order, what was received and what is in flight |
| `HubFeed.StreamGainsPublished` | pkg/web/api/ws.go:96-128 | for a connection that stays subscribed to the sessions topic and is not evicted, its stream gains on that topic exactly the notifications published, in order |
| `Base64.EncodeDigits` | frontend/src/lib/curl-gen-util.ts:30-33 | only alphabet digits, and how many |
| `Base64.DigitsInOrder` | frontend/src/lib/curl-gen-util.ts:30-33 | the table of digits: upper-case letters, lower-case letters, figures, plus sign and slash |
| `Base64.GroupBits` | frontend/src/lib/curl-gen-util.ts:30-33 | four digits are the 24 bits of three bytes, the high bits first |
| `Base64.LastBits` | frontend/src/lib/curl-gen-util.ts:30-33 | one or two bytes left over are filled up with zero bits and padding |
| `Base64.EncodeByGroups` | frontend/src/lib/curl-gen-util.ts:30-33 | a byte string is encoded in groups of three |
| `Base64.RoundTrip` | frontend/src/lib/curl-gen-util.ts:42-48 | decoding a canonical encoding returns the bytes |
| `Base64.RecognisesCanonical` | frontend/src/lib/curl-gen-util.ts:16-37 | the recogniser accepts a string exactly when it is the canonical padded encoding of some non-empty byte string |
| `Utf8.BinaryTextIff` | frontend/src/lib/curl-gen-util.ts:42-48 | one character per byte, encoded as UTF-8, gives the bytes back exactly when all are ASCII |
| `Utf8.EncodedBits` | frontend/src/lib/curl-gen-util.ts:42-48 | the bytes of a character are the fewest that hold it, and its code point can be read off their bits |
| `Shell.EscapeReads` | frontend/src/lib/curl-gen-util.ts:73-96 | inside single quotes, an escaped text reads back as that text, quotes, backslashes and newlines included |
| `Shell.LastWordIff` | frontend/src/lib/curl-gen-util.ts:99-100 | the quoted URL ends the command as one word exactly when it has no single quote |
| `Shell.NameCosts` | frontend/src/lib/curl-gen-util.ts:75 | a single quote in a header name always costs its word a character |
| `Curl.AppendHeaders` | frontend/src/lib/curl-gen-util.ts:63-77 | the loop writes one part per non-null header, in order |
| `Curl.AppendBody` | frontend/src/lib/curl-gen-util.ts:79-97 | the body part, decoded when it is base64, or nothing |
| `Curl.GenerateCurlCommand` | frontend/src/lib/curl-gen-util.ts:53-103 | the command, and that a shell reads it as curl, optional -X M, one -H per shown header, optional -d body, then the URL, exactly when shown names and URL are quote-free |
| `Curl.LexesIff` | frontend/src/lib/curl-gen-util.ts:53-103 | that equivalence for every method word, header values and body |
| `Curl.CommandWords` | frontend/src/lib/curl-gen-util.ts:53-103 | of a command that reads back, every word: curl; -X and the method with its ASCII letters raised, unless it is empty or GET in any case; -H, name and value of each header that is not null or empty, in order; -d and the body unless empty; the URL |
| `Curl.JoinIsJoined` | frontend/src/lib/curl-gen-util.ts:69-71 | the text of a header with several values has each at its place, a comma and a blank between neighbours, and nothing else |
| `Curl.CommandText` | frontend/src/lib/curl-gen-util.ts:53-103 | the whole text for one request, character by character |
| `Curl.CapturedBodyArrivesIff` | frontend/src/lib/curl-gen-util.ts:79-96 | of a command that reads back, the word after -d is, as UTF-8, the captured bytes exactly when all of them are ASCII, and longer otherwise |
| `Curl.AccentArrivesAsFourBytes` | frontend/src/lib/curl-gen-util.ts:79-96 | the captured bytes C3 A9 arrive as C3 83 C2 A9 |
| `Curl.PlainBodyUnchangedIff` | frontend/src/lib/curl-gen-util.ts:79-96 | of a command that reads back, the word after -d is a body given as text exactly when that is no canonical encoding |
| `GoQuote.UnquoteReads` | pkg/core/console_sink.go:302-304 | quoted text followed by anything is read back to that text, whatever counts as printable |
| `GoQuote.CharExact` | pkg/core/console_sink.go:302-304 | how each character is written: nine by name, the rest of ASCII as itself or in two digits, beyond ASCII as itself or in four or eight digits |
| `GoQuote.PlainIsItself` | pkg/core/console_sink.go:302-304 | printing ASCII text without quote and backslash is written as itself between quotes |
| `GoQuote.QuoteConcat` | pkg/core/console_sink.go:302-304 | characters are written one by one |
| `JsonPrinter.LeqIff` | pkg/core/console_sink.go:271 | the order of keys: the first difference decides, and a prefix comes first |
| `JsonPrinter.SortedKeys` | pkg/core/console_sink.go:267-271 | every key once, in strictly increasing order |
| `JsonPrinter.UpToEscape` | pkg/core/console_sink.go:277 | splits the text at its first escape character |
| `JsonRoundTrip.ValueReads` | pkg/core/console_sink.go:259-315 | a printed tree followed by anything is decoded to the tree and that rest |
| `JsonRoundTrip.MembersRead` | pkg/core/console_sink.go:272-282 | the printed members of an object are decoded to that part of the map |
| `JsonRoundTrip.ItemsRead` | pkg/core/console_sink.go:290-300 | the printed items of an array are decoded to the sequence |
| `JsonRoundTrip.DecodedIsEscapeFree` | pkg/core/console_sink.go:277 | whatever is decoded has escape-free keys and literals |
| `JsonRoundTrip.RoundTripIff` | pkg/core/console_sink.go:259-315 | at every starting indent, the output decodes to the tree exactly when keys and literals are escape-free |
| `JsonRoundTrip.PrinterIsInjective` | pkg/core/console_sink.go:259-315 | on such trees equal output means equal trees |
| `JsonRoundTrip.PrintedText` | pkg/core/console_sink.go:259-315 | the whole output for one tree, colours, commas and indents included |
| `JsonRoundTrip.EscapesInKeysCollide` | pkg/core/console_sink.go:277 | two different trees, one with an escape in a key, that print alike |
| `JsonFormatter.FormatJSON` | pkg/core/console_sink.go:259-315 | the recursive writer appends exactly the printed tree to the builder, and the outdent slice is always in range |
| `JsonFormatter.FormatMembers` | pkg/core/console_sink.go:272-282 | the loop over the sorted keys with its first flag appends exactly the printed members |
| `JsonFormatter.FormatItems` | pkg/core/console_sink.go:290-300 | the loop over the items appends exactly the printed items |
| `SessionIndex.LikeIff` | migrations/000003_add_proxy_sessions_fts.up.sql:95-103 | a LIKE pattern of the projections holds exactly when some part of the content type is the word, case aside |
| `SessionIndex.IndexedColumns` | migrations/000003_add_proxy_sessions_fts.up.sql:71-115 | which column each indexed field holds, and for which content types a body is indexed |
| `SessionIndex.PopulateAgrees` | migrations/000003_add_proxy_sessions_fts.up.sql:24-67 | the migration makes the index agree with any existing table |
| `SessionIndex.InsertAgrees` | migrations/000003_add_proxy_sessions_fts.up.sql:71-115 | the insert trigger keeps exactly one projected row per session |
| `SessionIndex.UpdateAgreesIff` | migrations/000003_add_proxy_sessions_fts.up.sql:117-147 | the update trigger keeps the index in agreement exactly when the update leaves the primary key alone |
| `SessionIndex.DeleteAgrees` | migrations/000003_add_proxy_sessions_fts.up.sql:149-152 | the delete trigger keeps it in agreement |
| `SessionIndex.SessionTables.constructor` | migrations/000003_add_proxy_sessions_fts.up.sql:24-67 | table and index agree after the migration |
| `SessionIndex.SessionTables.Create` | pkg/core/model_proxy_session.go:98-140 | inserts the row and keeps table and index in agreement |
| `SessionIndex.SessionTables.Update` | pkg/core/model_proxy_session.go:158-174 | overwrites the row of that id and keeps table and index in agreement |
| `SessionIndex.SessionTables.Upsert` | pkg/core/model_proxy_session.go:173 | Save: overwrites the row or inserts it again, table and index in agreement |
| `SessionIndex.SessionTables.DeleteWhere` | pkg/core/reaper.go:77-83 | deletes exactly the rows with these ids, one trigger per row, table and index in agreement |
| `SessionIndex.SessionTables.Search` | pkg/core/model_proxy_session.go:310-331 | the rows of the configuration whose own projection matches, in the order of the table, from the offset up to the limit; newest first and without duplicates |
| `SessionIndex.SearchIsFilter` | pkg/core/model_proxy_session.go:320-327 | the join with the index is a filter of the base table in its order |
| `SessionIndex.LimitRows` | pkg/core/model_proxy_session.go:326 | row i found is hit offset + i; a negative limit is none |
| `SessionIndex.IndexAlwaysAgrees` | migrations/000003_add_proxy_sessions_fts.up.sql:24-152 | through every run of inserts, upserts and deletes the index holds exactly one row per session, equal to its projection |
| `SessionIndex.OrderIsKept` | pkg/core/model_proxy_session.go:98-174 | rows stored where their timestamps belong stay newest first through every run |
| `SessionIndex.SearchAfterAnyRun` | pkg/core/model_proxy_session.go:310-331 | from the migration on, every search is the base table filtered and paged, newest first and without duplicates |
| `Bookmarks.InsertAgrees` | migrations/000004_add_proxy_bookmarks.up.sql:69-96 | the insert trigger keeps exactly one whole projection per bookmark |
| `Bookmarks.UpdateAgrees` | migrations/000004_add_proxy_bookmarks.up.sql:98-103 | updating note and tags only keeps the index equal to a whole re-indexing |
| `Bookmarks.DeleteAgrees` | migrations/000004_add_proxy_bookmarks.up.sql:105-107 | the delete trigger keeps it so |
| `Bookmarks.StepKeepsInv` | pkg/core/model_proxy_bookmark.go:69-154 | create, read, save and delete keep distinct ids, newest-first order, index agreement and every copied column as created |
| `Bookmarks.RunKeepsInv` | pkg/core/model_proxy_bookmark.go:69-154 | the same over every run, an update's read and save being separate steps |
| `Bookmarks.OriginIsCreation` | pkg/core/model_proxy_bookmark.go:69-123 | every recorded original was made by one creation from a session stored at that moment |
| `Bookmarks.SnapshotAndIndex` | pkg/core/model_proxy_bookmark.go:69-149 | over every run a bookmark's copied columns are those of its session at creation, and its only index row holds its note, its tags and the projection of its copy |
| `Bookmarks.FitsSomewhere` | pkg/core/model_proxy_bookmark.go:190-192 | a bookmark of any age has a place in the newest-first order |
| `Bookmarks.ListedIsWanted` | pkg/core/model_proxy_bookmark.go:176-183 | the two WHERE clauses select exactly the bookmarks of the configuration whose own row matches |
| `Bookmarks.BookmarkStore.CreateBookmark` | pkg/core/model_proxy_bookmark.go:69-123 | creates the snapshot of the session and its configuration, without note and tags, when the session exists, and nothing otherwise |
| `Bookmarks.BookmarkStore.FetchForUpdate` | pkg/core/model_proxy_bookmark.go:136-139 | reads the row, and fails exactly when there is none |
| `Bookmarks.BookmarkStore.SaveUpdate` | pkg/core/model_proxy_bookmark.go:141-146 | stores the row as it was read with this note and these tags, and changes no other; a bookmark deleted meanwhile comes back |
| `Bookmarks.BookmarkStore.DeleteBookmark` | pkg/core/model_proxy_bookmark.go:152-154 | no bookmark of that id is left, and the others stay |
| `Bookmarks.BookmarkStore.GetBookmarks` | pkg/core/model_proxy_bookmark.go:170-199 | the total and the page of exactly the bookmarks of the configuration, if one is given, whose own index row matches, newest first |
| `Registry.GetOrCreateKeepsRows` | pkg/core/model_proxy_config.go:41-82 | at most one row per fingerprint, also when another process inserted it first; an id is missing only when the database failed, and an id returned is that of the entry's row |
| `Registry.StepKeepsInv` | pkg/core/proxy.go:267-396 | start, stop, delete, failing servers and requests keep the registry's invariant |
| `Registry.RunKeepsInv` | pkg/core/proxy.go:267-396 | over every run ids are distinct and equal to the configurations' keys, running servers are among them, each running id has a row whose address and target it serves, at most one row per fingerprint |
| `Registry.RowStep` | pkg/web/api/api_configs.go:197-213 | a known row goes exactly when its configuration is deleted, and never comes back |
| `Registry.RowStays` | pkg/web/api/api_configs.go:209-211 | any stored row stays unless its own configuration is deleted |
| `Registry.SessionStep` | pkg/web/api/api_configs.go:203-208 | a stored session goes exactly by a deletion of its own configuration or a prune that names it, and one comes exactly by a request that begins or is saved again |
| `Registry.SessionLostBy` | pkg/web/api/api_configs.go:203-208 | over every run a session that is gone was removed by one of those two |
| `Registry.EqualEntriesShareIdIff` | pkg/core/model_proxy_config.go:41-82 | two starts of one entry get one id exactly when its configuration was not deleted in between |
| `RegistryReach.StepOutOfReachIff` | pkg/core/proxy.go:317-346 | one step: a listening server is out of reach exactly when it was, or the step started the entry of a running id or started without a database |
| `RegistryReach.OutOfReachIff` | pkg/core/proxy.go:267-396 | over every run a listening server is out of reach exactly when some start lost it |
| `RegistrySessions.StepSoundIff` | pkg/web/api/api_configs.go:197-213 | one step keeps sessions, unfinished requests and servers with a stored configuration exactly when it is no such deletion |
| `RegistrySessions.SoundIffStaysBacked` | pkg/core/proxy.go:98-110 | sessions, unfinished requests and servers all have a stored configuration exactly when no next step can leave a session without one |
| `RegistrySessions.SessionsBackedIff` | pkg/web/api/api_configs.go:197-213 | over every run, sessions and configurations stay together whatever happens next exactly when no configuration was deleted while a request of it was unfinished or a server of it could still store one |
| `RegistrySessions.EndangersIffUnfinished` | pkg/web/api/api_configs.go:191-195 | while every listening server is in reach, a deletion is dangerous exactly when a request of the configuration is unfinished or a server of it was closed by force |
| `RegistrySessions.LateFinishLeavesUnbackedSession` | pkg/core/proxy.go:225-234 | a run without a lost server: a request begins, its entry is stopped, the configuration deleted, the request finishes and stores its session again |
| `RegistrySessions.LostServerLeavesUnbackedSession` | pkg/core/proxy.go:325-328 | a run: start twice, stop, delete, and the first server stores a session of no configuration |
| `RegistryObjects.GlobalVarStore.ConfigAdd` | pkg/core/global.go:110-124 | the loop adds the id unless it is there |
| `RegistryObjects.ProxyProcess.constructor` | pkg/core/global.go:22-27 | a process starts with an empty store on any consistent database |
| `RegistryObjects.ProxyProcess.GetOrCreateConfigRow` | pkg/core/model_proxy_config.go:41-82 | the new rows and the id returned, failing look-ups and the lost race included |
| `RegistryObjects.ProxyProcess.StartProxyServer` | pkg/core/proxy.go:267-349 | the whole new state and the reply: refused for a bad target, a missing address or a failing database |
| `RegistryObjects.ProxyProcess.Register` | pkg/core/proxy.go:290-328 | id, configuration and server are entered together, or none without an id |
| `RegistryObjects.ProxyProcess.StopProxyServer` | pkg/core/proxy.go:352-396 | shuts the server down, by force if need be, and forgets it; nothing to stop is no error; a failed close keeps the entry |
| `RegistryObjects.ProxyProcess.HandleDeleteConfig` | pkg/web/api/api_configs.go:185-222 | the reply for a missing id, a running one, a failing transaction and a deletion; the deletion takes exactly the row of that id and the sessions of that configuration, and keeps all others in order |
| `RegistryObjects.ProxyProcess.StartSession` | pkg/core/model_proxy_session.go:98-140 | stores the session and leaves a row to be finished |
| `RegistryObjects.ProxyProcess.FinishSession` | pkg/core/proxy.go:225-234 | saves the held row, storing it again when it is gone |
| `DaemonMerge.LeftBiasedUnion` | cmd/proxy/main.go:254-298 | existing entries stay in front; after them come exactly the first entries of new addresses, in order, started or not |
| `DaemonMerge.AddressesStayDistinct` | cmd/proxy/main.go:254-298 | distinct addresses stay distinct |
| `DaemonMerge.AddressesAfter` | cmd/proxy/main.go:254-298 | the addresses afterwards are those stored and those handed over |
| `DaemonMerge.OneResultEach` | cmd/proxy/main.go:255-296 | one result per input: started or failed exactly for new entries, ignored or conflict by the target of the entry that holds the address |
| `DaemonMerge.StartOutcome` | cmd/proxy/main.go:275-293 | the result for a new entry is the outcome of its start on the list as merged so far |
| `DaemonMerge.MergeIsIdempotent` | cmd/proxy/main.go:254-298 | merging the same entries again changes nothing and starts nothing |
| `DaemonMerge.FilteredMerge` | pkg/core/daemon.go:282-306 | when the lists agree, filtering first leads to the same list |
| `DaemonMerge.FilterIsSafeIff` | pkg/core/daemon.go:282-306 | filtering first is harmless for every input exactly when the answer has a list of proxies and every address in it is stored |
| `DaemonMerge.FilteredReplies` | pkg/core/daemon.go:282-306 | when the answer tells the targets the daemon has, filtering first takes away only replies of "ignored" |
| `DaemonMerge.ConflictIsHandedOver` | pkg/core/daemon.go:294 | then every entry that meets a conflict is handed over |
| `DaemonMerge.SysConfig.MergeProxies` | cmd/proxy/main.go:254-298 | the outer loop computes the merged list and the results |
| `DaemonMerge.SysConfig.MergeOne` | cmd/proxy/main.go:258-295 | the inner loop and the start for one entry |
| `DaemonMerge.GetNewProxies` | pkg/core/daemon.go:282-306 | the nested loops with their flag compute exactly the entries whose address and target the answer does not name together, in order, and nothing when the answer has no list of proxies |
| `SseRelay.ChunksAreTheBody` | pkg/core/proxy.go:180-189 | however the reads cut the body, the pieces are non-empty, fit the buffer and make up the body |
| `SseRelay.FullRead` | pkg/core/proxy.go:179-181 | a read that the sender does not limit fills the buffer of 4096 bytes or takes what is left |
| `SseRelay.CapturedIff` | pkg/core/proxy.go:173-196 | the captured body is a prefix of the upstream body, and all of it exactly when no write fails |
| `SseRelay.RelayRefinesBuffering` | pkg/core/proxy.go:173-214 | the relay captures what the buffered path would, whatever reads either gets, exactly when no write fails |
| `SseRelay.Upstream.Read` | pkg/core/proxy.go:181 | fills a prefix of the buffer and leaves the rest of it unspecified |
| `SseRelay.Client.Write` | pkg/core/proxy.go:183 | takes a prefix of the chunk; success means all of it |
| `SseRelay.Relay` | pkg/core/proxy.go:173-196 | with one reused 4096-byte array, the captured body is exactly the concatenation of the chunks written in full, the client has it, and has the whole body when no write fails |
| `SseRelay.Buffer` | pkg/core/proxy.go:202-214 | the buffered path holds the whole upstream body whatever the client takes, and the client gets it in one write, whole when that succeeds |

## Left out

- HTTP, WebSocket, Unix-socket and file I/O, processes, timeouts and logging: only the step each triggers is modelled.
- React and SWR scheduling: fetching a page and merging it is one step; a change of filters, which empties the list, starts a new run.
- Reconnection: the browser sends no subscriptions again, so the two-ended results are about one connection.
- Dropped notifications: the feed results are about runs in which each change is published once, some time after it was made, and received in the order of publication. The order of publication is free for the coverage results, but for deletions in time, and for the order results as far as `PublishOrderIff` says.
- Config deletion in the feed: it publishes nothing, so an open list keeps the entries; `DeleteOldSessions` likewise.
- The recent-sessions page: it repeats the list logic with an extra dependency in its effect.
- Method and status filters, and full-text search, of the page: the live merge ignores them, so the feed results are about the configuration and date filters.
- GORM, SQLite and FTS5: `Save` is an upsert, a query is filter, sort with a fixed tie-break (ascending the reverse of descending) and page, `MATCH` is an arbitrary predicate on the index row.
- SHA-256 and nanoid: taken as injective and fresh.
- URL parsing: whether a target parses with a scheme is a parameter of a start.
- Starting a proxy from the daemon's merge: its outcome is an arbitrary function of the list so far and the entry.
- `handleProxyServerStop`: it reports success without stopping anything; the stop step is `StopProxyServer`.
- JavaScript strings: `toUpperCase` for ASCII letters only, `atob` without white space, bodies and URLs as strings.
- What curl does with its arguments, such as reading a file for a body that begins with an at sign; and the NUL character, which no argument can hold and the lexer treats as any other.
- Go strings: valid UTF-8 only, one character per code point.
- The printer's branch for values of an unknown type, which decoded JSON never has.
- Overwriting a buffer in place inside `bytes.Buffer` and `io.ReadAll`: both are sequences that grow.
- Mutexes: the hub's arms and the subscribe handlers are atomic steps, the register arm two.
