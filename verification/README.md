# Home Assistant add-ons: a verified model of what survives failures

This project models the parts of the Hermes notification bridge and of the Codex Controller that
keep state across crashes, redelivery and concurrency, together with the byte and number kernels
they rest on, and proves what those parts are there to guarantee.

Code that changes state step by step is modelled twice.  A *machine* (a `World` and a `Step`
predicate) lists every atomic step of the program and of everything that can interleave with it:
crashes, other threads, the clock, retention, the relay.  The safety modules prove theorems about
every run of the machine.  A *class* with the program's own fields and methods then performs the
operation, and carries a ghost history of machine steps, or of the events that a table is the
result of: each method proves that it only extended that history, so that every theorem about
runs or about sequences of events holds of what the class does.

| files | subject |
|---|---|
| `DeliveryMachine`, `DeliverySafety`, `NotificationBridge` | the MQTT to Weixin delivery ledger: at-least-once delivery (section 4.3.2 of MQTT Version 5.0, QoS 1), with a crash possible between any two steps |
| `CreateJournalModel`, `CreatePublication`, `CreateService` | the journal of create requests, where marks, receipts, timeouts and restarts race |
| `StreamMachine`, `StreamSafety`, `EventStream` | the desktop event stream: a cursor over a pruned log, with a condition variable |
| `RpcMachine`, `AppServer`, `ThreadContexts` | the app-server client: replies and their requests; which threads are loaded and may be forked |
| `ErrorLifecycle`, `ErrorCenter`, `ErrorStream`, `ErrorFeed` | the error centre: current, recovered and historical items, pages, and its stream |
| `Bytes`, `Base64`, `PngWalk`, `JpegWalk`, `DesktopImages` | image inputs: canonical base64, PNG chunks (section 3.2 of RFC 2083), JPEG markers (sections B.1.1.2 and B.2.2 of ITU-T T.81) |
| `SourceIdentity` | the framing of the byte stream that identifies the running source |
| `IsoTime`, `ImageTable`, `ImageStore` | staged images that expire by a comparison of timestamp texts |
| `FileTransfer` | chunked file reads |
| `DiskHealth` | disk figures, what is derived from them, and the check that follows |
| `Wrappers`, `Runs`, `Sets` | options, results, properties that steps preserve, and sizes of sets |

What the code does where that is not what one might expect:

- A late `accepted` receipt is ignored as stale, so the two orders of an accepted and a terminal
  receipt agree on state, error and receipt but not on the time the Runner was reached
  (`CreateJournalModel.OrdersDifferOnlyInRunnerTime`).
- A client of the event stream whose cursor equals the last pruned row has missed nothing, but is
  told to resynchronise all the same, and so is a client at the very start of a thread that took
  over its host's watermark (`StreamSafety.NoSilentGapAtResume` gives the exact condition,
  `StreamSafety.InheritedWatermarkDemandsNeedlessly` the second case).
- A reply whose id is JSON `true` is taken for the reply to request 1, because Python counts
  booleans as integers (`RpcMachine.RepliesReachTheirRequest`).
- The fingerprint that `resume_thread` records is that of the instructions it read first, while the
  request carries the instructions read later (and `start_thread` reads them in the other order).
  When instructions were configured in between, the server has the thread under one context and the
  table says another: the thread may then be forked under the context it has, or be left alone under
  one it has not (`ThreadContexts.DisagreeingReadsMislead`).  What is left alone is what the server
  has current if and only if the two reads agreed (`ThreadContexts.LeftAloneIsTruthful`).
- The bound on the total size of several images can never be what refuses them
  (`DesktopImages.ValidateImages`).
- A refused upload undoes the deletion of expired rows that the same transaction began with
  (`ImageTable.RepeatedUploadRepeatsTheImage`, `ImageStore.DesktopImageStore.Upload`).
- An empty file chunk that is not the last is accepted, so a chain of reads need not advance
  (`FileTransfer.EmptyChunksStandStill`; `FileTransfer.TransferAdvancesIff` says exactly when it
  does); the text of a chunk need not have the claimed size
  (`FileTransfer.SizeBindsOnlyData`).
- For every disk of 1 to 24 bytes there is a percentage for which the derived use is reported as
  inconsistent, and for no larger one (`DiskHealth.OnlyTinyTotalsRaise`).

## Model

| member | source | states |
|---|---|---|
| DeliverySafety.SentAtMostOnce | hermes_agent/notification_bridge.py:565-701 | over every run of deliveries, redeliveries and crashes, the send command is entered at most 1 + the number of retry delays times and succeeds at most once for every message whose deliveries expire at one time; a row that says `sent` has exactly one success and as many entries as it has attempts |
| DeliverySafety.NoSendAfterTheCall | hermes_agent/notification_bridge.py:598-620 | once a call that stored `sending` is over, however it ended, no later call enters the send command for that message again, even after the row was purged |
| DeliverySafety.NoSendWhileRetained | hermes_agent/notification_bridge.py:598-620 | as long as the row is retained the same holds whatever other payloads reuse the id |
| DeliverySafety.PurgeTakesOnlyExpired | hermes_agent/notification_bridge.py:391-393 | a row leaves the table only after every delivery of its message has expired, because skew and longest time to live stay below the retention |
| DeliverySafety.SendingIsStoredFirst | hermes_agent/notification_bridge.py:675-683 | the send command is entered only when `sending` with this number of attempts is stored and was the last thing announced |
| DeliverySafety.PublicationsAreStored | hermes_agent/notification_bridge.py:546-563 | a publication about a valid request is what the ledger holds at that moment, and the one that ends a call is a final status |
| DeliverySafety.FinalIsNeverReplaced | hermes_agent/notification_bridge.py:589-600 | while a row is retained its final status is never replaced; once the closing call has stored them, neither are its attempts and error code |
| DeliverySafety.RedeliveryRepeatsTheVerdict | hermes_agent/notification_bridge.py:593-599 | any two calls that end by reporting a retained message publish the same status, attempts and error code, those of the row |
| DeliverySafety.LimitsHold | hermes_agent/notification_bridge.py:624-646 | over every run, whatever payloads are delivered, in every closed window of 60 s at most 3 counted rows of one source and 10 in all were received, and two counted rows of one dedupe key lie more than 1800 s apart |
| DeliverySafety.AcceptedIffAllowed | hermes_agent/notification_bridge.py:617-645 | over every run a new message that has not expired is accepted if and only if its row keeps every window and the dedupe distance: the limits refuse no more than they must |
| DeliverySafety.DecideFollowsCourse | hermes_agent/notification_bridge.py:589-645 | over every run a known message is told its own final verdict, or that it expired, or that its delivery is unknown if it was left in the middle of sending; one left accepted in time goes on to be sent from its row as it is; a new one is refused exactly when it expired or would break the dedupe distance or a window |
| DeliverySafety.AcceptedMessageIsResumed | hermes_agent/notification_bridge.py:608-616 | a message that was accepted but, after a crash, never begun to be sent is sent by the next delivery in time |
| DeliverySafety.DedupeIsExact | hermes_agent/notification_bridge.py:361-372 | the dedupe query finds a row exactly when accepting the message would put two counted rows of its key within the window |
| DeliverySafety.RateLimitIsExact | hermes_agent/notification_bridge.py:374-389 | the counts reach a limit exactly when accepting the message would overfill some closed window |
| DeliverySafety.StepKeepsLimits | hermes_agent/notification_bridge.py:624-646 | no step makes a row counted except acceptance under the two limits and the dedupe window, whatever the payload |
| DeliveryMachine.RunKeepsInv | hermes_agent/notification_bridge.py:580-701 | in every reachable state, whatever payloads were delivered, the row of the message in work says what the point the worker has reached lets one expect, and no row was received later than now |
| DeliveryMachine.RunKeepsSends | hermes_agent/notification_bridge.py:580-701 | in every reachable state the history of entries and successes agrees with the row and with the point the worker has reached; a message that was entered never looks new again |
| NotificationBridge.Parse | hermes_agent/notification_bridge.py:181-267 | a payload is accepted exactly when all its checks hold, created at most 5 minutes ahead and living 30 to 86400 s; the request carries its fields and expires before a row received now would be purged |
| NotificationBridge.Ledger.Insert | hermes_agent/notification_bridge.py:319-340 | inserts the row unless the id is present, and then changes nothing |
| NotificationBridge.NotificationProcessor.SendOnce | hermes_agent/notification_bridge.py:508-544 | one entry of the command; success, a permanent failure or one worth retrying are told apart, and only success counts as sent |
| NotificationBridge.NotificationProcessor.Finish | hermes_agent/notification_bridge.py:546-563 | the verdict is stored, with the time, before it is published, and what is published is what is stored |
| NotificationBridge.NotificationProcessor.Register | hermes_agent/notification_bridge.py:617-645 | a new message ends, stored and published, as expired, as a duplicate if its row would break the dedupe distance, or as rate limited if it would overfill a window; otherwise it is stored as accepted and goes on; only a crash prevents that |
| NotificationBridge.NotificationProcessor.Admit | hermes_agent/notification_bridge.py:587-616 | by the status it was left in and the time, a known message is told its own final verdict, expires, or fails as of unknown delivery; one accepted in time goes on to be sent; only a crash prevents that |
| NotificationBridge.NotificationProcessor.Send | hermes_agent/notification_bridge.py:647-701 | unless it crashes, the loop over the retry schedule ends with the verdict the attempts call for, or expired before a retry they would have needed, stored and published, in machine steps only |
| NotificationBridge.FirstSuccessIsSent | hermes_agent/notification_bridge.py:647-701 | while no retry comes too late, the first attempt k not worth retrying, or the last one, decides: sent with k attempts if and only if it succeeded, failed for good if the command was missing, and by exhaustion otherwise |
| NotificationBridge.NotificationProcessor.Process | hermes_agent/notification_bridge.py:565-701 | a call, whatever is delivered, only adds machine steps to the history; a valid request ends, unless by a crash, with the verdict that the row left behind or the limits, the time and the attempts call for, stored, published last, and acknowledged exactly when that publication succeeded; a delivery that cannot be parsed changes no row and is answered with its error code, under its own id when that was usable |
| CreateJournalModel.TerminalReceiptDecides | codex_controller/codex_controller/desktop_service.py:2188-2337 | in every reachable table a prepared row with a terminal receipt shows that receipt's state and error, and does so after any later marks, receipts, sweeps and restarts |
| CreateJournalModel.ReceiptsConverge | codex_controller/codex_controller/desktop_service.py:2258-2312 | whatever order and repetition accepted receipts and one terminal receipt arrive in, among any other events, the row ends showing the terminal one |
| CreateJournalModel.OrdersDifferOnlyInRunnerTime | codex_controller/codex_controller/desktop_service.py:2266-2306 | accepted then terminal and terminal then accepted give the same table but for the time the Runner was reached; the delivery stages agree exactly when the terminal receipt is a confirmation |
| CreateJournalModel.StagesNeverGoBack | codex_controller/codex_controller/desktop_service.py:2205-2217 | over every sequence of events rows stay, their bindings and set stage times never change, and the delivery stage never goes back |
| CreateJournalModel.ConclusionIsForever | codex_controller/codex_controller/desktop_service.py:2314-2337 | state, error and receipt of a concluded row survive every sequence of events |
| CreateJournalModel.ReplayKeepsInv | codex_controller/codex_controller/desktop_service.py:2132-2137 | only a row without a receipt is still pending, so a restart overwrites no receipt; a row's state is its receipt's unless an accepted one timed out |
| CreateJournalModel.StoredReceiptIsBound | codex_controller/codex_controller/desktop_service.py:2258-2275 | over every sequence of events a stored receipt came from the Runner, host and project its row is bound to, and a prepared row's in the mode of its command |
| CreatePublication.PublishedAtMostOnce | codex_controller/codex_controller/desktop_service.py:798-883 | over every run with any number of overlapping callers, restarts, receipts and sweeps, a create command is published at most once per request id, and only for a row that is no orphan |
| CreatePublication.PublisherHasCreated | codex_controller/codex_controller/desktop_service.py:846-862 | whoever publishes a command is the very call that inserted its row, and has owned it since |
| CreatePublication.OrphanIsNeverPublished | codex_controller/codex_controller/desktop_service.py:2233-2257 | an id first seen as an orphan receipt is never published, before or after |
| CreateService.CreateJournal.Prepare | codex_controller/codex_controller/desktop_service.py:2139-2175 | stores a fresh row once; the same intent finds the stored row, another intent is a conflict |
| CreateService.CreateJournal.ReplayRequest | codex_controller/codex_controller/desktop_service.py:2177-2186 | a repeated request gets the stored row, or a conflict exactly when its intent differs |
| CreateService.CreateJournal.Mark | codex_controller/codex_controller/desktop_service.py:2188-2223 | exactly a pending row takes the marked state, error and time; the relay time is set once, by `submitted`, even when a receipt came first; nothing else changes |
| CreateService.CreateJournal.IngestReceipt | codex_controller/codex_controller/desktop_service.py:2225-2312 | a receipt of another Runner, host, project or mode is a binding conflict; the same one again a duplicate; an accepted one after a terminal one stale; two different ones of one kind a conflict; none of these changes a row; any other is stored with its stage time, and one without a row makes an orphan |
| CreateService.CreateJournal.Sweep | codex_controller/codex_controller/desktop_service.py:2314-2337 | exactly the submitted and accepted rows past their expiry, or without a readable one, become unknown, and their number is returned |
| CreateService.CreateJournal.Reopen | codex_controller/codex_controller/desktop_service.py:2132-2137 | exactly the pending rows become unknown when the table is opened again |
| CreateService.CreateController.Create | codex_controller/codex_controller/desktop_service.py:798-883 | a known id is answered from the table; otherwise, if no receipt came first, the command is handed to the relay, once, exactly when there is a relay and its digest is not taken; the relay's answer is marked on whatever receipts made of the row meanwhile, and only a definite non-delivery is an error; all in steps of the publication machine |
| StreamSafety.FramesAreTheLog | codex_controller/codex_controller/desktop_service.py:1861-1970 | the events of all frames after the first are exactly the scope's rows between the two cursors, ascending, with no gap or repeat, if and only if retention took none of them before it was read; what is missing was pruned |
| StreamSafety.NeverSleepsPastAChange | codex_controller/codex_controller/desktop_service.py:1908-1969 | in every interleaving, when the generator waits its counters equal the current ones, its last frame was built after every notified change, and every notified row lies behind its cursor or was pruned |
| StreamSafety.NotifyEndsTheWait | codex_controller/codex_controller/desktop_service.py:2023-2042 | a notification of the scope, or to all, wakes a waiting generator and leaves its counters out of date |
| StreamSafety.NoSilentGapAtResume | codex_controller/codex_controller/desktop_service.py:1878-1896 | without a demand to resynchronise nothing above the client's cursor was pruned; the demand is made exactly when the cursor is beyond the tail, or a pruned row lies at or above it, or a watermark beyond the last pruned row reaches it |
| StreamSafety.InheritedWatermarkDemandsNeedlessly | codex_controller/codex_controller/desktop_store.py:1157-1165 | a thread with no pruned row that took over its host's watermark sends even a client at cursor 0 to resynchronise |
| EventStream.Hub.Events | codex_controller/codex_controller/desktop_store.py:926-949 | for any limit, the first rows above the cursor, ascending, the cursor of the last, and whether a row above that is left |
| EventStream.OneMoreTells | codex_controller/codex_controller/desktop_store.py:932-949 | for any limit, one row more than the limit is found exactly when a row above the last one returned is left |
| EventStream.Generator.Ready | codex_controller/codex_controller/desktop_service.py:1878-1906 | the first frame replays nothing; it starts at the client's cursor, or, without one or when it must resynchronise, at the tail found at the beginning, in machine steps only, whatever other threads do in between |
| EventStream.Generator.Look | codex_controller/codex_controller/desktop_service.py:1912-1955 | one turn under the lock delivers new rows, or reports a change without rows, or finds nothing; `has_more` is set exactly when a row above the new cursor is left |
| EventStream.Generator.Next | codex_controller/codex_controller/desktop_service.py:1908-1970 | each frame adds its events to what was delivered and carries the cursor of its last event; a frame without events means that every row there was above the cursor is pruned: it reports a counter that differs from the observed one, or it is a heartbeat, after all the waits and a turn under the lock that found no row and no change |
| RpcMachine.RepliesReachTheirRequest | codex_controller/codex_controller/app_server.py:532-544 | in every interleaving of requests, replies, time-outs and closure each queue gets at most one message, and a reply only if its id names the queue's own request; JSON `true` names request 1 |
| RpcMachine.KeyIs | codex_controller/codex_controller/app_server.py:533-538 | a reply is looked up under n exactly when its id is the number n, or a JSON boolean that Python counts as n |
| RpcMachine.PutNeverBlocks | codex_controller/codex_controller/app_server.py:582-589 | a put finds a queue that has never held anything, so it never blocks on the size of one |
| RpcMachine.IdsNeverRepeat | codex_controller/codex_controller/app_server.py:313-320 | request ids never repeat over any run |
| AppServer.AppServerClient.HandleMessage | codex_controller/codex_controller/app_server.py:532-544 | a reply to a pending request ends up in that request's slot; an unknown id, an id of another type and a message without a method close the channel; a notification and a request of the server leave everything as it is |
| AppServer.AppServerClient.SetProtocolError | codex_controller/codex_controller/app_server.py:582-589 | every request pending at that moment is told that the channel is closed, and no slot is emptied or refilled |
| AppServer.AppServerClient.Request | codex_controller/codex_controller/app_server.py:313-337 | a fresh id and slot are used and the answer is what that slot holds; the reply to this very id, when it comes first, is returned; a time-out takes the id off the table; a failed send leaves the entry as the reader, which may have closed the channel meanwhile, left it |
| ThreadContexts.ForkableMeansUsed | codex_controller/codex_controller/app_server.py:415-416 | a thread is forkable if and only if it was resumed, produced by a fork or had a successful turn recorded since the tables were last cleared and since it was last started anew |
| ThreadContexts.LoadedMeansLoadedHere | codex_controller/codex_controller/app_server.py:254-259 | a thread is in the table if and only if a load of it stands since the tables were last cleared, and the table holds what that load recorded |
| ThreadContexts.LeftAloneIsTruthful | codex_controller/codex_controller/app_server.py:420-425 | for every context that may become current, a thread is left as it is exactly when the server has it under that context, if and only if the two reads of its load agreed |
| ThreadContexts.ForkIsJustified | codex_controller/codex_controller/app_server.py:422-445 | a fork is asked for if and only if a standing load of the thread recorded another context and the thread was used since; if the reads of that load agreed the server has the thread under another context |
| ThreadContexts.OtherwiseResumedOrReplaced | codex_controller/codex_controller/app_server.py:420-426 | over every sequence of events a thread is resumed if and only if no load of it stands, and replaced by a new one if and only if a load stands that recorded another context and no use of it stands |
| ThreadContexts.DisagreeingReadsMislead | codex_controller/codex_controller/app_server.py:420-443 | a thread resumed with one context and recorded under another is forked under the first and left alone under the second |
| ThreadContexts.ContextKeeper.ResumeThread | codex_controller/codex_controller/app_server.py:418-445 | what is asked for, what is returned and which error is given are decided exactly; a thread that is not loaded is resumed and nothing but itself is accepted back; the one load that is added carries what was sent and what was recorded; the recorded context is current if and only if a new thread was started or the instructions have the fingerprint they had when the call began |
| ThreadContexts.ContextKeeper.StartThread | codex_controller/codex_controller/app_server.py:400-416 | a started thread is recorded under the instructions in force after the reply, beside those that were sent |
| ThreadContexts.ContextKeeper.StartTurn | codex_controller/codex_controller/app_server.py:450-473 | a turn the server confirmed, and no other, makes its thread forkable, after whatever other threads, starts and stops did to the tables since it was asked for |
| ErrorLifecycle.RecoveredStandsApart | codex_controller/codex_controller/error_center.py:586-594 | after every call recovered keys are disjoint from current and terminal ones, and at most 50 are kept |
| ErrorLifecycle.RecoveryIsExact | codex_controller/codex_controller/error_center.py:575-586 | a key becomes recovered only if it was active in the previous call and is now neither current nor terminal, and every such key does, not retryable, unless more than 50 compete and those kept are no older |
| ErrorLifecycle.RecoveredStays | codex_controller/codex_controller/error_center.py:586-594 | a recovered item leaves only by returning, by becoming terminal, or as one of the oldest of more than 50 |
| ErrorLifecycle.RecoveredUntilOutlived | codex_controller/codex_controller/error_center.py:568-595 | over any run in which it does not come back an item stays recovered, unchanged, unless at some call 50 others stood that had recovered no earlier |
| ErrorLifecycle.PagesCoverTheItems | codex_controller/codex_controller/error_center.py:338-342 | following the next cursors over an unchanged list shows every item once, in order |
| ErrorLifecycle.OneIncident | codex_controller/codex_controller/error_center.py:562-566 | two items are one incident exactly when origin and reference agree, whatever their diagnosis |
| ErrorCenter.Tracker.TrackLocalLifecycle | codex_controller/codex_controller/error_center.py:568-595 | one call is one step of the lifecycle, with the items reported now as the active ones and every key that has just gone dated by the clock |
| ErrorCenter.Tracker.EvictOldest | codex_controller/codex_controller/error_center.py:588-594 | 50 at most are kept, unchanged, and none of them is older than any that went |
| ErrorStream.NeverSleepsPastAChange | codex_controller/codex_controller/error_center.py:344-362 | when the stream waits its counter is current and its last frame shows the revision of a page begun after every notified change was committed |
| ErrorFeed.Feed.Next | codex_controller/codex_controller/error_center.py:344-362 | cursors count frames; the first page whose revision differs from the last frame's is framed, the first of all as `ready`; a heartbeat comes only after a sleep through which the counter did not move, and without a frame the counter moved at every turn |
| PngWalk.TiledMeansCut | codex_controller/codex_controller/desktop_images.py:31-52 | the bytes from offset 8 are the layout of a well-formed sequence of chunks if and only if cutting them succeeds and gives one, so the tiling is unique |
| PngWalk.Walk | codex_controller/codex_controller/desktop_images.py:28-54 | the walk ends, reads nothing out of bounds, and accepts exactly when chunks with matching checksums tile the bytes from offset 8, the first a 13-byte IHDR, some IDAT not empty, no acTL, any IEND empty and last |
| JpegWalk.ScanFinds | codex_controller/codex_controller/desktop_images.py:55-76 | behind any fill bytes, lone markers and segments that the walk passes, the first frame header gives the size |
| JpegWalk.ScanExplains | codex_controller/codex_controller/desktop_images.py:55-76 | a size that is found stands in a frame header behind units the walk may pass |
| JpegWalk.HeaderDeclaresSize | codex_controller/codex_controller/desktop_images.py:71-73 | a frame header laid out as precision, height and width gives that height and width |
| JpegWalk.Walk | codex_controller/codex_controller/desktop_images.py:56-76 | the marker walk ends, reads nothing out of bounds, and finds exactly the size that the scan defines |
| Base64.DecodeEncode | codex_controller/codex_controller/desktop_images.py:22-25 | decoding undoes encoding, for all bytes |
| Base64.QuadIsOneNumber | codex_controller/codex_controller/desktop_images.py:22-25 | four characters carry three bytes as one number, the first highest |
| Base64.AlphabetInOrder | codex_controller/codex_controller/desktop_images.py:22-25 | the characters are the upper-case letters, the lower-case letters, the digits, plus and slash, in this order |
| Base64.CanonicalMeansExact | codex_controller/codex_controller/desktop_images.py:21-26 | of the texts the decoder accepts, exactly those without superfluous padding and without bits beyond the last byte are the encoding of what they decode to |
| DesktopImages.AcceptedIsDecoded | codex_controller/codex_controller/desktop_images.py:18-26 | an accepted text is the canonical encoding of one image only, the one it decodes to, and is no longer than the length bound, which therefore refuses nothing acceptable |
| DesktopImages.DecodeImage | codex_controller/codex_controller/desktop_images.py:18-93 | returns the decoded bytes exactly when the text is canonical, within the byte bound, of sound structure, and of allowed dimensions |
| DesktopImages.PngDeclaresSize | codex_controller/codex_controller/desktop_images.py:29 | a sound PNG whose header holds width and then height has that size |
| DesktopImages.WebpDeclaresSize | codex_controller/codex_controller/desktop_images.py:77-90 | each of the three kinds of WebP header gives the width and height that are laid out in it |
| DesktopImages.PrefixOkMeans | codex_controller/codex_controller/desktop_images.py:102-109 | items accepted one by one are all acceptable and have distinct references, and conversely |
| DesktopImages.ValidateImages | codex_controller/codex_controller/desktop_images.py:96-113 | a list of one to four items is returned exactly when every item is acceptable and the references are distinct; the total-size bound refuses nothing |
| SourceIdentity.DecodeUndoesStream | codex_controller/codex_controller/source_identity.py:26-33 | the hashed stream decodes back to the list of paths and contents, for paths under 2^32 and contents under 2^64 bytes |
| SourceIdentity.StreamIgnoresEnumeration | codex_controller/codex_controller/source_identity.py:20-22 | every enumeration order of the same files gives the same stream |
| SourceIdentity.SameStreamSameFiles | codex_controller/codex_controller/source_identity.py:20-33 | two source trees feed the hash the same bytes if and only if they hold the same files |
| SourceIdentity.CalculateSourceIdentity | codex_controller/codex_controller/source_identity.py:14-39 | the hash is fed the framed files in sorted order and the count is theirs; no files, or a length beyond its field, is an error |
| IsoTime.TextOrderIsTimeOrder | codex_controller/codex_controller/desktop_image_store.py:40-57 | two timestamps of one offset compare as texts as their instants do, even when a zero fraction is left out |
| IsoTime.BeforeMeansEarlier | codex_controller/codex_controller/desktop_image_store.py:40-57 | a reading that is smaller field by field is an earlier instant, over leap years and month lengths, and conversely |
| ImageTable.TableStaysBounded | codex_controller/codex_controller/desktop_image_store.py:47-50 | over every run of uploads, sweeps and reads at most 1024 rows are held, and never two for one request |
| ImageTable.RowStaysUntilExpiry | codex_controller/codex_controller/desktop_image_store.py:40-65 | a row stays, unchanged, until an operation's clock reaches its expiry |
| ImageTable.RepeatedUploadRepeatsTheImage | codex_controller/codex_controller/desktop_image_store.py:41-46 | a repeated request gets the same reference while that is unexpired, exactly if host, type and digest are those of the first upload, and otherwise a conflict |
| ImageStore.DesktopImageStore.Upload | codex_controller/codex_controller/desktop_image_store.py:33-51 | one upload is one step of the table, and a refusal leaves the table as it was |
| ImageStore.DesktopImageStore.Get | codex_controller/codex_controller/desktop_image_store.py:53-60 | returns the body exactly when the reference is known, its instant of expiry lies ahead, and the host asked for owns it |
| ImageStore.DesktopImageStore.Sweep | codex_controller/codex_controller/desktop_image_store.py:62-64 | exactly the rows whose instant of expiry has passed go, and their number is returned |
| ImageStore.DesktopImageStore.Resolve | codex_controller/codex_controller/desktop_image_store.py:66-72 | one to four distinct references give their bodies in order, all unexpired and of the host; the two kinds of error are told apart |
| FileTransfer.ChunkRoundTrip | codex_controller/codex_controller/desktop_protocol.py:1169-1209 | a chunk can be sent and is accepted back unchanged if and only if it is well formed |
| FileTransfer.AcceptedIsRendered | codex_controller/codex_controller/desktop_protocol.py:1169-1209 | an accepted payload is exactly the rendering of its chunk, with valid request id, reference and media type, but for the several base64 texts of one artifact piece |
| FileTransfer.AcceptedIsWellFormed | codex_controller/codex_controller/desktop_protocol.py:1184-1208 | whatever payload is accepted, its chunk is well formed: bounds, next offset, end flag, and for an artifact the decoded length |
| FileTransfer.TransferTilesTheFile | codex_controller/codex_controller/desktop_service.py:219-225 | the accepted answers to a chain of reads cover the file from its start to the end, every byte by exactly one answer, and only the last may say it is the last |
| FileTransfer.ArtifactHasItsLength | codex_controller/codex_controller/desktop_protocol.py:1199-1208 | the decoded pieces of an artifact, put together, are as long as the covered range |
| FileTransfer.ArtifactIsReassembled | codex_controller/codex_controller/desktop_protocol.py:1199-1208 | each byte of the whole is the one its own chunk carried for that position |
| FileTransfer.TransferAdvancesIff | codex_controller/codex_controller/desktop_protocol.py:1186-1193 | every read goes beyond the one before if and only if no answer but the last is empty, and the reads before the last are then no more than the bytes |
| FileTransfer.EmptyChunksStandStill | codex_controller/codex_controller/desktop_protocol.py:1186-1193 | for every length, for files and for artifacts, there is an accepted chain of empty chunks that never advances |
| FileTransfer.SizeBindsOnlyData | codex_controller/codex_controller/desktop_protocol.py:1194-1208 | the size a chunk claims, with the next offset that goes with it, is free for text and fixed for the data of an artifact |
| DiskHealth.AcceptedReading | hermes_agent/homeassistant_health.py:143-166 | an accepted percentage lies in 0..100 and an accepted size or count is a natural number, each as near its source as its grain allows |
| DiskHealth.ReadingAccepted | hermes_agent/homeassistant_health.py:143-166 | a reading is accepted exactly when the sensor gives a number that is not negative in a unit of the metric, a percentage up to 100, a count without a fraction |
| DiskHealth.FactorsStep | hermes_agent/homeassistant_health.py:44-56 | each decimal unit is 1000 and each binary one 1024 of the one before |
| DiskHealth.Snapshot.Derive | hermes_agent/homeassistant_health.py:181-209 | given figures are kept, what is listed is exactly what was added, and each added figure comes from the source its provenance names |
| DiskHealth.DerivedFigures | hermes_agent/homeassistant_health.py:188-207 | a figure is there exactly when it was given or follows; an added one satisfies total = used + free exactly, or is the nearest share or percentage |
| DiskHealth.PairsDeriveTheRest | hermes_agent/homeassistant_health.py:188-207 | from use and free, total and free, total and use, or a total of at least 25 bytes and a percentage, all figures follow, total is exactly use plus free, and nothing is objected to |
| DiskHealth.IssuesExplained | hermes_agent/homeassistant_health.py:212-229 | after derivation the check objects, for each of its three issues, exactly when the figures that were given contradict each other, or for a percentage of fewer than 25 bytes |
| DiskHealth.ShareShift | hermes_agent/homeassistant_health.py:197-198 | taking a percentage of a total and turning it back shifts it by at most 50 / total |
| DiskHealth.OnlyTinyTotalsRaise | hermes_agent/homeassistant_health.py:225-228 | some percentage of two decimals makes the check object to its own derived use if and only if the total is under 25 bytes |

## Left out

- DeliverySafety.SentAtMostOnce: all deliveries of one message id are taken to expire at one time, as copies of one payload do; a sender that reuses an id with a later expiry after the first row was purged 30 days on has sent a new message, and the code sends it. The same holds for NoSendAfterTheCall, PurgeTakesOnlyExpired and RunKeepsSends, and for nothing else.
- DeliverySafety.LimitsHold: the clock is taken never to go back, as the window counts assume.
- StreamSafety.NeverSleepsPastAChange: a change that is committed but whose notification has not yet begun may still be unseen while the generator waits; the code promises no more.
- EventStream.Generator.Next: the heartbeat deadline is a number of wake-ups instead of a monotonic clock, so only whether a heartbeat is due is modelled, not when.
- EventStream.Generator.Ready: the host document and the list of create commands in a frame are not modelled, only what they were read after.
- ErrorLifecycle.RecoveryIsExact: when several items have the same time, which of them is evicted is left open; the code goes by insertion order.
- ErrorLifecycle.PagesCoverTheItems: the counts in a page's summary and the sort order of its items are not modelled.
- ErrorFeed.Feed.Next: a page is one read begun under the lock that may also see later changes, instead of several reads of several tables; the number of turns without a new revision is bounded by a parameter.
- ErrorCenter.Tracker.TrackLocalLifecycle: times are numbers; that their texts compare alike is `IsoTime.TextOrderIsTimeOrder`.
- AppServer.AppServerClient.Request: the reader's messages and the requester's wait are one sequence; what the requester makes of an error or a missing result is not modelled.
- RpcMachine.RepliesReachTheirRequest: the process, its pipes and the notification handler are not modelled.
- CreateService.CreateController.Create: the preconditions on host, project and model, image resolution and the notification of listeners are not modelled; calls come one at a time, under the command lock; one receipt and one sweep may intervene at each of two points, while `CreatePublication` allows any number anywhere.
- CreateService.CreateJournal.Sweep: whether a stored expiry can be read is a part of the row instead of a parse of JSON.
- NotificationBridge.Parse: the pattern and text checks are given as already evaluated; only their order and the time and lifetime bounds are modelled.
- NotificationBridge.NotificationProcessor.SendOnce: how each attempt ends is a parameter of the call; an outcome the code does not catch is a crash.
- NotificationBridge.NotificationProcessor.Process: a crash can come after each stored state and each publication; the machine allows it between any two steps.
- ErrorLifecycle.RecoveredUntilOutlived: times are those the calls recorded; that the clock never goes back is not needed.
- DesktopImages.DecodeImage: CRC-32 is a parameter, so nothing is said about which checksums match; of a WebP only the header is looked at, as in the code.
- SourceIdentity.CalculateSourceIdentity: the hash is a parameter, the order of paths is any total order, and paths arrive as encoded bytes; finding the files is not modelled.
- ImageTable.TableStaysBounded: every timestamp has the one offset +08:00 and lies in the years 1 to 9999; the digest is part of the upload and is not tied to its content.
- ImageStore.DesktopImageStore.Get: the format check of a reference and the encoding of the returned body are not modelled.
- FileTransfer.ChunkRoundTrip: the formats of request ids, references and media types are parameters; lone surrogates in a text, which cannot be encoded, do not occur.
- DiskHealth.IssuesExplained: numbers are reals with rounding half to even, so the last bits of floating point are not modelled.
- MQTT, the WebSocket relay, HTTP, subprocesses and sqlite: tables are maps with atomic steps, and peers make arbitrary choices.
- Thread commands other than create, host snapshots, route tables, user interface pages, configuration parsing and the flat field validators: each branch settles itself and would add only easy members.
