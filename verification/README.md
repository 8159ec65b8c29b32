# ConvoyChat: a verified model of the protocols between client and server

ConvoyChat is a chat server in Go with a TypeScript client. This project models its stateful parts in Dafny and
proves what they promise. `dafny verify dfyconfig.toml` checks everything.

- **Message cache** (`MessageCache`, `MergeSafety`, `Mispairing`, `Rendering`): the client's paged cache of one room, the
  four-rule merge that reconciles optimistic bubbles, live echoes and fetched pages, and the rendered list. Pages are
  tied to the flat list of rows they hold, on which the properties are stated.
- **Agreement with the server** (`Reactions`, `Simulation`, `CommitLog`, `Echoes`, `Staleness`, `Pagination`,
  `Backfill`): events applied in commit order keep the cache equal to the masked server rows, in every run; those rows
  are what the requests asked for, read off the requests alone; a bubble is on from send to answer; what a dropped
  connection or a late merge costs is tracked message by message; reactions folded from events equal the server's
  grouping; what keyset pagination and resync fill in, and what no resync ever can.
- **Hub and broker** (`HubModel`, `BrokerModel`, `UserChannels`, `HubBroker`, `HubUsers`, `Desks`, `ServerRun`): the
  single goroutine that owns all connections is shown to be the product of one small automaton per connection, slow
  consumers dropped mid fan-out included; the subscription queues are protocols over their steps; and a whole server,
  driven by any sequence of events, is shown to follow them.
- **Membership** (`Rooms`, `RoomEffects`, `RoomRuns`, `RoomLog`, `RoomStore`): each handler is one atomic step on the
  tables, with its exact condition and effect; who is a member, an admin or banned after any run is read off the
  requests that were granted; the handlers as they run are shown to perform those steps.
- **Sessions** (`RefreshTokens`), **idempotent sends** (`Idempotency`), **presence** (`PresenceModel`).

Identifiers, hashes and timestamps are numbers; `localeCompare` on ids is their order. Fresh identifiers are
parameters constrained to be unused, and client nonces come from a set disjoint from server ids. The clock, Redis
availability, database failures and network responses are parameters of steps. Code that updates state in place is a
class or a loop proved against a specification function; the properties are lemmas about those functions.

## What the proofs found

- Rule (a) of the merge runs before rule (b), so an echo whose message is already cached beside its bubble leaves that
  id cached twice; that is the only way (`MergeSafety.UniquenessKeptExactlyWhen`), and runs get there
  (`MergeSafety.DuplicateRun`). Rendering hides it, and no bubble is left behind (`Mispairing.MispairingHeals`).
- Paging by `created_at` alone loses a message whenever a page boundary falls between equal timestamps, and only then
  (`Pagination.ScrollBack`); a resync does so for boundaries newer than its anchor (`Pagination.FetchedBack`).
- A page fetched before a change and merged after it leaves a message out of date, unless the cache already held it
  (`Staleness.LateMergeExactlyWhen`, with a run in `Staleness.LateMergeWitness`). A resync repairs no row the cache
  holds: a deleted message merged late, or whose delete was missed, stays on screen through every further event and
  resync (`Staleness.DeletedStaysVisible`).
- A message sent over REST is published to nobody (`internal/handlers/messages.go:126-177`): every other open client,
  the sender's own other tabs included, lacks it (`Simulation.UnannouncedSim`, `Simulation.ConnectedStaysCurrent`). Once
  a page of newer messages lies between it and the newest row held, no resync ever brings it back
  (`Backfill.StaysMissing`); a client that holds the newest message gets it back exactly before that
  (`Backfill.UpToDateFetchesExactlyWhen`).
- A room emptied while a join of it is in flight can end with a local client and no subscription
  (`BrokerModel.EmptyingExactlyWhen`, `BrokerModel.LostRoom`), whether that join is still queued or already answered.
  Registering before subscribing, as connections do for their user channel, avoids this as long as the Hub keeps up
  (`UserChannels.PromptHubIsSafe`); the exact condition is `UserChannels.LastDepartureExactlyWhen`.
- A join that times out, or a connection that asks for its channel after it has gone, leaves a subscription with nobody
  behind it (`BrokerModel.GivenUpLeaks`, `UserChannels.LateRequestLeaks`).
- A send over the socket carries no idempotency key, so a retry after a lost echo stores the message twice
  (`Echoes.RetryStoresTwice`).
- A heartbeat that comes after a user's last disconnect sets their status key to online again with nobody connected
  (`PresenceModel.LastShown`).
- A self-join into an emptied public channel leaves it without an admin (`RoomRuns.OnlySelfJoinBreaks`).
- The comment at `frontend/hooks/useMessages.tsx:221-224` says a delete is not broadcast; the handler
  (`internal/handlers/messages.go:184-255`) does publish it and the client applies it. The model follows the code.
- A direct room takes the column default `is_public = true`; it is never listed or joinable only because of its type.

## Model

| member | source | states |
|---|---|---|
| MessageCache.UpsertMessages | frontend/lib/messagesCache.ts:133-147 | the loop over the batch yields rows equal to merging each message into the flat list of rows; every row held stays unless a message of the batch answers it; pages are never added to a non-empty cache, and page parameters stay aligned with pages, kept when they already were and blank otherwise |
| MessageCache.MergeAllKeeps | frontend/lib/messagesCache.ts:99-121 | whatever is merged, a row gives way only to a message that carries its id as its nonce, or, if it is a bubble, to a server row by this user with its text |
| MessageCache.ReplaceFirstFlattens | frontend/lib/messagesCache.ts:81-97 | the paged search succeeds exactly when some cached row matches, keeps the page count, and rewrites the first match of the concatenated pages |
| MessageCache.ApplyOneFlattens | frontend/lib/messagesCache.ts:99-128 | the four rules act on pages exactly as they do on the concatenation of the pages |
| MessageCache.ApplyAllFlattens | frontend/lib/messagesCache.ts:133-141 | the same for whole batches |
| MessageCache.PatchFlattens | frontend/lib/messagesCache.ts:183-301 | patching page by page is patching the flat list row by row, and moves no row to another page |
| MessageCache.BubbleStatus | frontend/lib/messagesCache.ts:152-174 | after a failure no copy of the bubble is sending, after the retry none is failed, the retry undoes the failure, and neither step changes another row, a server row, or anything but the status |
| MessageCache.NewestConfirmedCreatedAt | frontend/lib/messagesCache.ts:306-313 | none exactly when only bubbles are cached; otherwise the greatest creation time of a cached server row |
| MessageCache.NextCursor | frontend/lib/messagesCache.ts:35-37 | a cursor exactly after a full page, at its oldest row |
| MergeSafety.ReplacedAt | frontend/lib/messagesCache.ts:81-97 | a replacement rewrites exactly one position: the first match |
| MergeSafety.MergeOneShape | frontend/lib/messagesCache.ts:99-128 | what a merge does, exactly: the first row with the nonce is replaced; else a held id is ignored; else an own server row replaces the first bubble with its text; else the row goes to the front, and then nothing held was answered by it |
| MergeSafety.OthersTouchNoBubble | frontend/lib/messagesCache.ts:114-121 | a message by anyone else that names no bubble this client shows leaves every row in place, in any batch |
| MergeSafety.PagesKept | frontend/lib/messagesCache.ts:122-127 | a merge moves no row to another page: a new one goes onto the first |
| MergeSafety.MergeOneSafe | frontend/lib/messagesCache.ts:99-128 | one merge loses no server row, invents none, ends holding the incoming server id, adds at most one row, and keeps nonces to bubbles |
| MergeSafety.MergeAllSafe | frontend/lib/messagesCache.ts:133-147 | a batch leaves exactly the server ids that were held or arrived, loses and invents nothing, and grows the cache by at most one row per message |
| MergeSafety.NonceBatch | frontend/lib/messagesCache.ts:99-109 | merging server rows never multiplies a bubble, and consumes the one whose nonce it carries |
| MergeSafety.MergeIdempotent | frontend/lib/messagesCache.ts:99-147 | merging the same batch of server rows a second time changes nothing, even where the cache repeats a server id, as long as no bubble the batch names is held twice |
| MergeSafety.BubblesStayUnique | frontend/lib/messagesCache.ts:58-64 | and no run of merges ever holds a bubble twice |
| MergeSafety.RedeliveryChangesNothing | frontend/lib/messagesCache.ts:99-147 | so in every cache that merges build on fetched pages, delivering a batch again is a no-op |
| MergeSafety.HeldAbsorbs | frontend/lib/messagesCache.ts:111-112 | fetched rows add no copy of a server message the cache already holds |
| MergeSafety.UniquenessKeptExactlyWhen | frontend/lib/messagesCache.ts:99-112 | ids stay unique exactly when the incoming id is not already cached beside the bubble carrying its nonce (rule (a) precedes rule (b)) |
| MergeSafety.DuplicateRun | frontend/lib/messagesCache.ts:99-120 | a run that gets there: two bubbles with one text, a resync pairing the first message with the newer bubble, then its own echo, leave the message cached twice |
| Mispairing.FirstArrival | frontend/lib/messagesCache.ts:114-120 | the first arrival of an own message uses up exactly one bubble of its text whenever one is held |
| Mispairing.BubblesNeverOutnumber | frontend/lib/messagesCache.ts:114-120 | in every history, whatever echoes are lost or late and however rule (c) pairs, no more bubbles of a text are held than sends of it have yet to arrive |
| Mispairing.MispairingHeals | frontend/lib/messagesCache.ts:114-120 | so once every send of a text has arrived no bubble of it is left: the mispairing heals |
| MergeSafety.MergeKeepsTail | frontend/lib/messagesCache.ts:122-127 | a merge whose nonce is not the last page's last row leaves that row last and no page shorter |
| MergeSafety.CursorKept | frontend/lib/messagesCache.ts:122-136 | no batch moves the keyset cursor of a cache whose last page is full, and a cursor that appears is the old tail |
| Rendering.InsertSorted | frontend/lib/messagesCache.ts:342-344 | insertion keeps the list strictly sorted by (time, id) and adds exactly the given row |
| Rendering.DedupById | frontend/lib/messagesCache.ts:335-341 | the map holds, for exactly the cached ids, the copy to show: a server row whenever one is cached, the earliest otherwise |
| Rendering.SortValues | frontend/lib/messagesCache.ts:342-344 | the values of the map, each once, strictly sorted by (time, id) |
| Rendering.FlattenSortedDedup | frontend/lib/messagesCache.ts:334-345 | the result is strictly sorted, by creation time and then id, and contains exactly the shown copies |
| Rendering.RenderingFaithful | frontend/lib/messagesCache.ts:315-345 | each cached id is rendered exactly once, as a server row exactly when one is cached, and no other id is; of equal copies the first held is shown |
| Rendering.RenderingUnique | frontend/lib/messagesCache.ts:334-345 | that specification determines the list |
| Rendering.RenderingOfSet | frontend/lib/messagesCache.ts:334-345 | with unique ids the list depends only on the set of rows held, not on pages or order |
| Rendering.DeliveryOrderIrrelevant | frontend/lib/messagesCache.ts:99-147 | with no bubble, any two deliveries of the same server ids, in any order and with any repetition, render the same ids in the same order |
| Reactions.ReactorsToggle | internal/store/reactions.go:28-51 | a toggle removes the user from, or appends the user to, that emoji's reactors, and leaves every other list alone |
| Reactions.ReactGroupsAdd | frontend/lib/messagesCache.ts:275-283 | an added event appends the user to one emoji's group, opening it if needed; counts stay list lengths and no group is empty or repeated |
| Reactions.ReactGroupsRemove | frontend/lib/messagesCache.ts:286-296 | a removed event takes the user out of one group, dropping it when emptied; the same well-formedness |
| Reactions.ToggleAgrees | frontend/lib/messagesCache.ts:263-301 | if the client's groups summarise the table, applying the announced action summarises the toggled table |
| Reactions.EventTakesHold | frontend/lib/messagesCache.ts:263-301 | whatever was missed before, an event takes hold: its user is in the group exactly after an added one, no one else moves, and an event that says nothing new changes nothing |
| Reactions.SecondHearing | frontend/lib/messagesCache.ts:183-301 | an event heard twice changes nothing the second time, and a deleted message takes no more edits or deletes |
| Reactions.ReactionAgreement | frontend/lib/messagesCache.ts:263-301 | for every run of toggles the folded client groups give, per emoji, the reactors, order and count the table gives |
| Reactions.GroupRow | internal/store/reactions.go:84-102 | one iteration keeps the groups a summary of the rows read so far and the position index exact |
| Reactions.ListReactionsForMessages | internal/store/reactions.go:57-109 | each listed message's groups summarise the table, and an unlisted message has no reaction |
| Simulation.SnapshotSimulates | internal/store/messages.go:72-121 | a fetched history is a starting point: what it lacks is missing, nothing is stale |
| Simulation.InsertedMirrors | frontend/lib/messagesCache.ts:44-56 | the live form of a just inserted message equals the row the server would serve, and no other row is affected |
| Simulation.ArrivalSim | frontend/hooks/useWebSocket.tsx:213-228 | a new message, live or as a REST response, keeps the cache in step and changes nothing about what is missing |
| Simulation.UnannouncedSim | internal/handlers/messages.go:163-176 | a message this client is not told of is one the cache lacks: exactly that message more is missing |
| Simulation.BubbleSim | frontend/hooks/useMessages.tsx:163-192 | showing a bubble keeps the cache in step |
| Simulation.StatusPatchSim | frontend/lib/messagesCache.ts:152-174 | failing or retrying a bubble keeps the cache in step |
| Simulation.TextTracks | internal/store/messages.go:150-185 | an edit or soft delete and its event carry every mirrored row to the new masked row |
| Simulation.ReadTracks | internal/store/read_receipts.go:14-25 | a new receipt and its event keep readers equal, in order |
| Simulation.ReactTracks | frontend/hooks/useWebSocket.tsx:316-327 | a toggle and its event keep the reactors equal |
| Simulation.DeliverSim | frontend/hooks/useWebSocket.tsx:210-348 | a commit whose event arrives keeps the cache in step |
| Simulation.MissSim | frontend/hooks/useWebSocket.tsx:129-136 | a commit whose event is missed makes stale at most the one held row it changes, and missing exactly the one message it inserts |
| Simulation.ResyncSim | frontend/hooks/useWebSocket.tsx:148-154 | merging fetched rows, however old, fills in exactly the missing messages among them; of those only rows that are out of date become stale |
| Simulation.StepSim | frontend/hooks/useWebSocket.tsx:210-348 | every step of server or client keeps the simulation |
| Simulation.CacheSimulatesServer | frontend/hooks/useWebSocket.tsx:210-348 | for every run, missed events and late resyncs included: each cached server row that is not stale equals the masked server row in author, time, content, deletion, edit time, readers and reactors, and the cache lacks exactly the messages tracked as missing |
| Simulation.ConnectedStaysCurrent | internal/handlers/messages.go:126-177 | with the connection up nothing becomes stale, and exactly the messages sent over REST by other clients become missing |
| Simulation.RenderedIsServer | frontend/lib/messagesCache.ts:334-345 | after any run the list on screen is strictly sorted, shows each message that is not missing once and no missing one, and its rows are the server's, stale, or local bubbles |
| CommitLog.RowsAsAsked | internal/store/messages.go:150-185 | after every sequence of requests each stored message is the one asked for: author and time as sent, its text the last edit by its author that counted or else as sent, deleted by the first delete by its author or an admin; an edit by anyone else, or after that, does not count |
| CommitLog.SentIffStored | internal/store/messages.go:49-67 | a message is stored exactly when it was sent |
| CommitLog.ReadersOf | internal/store/read_receipts.go:14-60 | its readers are the users who read it while it was there, each once, by their first read |
| CommitLog.ReactorsOf | internal/store/reactions.go:28-51 | its reactors are the users who toggled the emoji an odd number of times while it was there, by their last toggle |
| CommitLog.CacheShowsAsAsked | frontend/hooks/useWebSocket.tsx:210-348 | so after any run, missed events and late resyncs included, every cached server row that is not stale shows what the requests asked for: its author's last words, masked once deleted, its readers and reactors; and of the messages sent the cache lacks exactly those counted as missing |
| Echoes.SendShows | frontend/hooks/useMessages.tsx:163-192 | sending shows the bubble, once |
| Echoes.BubbleAwaits | frontend/hooks/useMessages.tsx:100-192 | through any run in which nothing answers it, a sent message's bubble stays on, once, with its text, failed after a time-out and sending after a retry |
| Echoes.AnsweredForGood | frontend/lib/messagesCache.ts:102-109 | once its own echo or REST response has come the bubble is gone, and stays gone unless sent again |
| Echoes.RetryStoresTwice | frontend/hooks/useMessages.tsx:120-160 | a send over the socket whose echo was lost is stored a second time by its retry; the cache shows the second and lacks the first, and a resync brings that in beside it |
| Staleness.RunMoves | internal/store/messages.go:150-185 | over any run a message has a later edit, a delete or more readers exactly when the commit log altered it; otherwise text and readers are the same |
| Staleness.LateMergeExactlyWhen | frontend/hooks/useWebSocket.tsx:134-154 | rows fetched each at its own moment of a run and merged at its end make nothing more stale exactly when each was held by then, stale already, or, but for toggles that cancel out, not changed on the server since it was fetched |
| Staleness.LateMergeWitness | frontend/hooks/useWebSocket.tsx:129-154 | a run in which it fails: the cache holds an older message as its anchor, a resync fetches a newer one, that one is deleted before the merge, heard or not, and the cache then shows its text |
| Staleness.MissExactlyWhen | frontend/hooks/useWebSocket.tsx:129-136 | a missed commit costs a cache that is in step exactly when it changes a message the cache holds |
| Staleness.ResyncRepairsNothing | frontend/lib/messagesCache.ts:111-112 | a resync leaves the copies of every message the cache holds as they are |
| Staleness.MissedDeleteLingers | frontend/hooks/useWebSocket.tsx:129-154 | a missed delete of a held message leaves it shown |
| Staleness.LateMergeLingers | frontend/hooks/useWebSocket.tsx:134-154 | so does merging its row after the delete |
| Staleness.DeletedStaysVisible | frontend/hooks/useWebSocket.tsx:129-154 | a deleted message the cache still shows stays on screen after every further run, events and resyncs included |
| Pagination.Older | internal/store/messages.go:79-97 | the cursor splits the table: everything before the index is older, nothing from it on is |
| Pagination.PageShape | internal/store/messages.go:72-121 | a page holds only rows older than the cursor, newest first, at most the limit |
| Pagination.PageNewest | internal/store/messages.go:72-121 | an eligible row left off a page is older than everything on it, and the page is full |
| Pagination.OlderIsStable | internal/store/messages.go:72-121 | later inserts do not move a cursor |
| Pagination.FetchStep | internal/store/messages.go:72-121 | a fetch yields the keys of the next slice, newest first, whatever was inserted, edited, deleted or reacted to since the first fetch |
| Pagination.CursorMoves | frontend/lib/messagesCache.ts:32-37 | the next fetch resumes right behind a full page exactly when the boundary splits no tie |
| Pagination.ScrollBack | frontend/lib/messagesCache.ts:32-37 | following the cursor to a short page, while messages arrive and change, yields a row for each message of the history at the first fetch, newest first, without gap or repeat, exactly when no page boundary splits equal timestamps; otherwise a message is lost |
| Pagination.TieWitness | internal/store/messages.go:72-121 | such a table: two messages of one moment on pages of one, the older of which no fetch returns |
| Pagination.DistinctTimesNoTie | internal/store/messages.go:72-121 | distinct timestamps rule that out |
| Pagination.ReachesExactlyWhen | frontend/hooks/useWebSocket.tsx:34 | without split ties the page cap suffices exactly when fewer than that many full pages of messages are newer than the anchor |
| Pagination.RemainingVisits | frontend/hooks/useWebSocket.tsx:137-147 | from any cursor the rest of the loop collects exactly the messages at the positions it visits |
| Pagination.RemainingBreaks | frontend/hooks/useWebSocket.tsx:137-147 | and ends by a break exactly when the cap reaches far enough |
| Pagination.VisitedCovers | frontend/hooks/useWebSocket.tsx:141-146 | a loop that ends by a break has covered everything newer than the anchor exactly when no boundary newer than the anchor splits a tie |
| Pagination.BuriedNotVisited | frontend/hooks/useWebSocket.tsx:145-146 | a message with a full page of newer ones up to the anchor is never reached |
| Pagination.FetchBack | frontend/hooks/useWebSocket.tsx:135-147 | the loop collects what its recursive description says, page cap and both breaks included |
| Pagination.FetchedBack | frontend/hooks/useWebSocket.tsx:135-147 | these three for the whole loop against the table of the first fetch |
| Pagination.MergeCollected | frontend/hooks/useWebSocket.tsx:148-154 | the cache then holds what merging the collected rows one by one gives: exactly the server messages it held and those collected, none lost or invented, and every bubble but those an own message collected answers |
| Pagination.ResyncRoom | frontend/hooks/useWebSocket.tsx:129-157 | the anchor is the newest creation time of a held server row; after a resync that ended by a break the cache holds every message that existed at the first fetch and is newer than the anchor if no boundary newer than the anchor splits a tie, and only then was every one collected; bubbles nothing collected answers stay; without an anchor nothing changes |
| Backfill.FetchedIds | frontend/hooks/useWebSocket.tsx:135-154 | a resync fetches exactly the messages at the visited positions, so the missing messages lose exactly those |
| Backfill.HeldPageBuries | frontend/hooks/useWebSocket.tsx:132-146 | a missing message is buried once a page of newer ones is held |
| Backfill.BuriedNotFetched | frontend/hooks/useWebSocket.tsx:129-154 | no resync begun while a message is buried fetches it |
| Backfill.UpToDateFetchesExactlyWhen | frontend/hooks/useWebSocket.tsx:129-154 | when the newest message is held, a resync fetches a message exactly when it is not buried |
| Backfill.StaysMissing | frontend/hooks/useWebSocket.tsx:129-157 | a missing buried message stays missing through every further run, events and resyncs included |
| HubModel.Client.TrySend | internal/websocket/hub.go:314-323 | requires an open queue; appends unless the queue is full |
| HubModel.Client.CloseQueue | internal/websocket/hub.go:232-241 | requires an open queue: no queue is closed twice |
| HubModel.Hub.Detach | internal/websocket/hub.go:295-308 | takes the connection out of one room; the room is dropped and the broker told exactly when it was the last |
| HubModel.Hub.DetachUser | internal/websocket/hub.go:253-265 | the same for the user index |
| HubModel.Hub.DetachAll | internal/websocket/hub.go:232-248 | leaves every room of the connection's own set, whatever the iteration order |
| HubModel.Hub.RemoveClient | internal/websocket/hub.go:232-248 | the connection is gone from every index, its queue closed once, presence told once with its user and rooms; a second call changes and says nothing; nobody else is touched |
| HubModel.Hub.AddClient | internal/websocket/hub.go:157-165 | registers, keeping the indexes coherent |
| HubModel.Hub.AddToRoom | internal/websocket/hub.go:267-282 | a registered connection enters the room in both directions; a removed one is ignored |
| HubModel.Hub.RemoveFromRoom | internal/websocket/hub.go:284-291 | leaves in both directions; safe on a removed connection |
| HubModel.Hub.OfferTo | internal/websocket/hub.go:314-323 | a connection gets the payload, or is dropped and presence told of it |
| HubModel.Hub.FanOut | internal/websocket/hub.go:314-336 | each target gets the payload or is dropped, every other connection is untouched, coherence survives the drops, and presence is told of exactly the connections dropped, each once with its user and rooms |
| HubModel.Hub.Deliver | internal/websocket/hub.go:314-323 | a room broadcast is offered to exactly the registered connections in the room; presence hears of exactly those dropped |
| HubModel.Hub.DeliverToUser | internal/websocket/hub.go:327-336 | a user broadcast to exactly the user's registered connections; presence likewise |
| HubModel.Hub.TakeNext | internal/websocket/client.go:91-128 | the write pump takes the oldest queued payload, also after the queue was closed |
| HubModel.Hub.Handle | internal/websocket/hub.go:152-179 | one command: every connection makes exactly its own automaton's step, all indexes stay coherent, the broker is told of exactly the rooms and users that lost their last connection, and presence of exactly the connections dropped, with their users and rooms |
| HubModel.DeliveryLog | internal/websocket/hub.go:314-336 | in every run, what a connection was handed plus what is queued is exactly what was addressed to it while registered, each once and in order; only the payload that overflowed the queue is missing, and that ends the connection |
| HubModel.GoneForever | internal/websocket/hub.go:232-248 | a removed connection stays removed and is owed nothing more |
| HubModel.GoneExactlyWhen | internal/websocket/hub.go:232-248 | a connection is gone exactly when it was unregistered or a send found its queue full, and known exactly when it registered |
| HubModel.ReportedExactlyWhen | internal/websocket/hub.go:245-247 | in every run presence has been told of a connection once if it is gone and not at all otherwise, with its user and the rooms it was in last |
| HubModel.PumpHandsOver | internal/websocket/client.go:91-128 | the write pump hands over everything queued, in order, also after the connection is gone |
| HubModel.RoomsAreJoins | internal/websocket/hub.go:267-291 | a connection is in a room exactly when some join was processed while it was registered and no leave followed |
| HubModel.WhoIsAddressed | internal/websocket/hub.go:314-336 | a room payload is for the connections registered and joined since they last left, a user payload for the user's registered connections, and nothing else is for anybody |
| HubModel.HubDelivers | internal/websocket/hub.go:152-336 | the Hub's objects obey the delivery log; queues are closed exactly when removed; the indexes list a connection exactly under the rooms it joined and under its user |
| BrokerModel.Broker.Request | internal/websocket/broker.go:93-99 | the request is queued last |
| BrokerModel.Broker.Unsubscribe | internal/websocket/broker.go:111-122 | queued last, or dropped by a full backlog |
| BrokerModel.Broker.ApplyNext | internal/websocket/broker.go:200-221 | takes the oldest request; a subscribe is granted without Redis when already active and refused exactly when Redis fails |
| BrokerModel.StepInv | internal/websocket/handlers.go:77-83 | every quiet step of the join protocol keeps the invariant: each waiting request stands behind all stale unsubscribes of its room |
| BrokerModel.SubscriptionSafety | internal/websocket/broker.go:84-122 | in every run where no room is emptied while a join of it is in flight, every room with a local client is subscribed with no unsubscribe pending |
| BrokerModel.EmptyingExactlyWhen | internal/websocket/hub.go:295-308 | after a room's last client departs, some continuation without further offence loses a room exactly when a join of it was in flight and the backlog had room for the unsubscribe |
| BrokerModel.LostRoom | internal/websocket/broker.go:108-122 | whichever join is in flight, queued or answered: working off the backlog and seating the client leaves it in a room this server no longer receives |
| BrokerModel.AnswerExactly | internal/websocket/broker.go:200-221 | the oldest request answered: an active subscription is granted whatever Redis says, a new one exactly if Redis accepts; a refused join is over and nobody else affected |
| BrokerModel.JoinCompletes | internal/websocket/handlers.go:77-83 | with Redis up a join completes: the client is seated, the room subscribed, no unsubscribe left |
| BrokerModel.GivenUpLeaks | internal/websocket/broker.go:93-106 | a join that times out leaves its request behind: the room ends subscribed with no local client |
| UserChannels.StepInv | internal/websocket/broker.go:133-158 | the user-channel protocol keeps its invariant under the corresponding condition |
| UserChannels.UserChannelSafety | internal/websocket/server.go:131-148 | in every such run each seated connection that was granted its channel stays subscribed |
| UserChannels.PromptHubIsSafe | internal/websocket/server.go:131-148 | registering before asking pays off: if the Hub seats connections before they ask, this holds with no condition on departures |
| UserChannels.LastDepartureExactlyWhen | internal/websocket/broker.go:151-158 | after a user's last seated connection departs, some continuation loses a channel exactly when another connection had asked without being seated and the backlog had room |
| UserChannels.LostChannel | internal/websocket/broker.go:133-158 | for any such connection, waiting or granted, the continuation: it ends seated, granted and without its channel |
| UserChannels.AnswerExactly | internal/websocket/broker.go:224-245 | the oldest user request answered: granted if active or accepted, refused otherwise; no other connection affected |
| UserChannels.ConnectionCompletes | internal/websocket/server.go:131-148 | with Redis up a new connection ends seated, granted and subscribed |
| UserChannels.LateRequestLeaks | internal/websocket/server.go:131-148 | a connection that asks after it has gone leaves its channel subscribed with nobody there |
| HubBroker.TurnIsDepartures | internal/websocket/hub.go:295-308 | any shrinking of the room index with its lost rooms announced is a sequence of departures, quiet if no lost room has a join in flight |
| HubBroker.Turn | internal/websocket/hub.go:152-179 | every turn of the Hub other than a join, with the unsubscribes it requests, is such a sequence of protocol steps on the Hub's own index |
| HubBroker.TurnJoin | internal/websocket/handlers.go:77-83 | a join is the protocol's seating step and keeps the Hub receiving |
| HubBroker.SafeTurn | internal/websocket/hub.go:314-336 | under every command, removals in mid fan-out included, each room with a local connection stays subscribed with no unsubscribe pending, unless a room lost its last connection under a join |
| HubUsers.UsersTurn | internal/websocket/hub.go:232-265 | the connections a turn drops, with the user unsubscribes it announces, are a sequence of departures of the user-channel protocol, quiet unless an announced user is exposed |
| Desks.TurnAnnounces | internal/websocket/hub.go:253-265 | the users a turn of the Hub announces are exactly those the protocol has it announce |
| Desks.RoomDesk.Ask | internal/websocket/broker.go:93-99 | a request to the broker is the protocol's asking step, or nothing while the backlog is full |
| Desks.RoomDesk.Apply | internal/websocket/broker.go:200-221 | the broker's next request with its answer is the protocol's applying step |
| Desks.RoomDesk.Departed | internal/websocket/hub.go:295-308 | a turn's lost rooms are taken out and unsubscribed in order, which keeps the state reachable by quiet steps unless one had a join in flight |
| Desks.UserDesk.Ask | internal/websocket/broker.go:133-146 | the same for a connection's own channel, asked for once, also after it has gone |
| Desks.UserDesk.Apply | internal/websocket/broker.go:224-245 | and for its answer |
| Desks.UserDesk.Departed | internal/websocket/broker.go:151-158 | and for the users a turn lost |
| ServerRun.Server.Command | internal/websocket/hub.go:152-179 | a turn of the Hub keeps its indexes and both protocols in agreement |
| ServerRun.Server.Step | internal/websocket/server.go:131-164 | every event has its effect: a registration is taken on for the user who opened the connection, a close, leave, payload, pump or granted join is the Hub's next command, requests and answers are the protocols' steps; nobody is forgotten or comes back, and a closed connection is out |
| ServerRun.Run | internal/websocket/server.go:131-164 | for every sequence of events: the connections known are those registered, under the users who opened them, and none closed since is listed; if no room was emptied under a join, every room in the Hub's index is subscribed with no unsubscribe pending; if no user's last connection left while another had asked unregistered, every granted listed connection has its channel |
| Rooms.Oldest | internal/store/rooms.go:232-239 | the active member with the least (joined_at, id) exists |
| Rooms.SetRoleOk | internal/store/rooms.go:153-202 | a role change guarded by the admin count never leaves a governed room without an admin |
| Rooms.PromoteGoverns | internal/store/rooms.go:222-254 | after succession the room is empty or has an admin, with the same members |
| Rooms.LeaveOk | internal/handlers/rooms.go:615-648 | a departure with its succession keeps the room's invariant, direct rooms included |
| Rooms.ResumeOk | internal/store/rooms.go:346-352 | reactivating a direct room keeps it a pair of plain, never banned members |
| Rooms.OpenDirectInv | internal/store/rooms.go:324-409 | opening or resuming keeps one direct room per pair |
| Rooms.StepInv | internal/handlers/rooms.go:195-781 | every request keeps the invariant: banned implies departed, direct rooms are unique pairs, groups and private channels are governed |
| RoomEffects.RefusedChangesNothing | internal/handlers/rooms.go:195-781 | a request that is refused changes nothing |
| RoomEffects.KickExactly | internal/handlers/rooms.go:747-781 | a kick is granted exactly to an admin, of another active member; that member is then out and banned and cannot walk back in, and nobody else changes |
| RoomEffects.InviteExactly | internal/handlers/rooms.go:403-451 | an invite is granted exactly to an admin, of an existing user who is not active; that user is then a plain, unbanned member since now, and nobody else changes |
| RoomEffects.JoinExactly | internal/handlers/rooms.go:492-559 | a self-join is granted exactly into a public, unarchived channel, without a ban, by one who is not active; with the same effect |
| RoomEffects.LeaveExactly | internal/handlers/rooms.go:615-648 | a leave is granted exactly to an active member, who is then out and not banned by it; the others keep everything but at most a role |
| RoomEffects.ChangeRoleExactly | internal/handlers/rooms.go:689-745 | a role change is granted exactly to an admin, of an active member, unless it would demote the only admin; it sets that role and changes nobody else |
| RoomEffects.CreateChannelExactly | internal/store/rooms.go:57-92 | a channel is as public as asked, with its creator as only member and admin |
| RoomEffects.CreateGroupExactly | internal/handlers/rooms.go:195-304 | a group is private, has exactly the distinct users listed and its creator as admin, and is refused exactly for a malformed, self-listing or too short list, or an unknown user |
| RoomEffects.OpenDirectExactly | internal/store/rooms.go:324-409 | a direct room is refused exactly with oneself or an unknown user; the pair's room is reopened with both back in it and nothing else changed, or made |
| RoomRuns.AdminSuccession | internal/store/rooms.go:204-254 | in every reachable state a group or private channel with an active member has an active admin |
| RoomRuns.EmptiedStaysEmpty | internal/handlers/rooms.go:403-451 | once emptied it stays empty |
| RoomRuns.OnlySelfJoinBreaks | internal/handlers/rooms.go:492-559 | the only step that takes a channel or group from governed to members without an admin is a self-join into an emptied public channel, and that always does |
| RoomRuns.LeaveRestores | internal/handlers/rooms.go:615-648 | every leave ends governed: the longest-tenured remaining member is promoted exactly when no admin remains, and nothing else changes |
| RoomRuns.DirectRoomShape | internal/store/rooms.go:324-409 | in every reachable state a pair has at most one direct room, with exactly two rows, neither admin or banned |
| RoomRuns.DirectRoomResumes | internal/store/rooms.go:324-352 | asking again, from either side after any run, returns the same room with both sides active |
| RoomRuns.BannedIsDeparted | internal/store/rooms.go:575-610 | in every reachable state a banned user is not active |
| RoomRuns.BanStep | internal/store/rooms.go:527-554 | a ban is lifted exactly by an active admin's invite of an existing user |
| RoomRuns.KickedUntilInvited | internal/store/rooms.go:580-594 | from an admin's kick of an active member on: whenever that user is active again, an admin's invite happened in between |
| RoomRuns.BrowseListExact | internal/store/rooms.go:615-652 | a channel is in the browse list exactly when self-join would succeed; joining makes a plain member and removes it from the list |
| RoomLog.ActiveExactlyWhen | internal/handlers/rooms.go:195-781 | in every run somebody is in a room exactly when a granted request let them in and they have since neither left nor been kicked |
| RoomLog.BannedExactlyWhen | internal/store/rooms.go:580-610 | in every run somebody is banned exactly when they were kicked and not invited since |
| RoomLog.AdminExactlyWhen | internal/store/rooms.go:153-254 | in every run somebody is an admin exactly when they were made one (creator, by an admin, or as longest-standing member when the last admin left) and have since neither left nor been kicked or demoted |
| RoomLog.RoomAsCreated | internal/store/rooms.go:57-135 | a room is of the kind and visibility asked for when it was made, for good |
| RoomStore.ValidateGroupMemberIds | internal/handlers/rooms.go:77-98 | the first offending entry decides the error; otherwise exactly the distinct users listed, repeats dropped, or too few exactly when fewer than two |
| RoomStore.InsertMembers | internal/store/rooms.go:127-134 | the creator's admin row and one plain row per member |
| RoomStore.Upsert | internal/store/rooms.go:534-554 | inserts, or resets a departed row with its ban; an active row is left alone and reported |
| RoomStore.StampDeparture | internal/store/rooms.go:559-594 | stamps the row, with a ban for a kick, exactly if it was active |
| RoomStore.Reactivate | internal/store/rooms.go:347-367 | reactivates exactly the departed rows of the pair and returns their users |
| RoomStore.CountAdmins | internal/store/rooms.go:176-184 | counts the active admins |
| RoomStore.Store.IsRoomAdmin | internal/handlers/middleware.go:31-60 | an active membership with the admin role |
| RoomStore.Store.CreateChannel | internal/store/rooms.go:57-92 | performs the specified step |
| RoomStore.Store.CreateGroup | internal/handlers/rooms.go:195-304 | performs the specified step on the request's own list: refused, unknown user, or a room of the distinct users listed |
| RoomStore.Store.FindDirect | internal/store/rooms.go:336-343 | finds the pair's direct room exactly when there is one, left or not |
| RoomStore.Store.OpenDirect | internal/store/rooms.go:324-409 | performs the specified step: refuse oneself and unknown users, resume, or create; reports whether the room is new and whether the peer had left |
| RoomStore.Store.InviteMember | internal/handlers/rooms.go:403-451 | performs the specified step |
| RoomStore.Store.SelfJoin | internal/handlers/rooms.go:492-559 | performs the specified step: not joinable, banned, already active, or joined |
| RoomStore.Store.PickOldest | internal/store/rooms.go:232-239 | the scan returns the unique longest-tenured member |
| RoomStore.Store.Leave | internal/handlers/rooms.go:615-648 | performs the specified departure and succession, and reports whom it promoted |
| RoomStore.Store.ChangeMemberRole | internal/store/rooms.go:153-202 | performs the specified step: unchanged role succeeds, the last admin cannot be demoted; reports a change exactly when the tables changed |
| RoomStore.Store.KickMember | internal/handlers/rooms.go:747-781 | performs the specified step |
| RefreshTokens.TokenStore.CreateRefreshToken | internal/store/refresh_tokens.go:32-50 | performs the specified step |
| RefreshTokens.TokenStore.RotateRefreshToken | internal/store/refresh_tokens.go:65-117 | the table and the verdict are those of the specification: unknown, reused (family revoked), expired, rotated |
| RefreshTokens.TokenStore.RevokeRefreshTokenFamily | internal/store/refresh_tokens.go:129-135 | revokes exactly the family's tokens |
| RefreshTokens.TokenStore.LogoutSession | internal/handlers/auth.go:299-304 | revokes the family of the caller's own token, and nothing otherwise |
| RefreshTokens.RunInv | internal/store/refresh_tokens.go:32-135 | in every reachable state a family has one user and at most one unrevoked token |
| RefreshTokens.RotatesOnce | internal/store/refresh_tokens.go:65-117 | in every run each token rotates successfully at most once |
| RefreshTokens.ReplayKills | internal/store/refresh_tokens.go:79-90 | a replay or a logout leaves the family without a usable token |
| RefreshTokens.DeadForever | internal/store/refresh_tokens.go:65-135 | from then on no token of the family ever rotates |
| RefreshTokens.RotateExactly | internal/store/refresh_tokens.go:65-117 | a token rotates exactly when known, unspent and unexpired, into one of the same user and family; a spent one ends its family only, an unknown or expired one changes nothing |
| RefreshTokens.SpentExactlyWhen | internal/store/refresh_tokens.go:32-135 | in every run a token exists exactly once issued, and is revoked exactly once it rotated, a spent token of its session was presented, or its owner logged out |
| RefreshTokens.AsIssued | internal/store/refresh_tokens.go:32-117 | its user, family and expiry are those it was issued with |
| RefreshTokens.RefreshExactlyWhen | internal/store/refresh_tokens.go:65-117 | so in every run a refresh is granted exactly when its token was issued, has not been spent and is not past the expiry it was issued with |
| RefreshTokens.ApiClient.RefreshAccessToken | frontend/lib/api.ts:125-132 | joins the refresh in flight, or starts one with the stored token |
| RefreshTokens.ApiClient.SettleRefresh | frontend/lib/api.ts:80-112 | the response replaces or clears the stored token, a network failure keeps it, and the promise is cleared |
| RefreshTokens.MoveKeepsSingleFlight | frontend/lib/api.ts:80-132 | every move keeps: one request in flight exactly while the promise is set, presenting or bringing back the family's live token |
| RefreshTokens.RefreshNeverTripsReuse | frontend/lib/api.ts:114-132 | for any number of callers and any other sessions, at most one rotation is in flight and the server accepts every one |
| RefreshTokens.LossExactlyWhen | frontend/lib/api.ts:88-96 | a failed call is survivable exactly when the server had not seen it; otherwise the next refresh kills the session |
| RefreshTokens.TwoFlightsKill | frontend/lib/api.ts:114-124 | without single flight, presenting one token twice revokes the family, the new token included |
| RefreshTokens.RefreshRoundTrip | frontend/lib/api.ts:80-132 | a refresh granted and received leaves the new token stored and live and everybody answered; further callers only wait |
| RefreshTokens.RefusedEndsSession | frontend/lib/api.ts:98-106 | a token the server does not accept is forgotten and asks no more |
| RefreshTokens.EveryoneShares | frontend/lib/api.ts:114-132 | in every session the waiting callers are exactly those who called since the refresh in flight began |
| Idempotency.SendApi.ReserveKey | internal/store/messages.go:194-200 | claims the key exactly when it is free |
| Idempotency.SendApi.SendMessage | internal/handlers/messages.go:126-177 | the handler is its reserve, insert and release steps in a row; 201 exactly when the insert succeeds under a free key or without one, 409 exactly under a claimed key, and the key is held afterwards exactly if it was, or the message was stored, or its release failed |
| Idempotency.StepKeysOwned | internal/handlers/messages.go:153-172 | every interleaved step keeps: each reserved key has exactly one owner |
| Idempotency.AtMostOneInsert | internal/handlers/messages.go:153-175 | however sends interleave, no two stored messages share a room, user and non-empty key |
| Idempotency.SettledKeyExactlyWhen | internal/handlers/messages.go:163-172 | when all sends of a key are answered, the key is held exactly when its message was stored or a release failed |
| Idempotency.ConflictHasOwner | internal/handlers/messages.go:153-163 | a conflict is answered only while another request owns the key |
| Idempotency.ReleasedCanBeClaimed | internal/store/messages.go:202-210 | a key released after a failed insert is claimed by the next send |
| Idempotency.ReserveExactlyWhen | internal/handlers/messages.go:153-163 | in every run a reservation is refused exactly while another request owns the key, fails exactly when Redis cannot be reached, and otherwise goes on |
| Idempotency.ClaimedKeyConflicts | internal/handlers/messages.go:153-163 | a send that finds its key claimed is answered with a conflict for good and its message is never stored |
| Idempotency.StoredExactlyWhen | internal/handlers/messages.go:165-175 | in every run a message is stored exactly when its request got to insert and the insert succeeded |
| Idempotency.ReleaseExactlyWhen | internal/handlers/messages.go:166-171 | after a failed insert the key is given back, and stuck exactly when that fails |
| PresenceModel.PresenceServer.PresenceConnect | internal/store/presence.go:33-56 | the specified step; online exactly on the step up from zero |
| PresenceModel.PresenceServer.PresenceDisconnect | internal/store/presence.go:61-85 | the specified step, the reset of a negative counter included |
| PresenceModel.PresenceServer.PresenceHeartbeat | internal/store/presence.go:93-107 | the specified step |
| PresenceModel.PresenceServer.PresenceSetStatus | internal/store/presence.go:112-117 | the specified step |
| PresenceModel.PresenceServer.ConnectionOpened | internal/websocket/presence.go:72-81 | announces exactly what the counter says |
| PresenceModel.PresenceServer.ConnectionClosed | internal/websocket/presence.go:88-101 | announces exactly what the counter says |
| PresenceModel.CounterCountsConnections | internal/store/presence.go:33-85 | in every history where only open connections close, the counter is the number of live connections and the announcements strictly alternate from online, the last telling whether anyone is connected |
| PresenceModel.NeverNegative | internal/store/presence.go:70-76 | the counter is never negative, whatever the order of events |
| PresenceModel.ClosesKeepStepExactlyWhen | internal/store/presence.go:61-85 | a close keeps counter and announcements in step exactly when it closes an open connection |
| PresenceModel.StatusSurvives | internal/store/presence.go:27-47 | an explicit status survives heartbeats, further connects and all but the last disconnect |
| PresenceModel.StatusForgotten | internal/store/presence.go:61-85 | the last disconnect clears it and the next connect starts online |
| PresenceModel.EventShows | internal/store/presence.go:33-107 | only the first connection and the end of the last are announced and written, as the connections have it, besides what the user sets |
| PresenceModel.LastShown | internal/store/presence.go:33-117 | in every history the row and the status are what was shown last: online by the first connection, offline by the end of the last, or what the user set; only a departure clears the status, and a heartbeat after it brings it back as online |

## Left out

- The cache of several rooms at once: read and reaction events carry no room id and are applied to every cached room; the model holds one room.
- `message_type`, `updated_at`, usernames and avatars: the live event does not carry the first two, and the others are display data.
- Optimistic edit and delete with rollback, and query refetches: they replace the whole cache from a snapshot.
- Scrolling back within a run of the cache: fetching history older than its tail is modelled on its own (`Pagination.ScrollBack`), not as a step of `Simulation`, so `Backfill.StaysMissing` speaks of events and resyncs only.
- The delay between a REST response and its merge: the sender's own REST message reaches the cache in the step that stores it. For resync the delay is modelled (`Staleness.LateMergeExactlyWhen`).
- Whether somebody is an admin when they delete a message is a parameter of the request; that only the author or an admin can is modelled.
- Mispairing.BubblesNeverOutnumber: a send is stored once and arrives with the text it was sent with. If a retry stores it twice (`Echoes.RetryStoresTwice`) a bubble of the same text may be used up early; if it is edited before a resync first brings it, rule (c) cannot match it and its bubble stays.
- ISO timestamp strings: times are ordered numbers, so comparing strings with different offsets is not part of this model.
- Replies pushed by the read loop (`internal/websocket/client.go:139-148`): outside the Hub's delivery path.
- Ping frames and the write deadline of the write pump: only its order of delivery is modelled.
- Publishing through Redis and between servers: the broker model is one server's subscriptions.
- RoomStore.Store.ChangeMemberRole: handler-atomic like all membership steps, so two concurrent demotions, two admins kicking each other, and a leave racing another (`internal/store/rooms.go:216-221`) are not interleaved.
- Archiving a room and system administration: no handler modelled here archives, though self-join checks the flag.
- RefreshTokens.RefreshNeverTripsReuse: assumes no lost response, expiry or logout of that session; `RefreshTokens.LossExactlyWhen` says what a lost response does.
- The expiry of idempotency and presence keys, and database errors after a presence counter changed.
- Idempotency.AtMostOneInsert: an insert either stores the message or not; an error reported for a stored message is not modelled.
- Tokens, password hashing, JSON, HTTP status codes beyond the outcome kinds, SQL and Redis engines.
- Typing indicators, reconnect timers, auto-away, admin listings and field validators.
