# Proofs about the messaging services

A Dafny model of six pieces of the messaging backend and proofs of what they promise.
`dafny verify dfyconfig.toml` checks everything.

| file | models |
|---|---|
| `Text.dfy` | trimming and byte order of strings |
| `Recipients.dfy` | cleaning a recipient list, cutting it into batches |
| `Conversations.dfy` | conversation ids |
| `Delivery.dfy` | what delivering one message does to offline lists, publish logs and status rows; when such calls commute |
| `Fanout.dfy` | the concurrent group fan-out: main, channel, wait group and workers as a step relation |
| `History.dfy` | the history query and a client's walk over its cursors |
| `ChatService.dfy` | `SendMessage`, `GetHistory` and the deliveries as methods on the service's tables; whole runs of sends |
| `Groups.dfy` | group membership as a state machine over the two tables; invariants and independence over runs |
| `GroupServer.dfy` | the gateway's group handlers, statement by statement, against that state machine |
| `Hub.dfy` | the websocket hub, its connections and their pumps as a step relation; the client table in the loop's own form |
| `RateLimit.dfy` | the fixed-window limiter and its expiring counters |
| `S3Key.dfy` | escaping of object keys |

**Concurrent parts.** The fan-out and the hub are step relations, and a schedule is a sequence
of step labels; a lemma about all schedules covers every interleaving. Each store call of a
worker, each presence read, each channel operation and each single send or close inside a hub
delivery or shutdown is its own step. Presence may answer anything at each read. Batches are
named by their index, so "taken twice" has a meaning.

**Handlers.** A group handler is one atomic step. What a handler takes from outside (generated
ids and codes, `NOW()`, the row `LIMIT 1` picks among ties, presence, a failing call) is a parameter.

**History.** A table is any sequence of rows with unique, non-blank ids without outer white
space, as the generated uuid texts are; `created_at` and `server_ts` are the same instant,
because one insert writes both. The walk is the client's, following `next_cursor`; the table may
grow between its requests by rows not older than the last row of the page just read.

## Where the code and its intent part

* A history walk loses messages: the filter compares `created_at` alone while the order also
  uses the id. `History.TieLosesMessage` gives a concrete loss; `History.FinishedWalkExact` says
  which rows are lost, and that nothing is lost if and only if no two rows of equal time fall on
  either side of a page boundary.
* Direct conversation ids name their pair only while phones hold no colon.
  `Conversations.ColonsCollide` gives two pairs sharing a conversation;
  `Conversations.BuiltIdCollision` says exactly when two sends share an id.
* So a pair's history is not always the pair's messages. `ChatService.DirectRoundTrip` says when
  it is: it is exact if and only if the rows the walk hides are the strangers' rows. When no
  stranger shares the id that means no tie at a page boundary; when there is no such tie it means
  no stranger. `ChatService.TieHidesStranger` is a table where both conditions fail and the answer
  is still exact, so neither can be dropped from those statements.
* The limiter admits more than `limit` requests per window of time. An interval of n windows
  keeps to n * `limit` in every run if and only if it starts on a multiple of the window; any other
  can let through (n + 1) * `limit`, which is the most (`RateLimit.LimitHoldsExactly`).
* After the hub has shut down nobody receives on its `unregister` channel. Cleanup completes
  exactly for the connections that had registered and left before; of any other that was still in
  the table the pump waits for ever (`Hub.ShutdownStrandsCleanup`, with the run `Hub.StrandedRun`).
* `Conn.Send` does not know that the hub may have closed its channel. It panics exactly when the
  connection has left the table or a shutdown has closed it (`Hub.DirectSendExactly`, with the run
  `Hub.DirectSendPanics`).

## Model

| member | source | states |
|---|---|---|
| `Text.TrimSpaceExact` | services/chat-service/cmd/server.go:349 | trimming takes from both ends all white space and nothing else |
| `Text.TrimSpaceUnique` | services/chat-service/cmd/server.go:349 | and that determines its result |
| `Text.SpaceExact` | services/chat-service/cmd/server.go:349 | which characters are white space, by code point; letters, digits, `+`, `:`, `-` and `_` are not |
| `Text.LessExact` | services/chat-service/cmd/server.go:367-368 | one text precedes another if and only if it is a proper prefix or smaller at the first difference |
| `Recipients.DedupeMembers` | services/chat-service/cmd/server.go:345-360 | someone is kept if and only if some entry trims to them and they are neither blank nor the sender |
| `Recipients.DedupeExact` | services/chat-service/cmd/server.go:345-360 | the kept list is the trimmed entries at increasing positions, so the input order survives |
| `Recipients.PositionsExact` | services/chat-service/cmd/server.go:345-360 | those positions are exactly the first occurrences |
| `Recipients.FirstKept` | services/chat-service/cmd/server.go:345-360 | the first kept recipient is the first entry that is neither blank nor the sender |
| `Recipients.DedupeRecipients` | services/chat-service/cmd/server.go:345-360 | the loop with its `seen` set computes that list |
| `Recipients.DedupeIDs` | services/api-gateway/internal/gateway/server.go:830-845 | the gateway's filter, whose test on an empty `skip` differs, gives the same list on every input |
| `Recipients.BatchesExact` | services/chat-service/cmd/server.go:374-390 | batches are non-empty, at most the size, all but the last full, ceil(n/size) in number, and concatenate to the input |
| `Recipients.BatchRecipients` | services/chat-service/cmd/server.go:374-390 | the slicing loop computes those batches; a size of zero or less means 64 |
| `Recipients.PartsDisjoint` | services/chat-service/cmd/server.go:374-390 | in batches of a duplicate-free list a recipient has one batch and one place |
| `Conversations.IdLayout` | services/chat-service/cmd/server.go:362-372 | the text of an id: `group:` and the group, or `dm:` and the two phones in byte order |
| `Conversations.PairIdCollision` | services/chat-service/cmd/server.go:366-369 | two pair ids coincide if and only if they are the same pair or one text is the other split at a different colon |
| `Conversations.ColonsCollide` | services/chat-service/cmd/server.go:366-369 | a concrete collision of two different pairs |
| `Conversations.BuiltIdCollision` | services/chat-service/cmd/server.go:362-372 | for any two sends, whatever their senders, recipients and groups: equal ids if and only if equal groups, or pairs whose texts split alike |
| `Conversations.DirectIdNamesPair` | services/chat-service/cmd/server.go:362-372 | a direct id does not depend on who sends; without colons it is equal for exactly the same unordered pair |
| `Conversations.GroupIdsDisjoint` | services/chat-service/cmd/server.go:362-372 | no group conversation is a direct one, and equal group conversations mean equal groups |
| `Conversations.BuiltIdTrimmed` | services/chat-service/cmd/server.go:362-372 | a built id survives the trimming a history request applies to it |
| `Delivery.InterleavingIrrelevant` | services/chat-service/cmd/server.go:303-331 | two call sequences that agree user by user leave the same store: calls for different users commute |
| `Delivery.SerialIsDeliverAll` | services/chat-service/cmd/server.go:140-142 | the serial loop, read as store calls one by one, has the effect stated on the tables |
| `Delivery.SerialProjection` | services/chat-service/cmd/server.go:140-142 | in the serial loop each recipient of a duplicate-free list gets its own calls once and nobody else any |
| `Delivery.DeliverAllPresence` | services/chat-service/cmd/server.go:312-323 | only the presence of the recipients themselves matters |
| `Fanout.JobsExact` | services/chat-service/cmd/server.go:272 | the batches hold 64 recipients, the last one possibly fewer, and are the recipients in order |
| `Fanout.WorkerCount` | services/chat-service/cmd/server.go:285-291 | one worker per batch, at least one and at most twenty |
| `Fanout.RunInvariant` | services/chat-service/cmd/server.go:271-301 | in every interleaving each recipient is untouched, in exactly one worker's hands with a known prefix of its calls made, or handled; the counter equals the live workers |
| `Fanout.FanoutRefinesSerial` | services/chat-service/cmd/server.go:271-301 | when `wg.Wait` returns, every list, log and status row is what the serial loop leaves for the presence answers read, and each recipient's presence was read |
| `Fanout.FixedPresence` | services/chat-service/cmd/server.go:271-331 | if presence does not change meanwhile, the result is the serial loop's whatever the schedule |
| `Fanout.NeverTwice` | services/chat-service/cmd/server.go:303-331 | at every moment of every schedule what a user has been given is a beginning of one delivery: no `delivered` row before the publish, nothing twice |
| `Fanout.NoPanic` | services/chat-service/cmd/server.go:292-300 | no send on the closed channel, no second close, and the wait-group counter is positive at each `Done` |
| `Fanout.WorkerMoves` | services/chat-service/cmd/server.go:276-283 | no worker waits for another: a busy one can always make its next call or read either presence, an idle one can be given a batch or be let go |
| `Fanout.NeverStuck` | services/chat-service/cmd/server.go:271-301 | until main has returned some step is enabled, whatever presence the reads answer |
| `Fanout.RankDecreases` | services/chat-service/cmd/server.go:271-301 | every step lowers a non-negative measure over unsent batches, unfinished recipients and live workers |
| `Fanout.Terminates` | services/chat-service/cmd/server.go:271-301 | no schedule is longer than 3 recipients + 2 batches + 2 workers + 2 |
| `Fanout.Completes` | services/chat-service/cmd/server.go:271-301 | every partial schedule can be completed to one in which main returns, for any presence it has agreed with so far |
| `Fanout.EveryPresenceOccurs` | services/chat-service/cmd/server.go:271-323 | for every set of online users some fan-out finds exactly them online, and ends as the serial loop does |
| `Fanout.MaximalMeansReturned` | services/chat-service/cmd/server.go:271-301 | a schedule cannot be continued if and only if main has returned |
| `Fanout.EachBatchOnce` | services/chat-service/cmd/server.go:296-299 | the batches workers took are 0, 1, 2, ... in order, none twice, and all of them once the channel is closed |
| `History.QueryIsNewest` | pkg/db/sqlc/chat_service.sql.go:77-96 | the query answers, newest first, the newest of the conversation's rows strictly older than the row the cursor names; one left out is older than all returned, and only when the limit is met |
| `History.PageExact` | services/chat-service/cmd/server.go:151-198 | the same for a request: conversation and cursor trimmed, 20 by default, 50 at most, and the last id as next cursor exactly when the page is full |
| `History.UnknownCursor` | pkg/db/sqlc/chat_service.sql.go:91-93 | a cursor that names no row gives an empty last page |
| `History.DescendingUnique` | pkg/db/sqlc/chat_service.sql.go:94-95 | the order `(created_at, id)` descending fixes the answer: two descending lists of the same rows are equal |
| `History.PageCount` | services/chat-service/cmd/server.go:151-198 | a walk over n rows returns at most n rows in at most n/limit + 1 pages |
| `History.WalkDescends` | services/chat-service/cmd/server.go:151-198 | the concatenated pages strictly descend in `(created_at, id)`, so nothing repeats |
| `History.OmittedExactly` | services/chat-service/cmd/server.go:151-198 | a row is omitted if and only if some used cursor has its timestamp and a larger id |
| `History.CompleteIff` | services/chat-service/cmd/server.go:151-198 | nothing is omitted if and only if no tie straddles a multiple of the page size |
| `History.DistinctTimesComplete` | services/chat-service/cmd/server.go:151-198 | distinct timestamps: every row, in exactly n/limit + 1 calls |
| `History.WalkIsPages` | pkg/db/sqlc/chat_service.sql.go:77-96 | every walk through the real query, while rows arrive, returns page by page what the table of its first request determines, and has an empty next cursor exactly on the last page |
| `History.FinishedWalk` | services/chat-service/cmd/server.go:189-196 | a walk that reached the empty cursor has delivered exactly those pages |
| `History.FinishedWalkExact` | services/chat-service/cmd/server.go:151-198 | of a finished walk, for every table: descending, exactly the rows no used cursor hides, complete if and only if no tie straddles a boundary, and then in n/limit + 1 calls |
| `History.EveryWalkEnds` | services/chat-service/cmd/server.go:189-196 | on every table a client following `next_cursor` from the empty cursor reaches the empty cursor again |
| `History.TieLosesMessage` | pkg/db/sqlc/chat_service.sql.go:92-95 | two messages of one instant read one at a time: the second never arrives |
| `ChatService.OutcomeExact` | services/chat-service/cmd/server.go:62-120 | from the request, the members and the failing call alone: exactly when a send is accepted, and exactly which refusal gives which error |
| `ChatService.ResolvedExact` | services/chat-service/cmd/server.go:80-95 | a send goes to everyone its list mentions but blanks and the sender, the list being the members for a group and the request's otherwise |
| `ChatService.FailedSend` | services/chat-service/cmd/server.go:76-120 | a failed send stores and delivers nothing; only a refused insert leaves a conversation row, and no other |
| `ChatService.ChatServer.DeliverToRecipient` | services/chat-service/cmd/server.go:303-331 | online: one publish, then a `delivered` row; offline: one push at the list's head; nothing else moves |
| `ChatService.ChatServer.GroupFanout` | services/chat-service/cmd/server.go:271-301 | under any complete schedule the shared store ends as the serial loop leaves it |
| `ChatService.ChatServer.DeliverEach` | services/chat-service/cmd/server.go:140-142 | the loop over recipients has the serial effect |
| `ChatService.ChatServer.SendMessage` | services/chat-service/cmd/server.go:69-149 | errors in the order of the checks and of the failing calls; a rejected request changes nothing, a refused insert leaves at most a conversation row, an accepted one stores, files and delivers as one run step, by loop or by workers |
| `ChatService.ChatServer.GetHistory` | services/chat-service/cmd/server.go:151-198 | the page of the request, message by message the row's id, sender, text, time and addressee, with the next cursor; or the error for a blank conversation or a failed read |
| `ChatService.QueuesAfter` | services/chat-service/cmd/server.go:303-331 | one send adds its payload to one queue of each recipient, by presence, and to no other queue |
| `ChatService.StatusAfter` | services/chat-service/cmd/server.go:317-321 | exactly the online recipients of the message gain a `delivered` row, last write winning |
| `ChatService.RunKeepsInv` | services/chat-service/cmd/server.go:92-117 | over any run: ids unique, every row filed under the conversation of its sender and addressee, statuses only for stored messages |
| `ChatService.ConversationsOverRun` | services/chat-service/cmd/server.go:92-117 | after any run, failed sends included, every stored message has its conversation's row, of the message's kind |
| `ChatService.StoredAsSent` | services/chat-service/cmd/server.go:101-117 | each accepted send is still in the table at the end with the sender, text, time and addressee it was given |
| `ChatService.RowOrigin` | services/chat-service/cmd/server.go:101-117 | every stored row is the row of an accepted send |
| `ChatService.HistoryCarriesSends` | services/chat-service/cmd/server.go:174-187 | whatever page is read after a run, each message shows the id, sender, text, time and addressee of one accepted send |
| `ChatService.DirectRoundTrip` | services/chat-service/cmd/server.go:92-196 | after any run, walking a pair's conversation named from either side delivers, descending, the messages filed there that no used cursor hides; these are exactly the pair's if and only if the hidden ones are the strangers', which without strangers means no tie at a page boundary and without such ties means no stranger |
| `ChatService.ColonFreeRoundTrip` | services/chat-service/cmd/server.go:92-196 | without colons and with distinct times the walk returns exactly the pair's messages, newest first, each once, in n/limit + 1 calls |
| `ChatService.TieHidesStranger` | services/chat-service/cmd/server.go:362-372 | a tie at a page boundary and a stranger's message together: exactly the stranger's message is lost |
| `ChatService.QueuesOverRun` | services/chat-service/cmd/server.go:303-331 | over any run a user's publish log is the messages that found it online, and its offline list read from the tail those that found it offline, both in send order |
| `ChatService.PayloadsCarryMessage` | services/chat-service/cmd/server.go:304-311 | every queued payload is that of an accepted send, with its id, sender, text and time |
| `ChatService.StatusesOverRun` | services/chat-service/cmd/server.go:119-142 | at the end of any run a message has `sent` for its sender, `delivered` for recipients it found online, and no other row |
| `Groups.AnswerExact` | services/api-gateway/internal/gateway/server.go:343-790 | the answer to every request from the member and group rows: who is refused with which status, and that a refusal changes nothing |
| `Groups.StepCause` | services/api-gateway/internal/gateway/server.go:343-790 | whoever becomes or ceases to be a member or an admin, whatever group or code appears or vanishes, the requester was entitled: an admin of that group, a founder, a holder of the code, or oneself |
| `Groups.RunCause` | services/api-gateway/internal/gateway/server.go:343-790 | so every such fact at the end of a run has an entitled request in it |
| `Groups.RosterEffect` | services/api-gateway/internal/gateway/server.go:343-790 | the members and the admins after each accepted request, as sets |
| `Groups.BystandersKept` | services/api-gateway/internal/gateway/server.go:343-790 | rows of people a request does not name stay exactly as they were |
| `Groups.NewRows` | services/api-gateway/internal/gateway/server.go:343-790 | a new row appears only by create, add or join in that group, with the right role, inviter and time |
| `Groups.GroupRow` | services/api-gateway/internal/gateway/server.go:539-790 | a surviving group keeps name and origin; only a reset changes its code |
| `Groups.RowKept` | services/api-gateway/internal/gateway/server.go:343-790 | a row that stays keeps who brought the person in and when |
| `Groups.CreatedGroup` | services/api-gateway/internal/gateway/server.go:371-388 | a created group has its request's name, creator, code and dates, and its creator as admin |
| `Groups.OtherGroupsKept` | services/api-gateway/internal/gateway/server.go:343-790 | a request leaves every other group's row and members alone |
| `Groups.InvStep` | services/api-gateway/internal/gateway/server.go:343-790 | each request keeps: no orphan member rows, no group without an admin, no shared invite code |
| `Groups.EveryGroupHasAdmin` | services/api-gateway/internal/gateway/server.go:343-790 | so does every run of requests in any order |
| `Groups.VanishesWithLastMember` | services/api-gateway/internal/gateway/server.go:697-707 | a group disappears if and only if its last member leaves |
| `Groups.Succession` | services/api-gateway/internal/gateway/server.go:680-695 | a sole admin's departure makes exactly one remaining member, none of the others older by `created_at`, the only admin and changes no other row |
| `Groups.CodesStayUnique` | infra/migrations/0005_groups_feature.up.sql:7 | every request keeps invite codes unique |
| `Groups.ResetRetiresCode` | services/api-gateway/internal/gateway/server.go:734-756 | the new code finds the group and the replaced one nothing |
| `Groups.RetiredForGood` | services/api-gateway/internal/gateway/server.go:734-790 | over any later run with freshly generated codes, a code once used and now held by no group is never found again |
| `Groups.ResetRetiresForGood` | services/api-gateway/internal/gateway/server.go:734-790 | whatever follows a reset, nobody joins by the replaced code |
| `Groups.AfterOnView` | services/api-gateway/internal/gateway/server.go:343-790 | a request commutes with cutting both tables down to its group |
| `Groups.GroupsIndependent` | services/api-gateway/internal/gateway/server.go:343-790 | replaying only the requests that resolved to one group gives that group the same rows as the full run |
| `Groups.ReplayLegal` | services/api-gateway/internal/gateway/server.go:682-688 | in that replay every recorded successor is still one the query could pick |
| `GroupServer.EldestExists` | services/api-gateway/internal/gateway/server.go:682-688 | the succession query finds someone whenever others remain |
| `GroupServer.Server.InsertMembers` | services/api-gateway/internal/gateway/server.go:391-400 | the loop of inserts adds each missing phone as a member and leaves existing rows |
| `GroupServer.Server.CreateGroup` | services/api-gateway/internal/gateway/server.go:343-411 | the statements answer and change the tables as the state machine's step does, failures of the unique constraints included, and keep the invariant |
| `GroupServer.Server.AddGroupMembers` | services/api-gateway/internal/gateway/server.go:539-569 | the same for adding |
| `GroupServer.Server.RemoveGroupMember` | services/api-gateway/internal/gateway/server.go:571-598 | the same for removing, refusing the last admin |
| `GroupServer.Server.PromoteGroupAdmin` | services/api-gateway/internal/gateway/server.go:600-623 | the same for promoting; a target who is no member changes no roster |
| `GroupServer.Server.DemoteGroupAdmin` | services/api-gateway/internal/gateway/server.go:625-656 | the same for demoting, refusing the last admin |
| `GroupServer.Server.LeaveGroup` | services/api-gateway/internal/gateway/server.go:658-713 | the same for leaving, and the successor picked is one the query could return |
| `GroupServer.Server.ResetGroupInvite` | services/api-gateway/internal/gateway/server.go:734-756 | the same for a reset, failing on a code in use |
| `GroupServer.Server.JoinByInvite` | services/api-gateway/internal/gateway/server.go:758-790 | the same for joining, under the database's unique codes |
| `Hub.RunInvariant` | pkg/ws/hub.go:36-111 | in every run of hub and pumps: table, channels, flags, pumps and accounts agree |
| `Hub.NeverPanics` | pkg/ws/hub.go:36-111 | the hub never sends on a closed channel and never closes one twice, in any interleaving, shutdown included; a panic is exactly a direct send on a closed channel |
| `Hub.DirectSendExactly` | pkg/ws/conn.go:108-119 | a direct send panics if and only if the hub let the connection go or closed its channel in a shutdown; else it queues the frame if and only if there is room, and touches nothing else |
| `Hub.DirectSendPanics` | pkg/ws/conn.go:108-119 | a run in which it does: the reader ended and unregistered before |
| `Hub.DirectAccounts` | pkg/ws/conn.go:108-119 | the direct offers on record are the run's direct sends to the connection, in order |
| `Hub.TableRefinesFlatSet` | pkg/ws/hub.go:42-64 | the map of sets is the flat set of live connections by user, and a user has an entry if and only if it has a live connection |
| `Hub.OfflineExactly` | pkg/ws/hub.go:56-63 | the callback starts for a user exactly in the step that takes its last live connection |
| `Hub.AcceptedInOrder` | pkg/ws/hub.go:91-111 | accepted frames are an in-order subsequence of the offered ones; every offer is accepted or dropped, and is the hub's or a direct send's |
| `Hub.DeliveryAccounts` | pkg/ws/hub.go:91-111 | per connection: at most 64 buffered; taken + buffered are in order the offered frames that found room; the hub's offers are all that was addressed, up to the delivery under way; addressed + direct = taken + buffered + dropped |
| `Hub.DropsOnlyWhenFull` | pkg/ws/hub.go:95-98 | a frame is dropped if and only if it meets 64 buffered frames |
| `Hub.KeepsFirst64` | pkg/ws/conn.go:37 | in every run, while the write pump takes nothing a channel holds the first 64 of what it held and was offered: the 65th is lost |
| `Hub.CopiesExact` | pkg/ws/hub.go:91-111 | a broadcast without targets addresses each live connection once, one with targets as often as its user is listed |
| `Hub.BroadcastsInOrder` | pkg/ws/hub.go:65-66 | the hub receives broadcasts in the order they were enqueued and loses none |
| `Hub.BroadcastRoom` | pkg/ws/hub.go:29 | at most 256 wait, and a sender waits only when 256 do |
| `Hub.HubNeverBlocks` | pkg/ws/hub.go:71-111 | inside a delivery or a shutdown the hub can always move, and each such step brings the end nearer |
| `Hub.WhoCanMove` | pkg/ws/conn.go:53-106 | pumps, direct sends and socket closes never wait; registrations, unregistrations and broadcasts wait only for the hub to be between two events |
| `Hub.CleanupFinishes` | pkg/ws/conn.go:121-126 | while the hub serves, a cleanup that has begun can finish: the hub lets the connection go and its socket is closed |
| `Hub.UnregistersOnce` | pkg/ws/conn.go:121-126 | two pumps race to clean up, yet the hub hears of each connection at most once |
| `Hub.SocketClosedIffLeft` | pkg/ws/conn.go:121-126 | cleanup has closed, or is about to close, the socket exactly of the connections the hub has let go |
| `Hub.ShutdownStrandsCleanup` | pkg/ws/hub.go:39-41 | whatever follows a shutdown, cleanup completes if and only if the connection had registered and left before; a connection still in the table stays there, its pump waits and its socket is never closed by cleanup |
| `Hub.StrandedRun` | pkg/ws/hub.go:39-41 | a run in which it happens: shutdown, then the reader ends |
| `Hub.Table.OnRegister` | pkg/ws/hub.go:42-48 | the flat set of connections gains exactly this one |
| `Hub.Table.OnUnregister` | pkg/ws/hub.go:49-64 | the flat set loses exactly this one, an empty user entry goes, and the arm says when the channel closes and the callback starts |
| `Hub.Table.ActiveConnections` | pkg/ws/hub.go:113-119 | the sum of set sizes is the number of connections in the table |
| `RateLimit.Limiter.Handle` | pkg/middleware/middleware.go:284-308 | one request's effect on the counters and its verdict, with the increment answered, failing after it took effect, or refused |
| `RateLimit.BucketBounds` | pkg/middleware/middleware.go:292 | a bucket is exactly the time between two multiples of the window |
| `RateLimit.CountsFaithful` | pkg/middleware/middleware.go:293-300 | until its bucket is over a key counts every increment made in it: expiry never resets it early |
| `RateLimit.KeysKept` | pkg/middleware/middleware.go:293-300 | a request touches its own key only; other keys go exactly when their time has come |
| `RateLimit.KeysExpire` | pkg/middleware/middleware.go:298-300 | no key outlives its time |
| `RateLimit.ExpiryFromFirst` | pkg/middleware/middleware.go:298-300 | a key's time is set once, by the first request counted in its bucket, one window after the call takes effect |
| `RateLimit.PassesFirst` | pkg/middleware/middleware.go:284-308 | an answered request passes if and only if fewer than `limit` of its client's increments came before it in its bucket; a failed increment lets nothing pass |
| `RateLimit.ManyBuckets` | pkg/middleware/middleware.go:284-308 | n consecutive buckets let through at most n * limit requests of a client |
| `RateLimit.IntervalBound` | pkg/middleware/middleware.go:284-308 | any interval of n windows, however placed, lets through at most (n + 1) * limit |
| `RateLimit.BurstReachesBound` | pkg/middleware/middleware.go:284-308 | around every bucket's end, 2 * limit pass within two milliseconds |
| `RateLimit.LimitHoldsExactly` | pkg/middleware/middleware.go:284-308 | n windows of time keep to n * limit in every run if and only if they start on a multiple of the window; else (n + 1) * limit is reached by some run and passed by none |
| `S3Key.EscapeS3Key` | internal/media/service.go:127-133 | the in-place loop over the parts computes the escaped key |
| `S3Key.PlainExact` | internal/media/service.go:130 | the bytes left alone are letters, digits and ten punctuation characters |
| `S3Key.SegmentExact` | internal/media/service.go:130 | every other byte becomes `%` and two upper-case digits, in its place |
| `S3Key.SlashExact` | internal/media/service.go:128-132 | segments are what stands between `/` characters, which stay |
| `S3Key.SegmentRoundTrip` | internal/media/service.go:130 | percent-decoding undoes the escaping of every segment |
| `S3Key.SplitJoin` | internal/media/service.go:128-132 | splitting undoes joining of slash-free segments |
| `S3Key.JoinSplit` | internal/media/service.go:128-132 | joining undoes splitting |
| `S3Key.KeyRoundTrip` | internal/media/service.go:127-133 | every key comes back by split, decode and join |
| `S3Key.EscapedInjective` | internal/media/service.go:127-133 | different keys have different escaped forms |
| `S3Key.EscapedShape` | internal/media/service.go:127-133 | as many `/` as before, and only bytes the escaper leaves alone and percent escapes between them |

## Left out

- ChatService.ChatServer.DeliverToRecipient: the 24-hour expiry of an offline list is not modelled; lists are kept.
- ChatService.ChatServer.SendMessage: failures of Redis and of the status upsert, which the code only logs or ignores, do not occur; the replica is not behind; the event-bus publish is not modelled.
- Fanout.FanoutRefinesSerial: Redis and status calls succeed; cancellation of the request context inside a worker is not modelled.
- Hub.Table.ActiveConnections: the read happens between two hub steps; a call that races with the hub is not modelled.
- Hub.RunInvariant: each connection registers once before its pumps start, as `Serve` does; pings, deadlines, socket errors and received frames are the free choice of when a pump ends; the offline callback's own run is not modelled.
- Hub: stated on values rather than on one object per connection, because pumps and hub interleave at every channel operation; aliasing of connection objects is not captured.
- RateLimit.PassesFirst: reading the clock and incrementing are one step on a clock that never goes back; windows are whole seconds, at least one.
- GroupServer.Server.CreateGroup: description, avatar, payload decoding and failures other than the two unique constraints are not modelled; the same goes for the other handlers.
- Groups.InvStep: handlers run one at a time; two interleaved demotions by different admins are outside the model.
- GroupServer.Server.JoinByInvite: which of two groups a shared code would find is not modelled, since the database forbids shared codes.
- ChatService and Groups are separate tables here: the members a group send reads are a parameter, not the state of `Groups`.
- History: ids are compared by code point; a database collation that orders uuid texts differently is not modelled.
- S3Key: the set of bytes `url.PathEscape` leaves alone comes from Go's `net/url`, which is not part of this model; presigning is not either.
- `MarkDelivered` and `MarkRead`: each overwrites one status row and publishes a tick to the sender, with no guard on the order of statuses.
- Listing and reading groups and reading an invite code change nothing; updating a group rewrites its name, description and avatar, on which no other handler depends.
- The epoll hub of the gateway, `internal/chat/service.go`, authentication, HTTP, gRPC and frame encoding.
