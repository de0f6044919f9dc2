# A Dafny model of LQS

LQS is an SQS-like message queue kept in SQLite. Every operation takes the time
from its caller and runs as one transaction, so the whole engine is a
deterministic state machine. This project models that state machine and the
pure algorithms around it, and proves what the repository promises of them.

Check everything with `dafny verify dfyconfig.toml`.

## How the model is laid out

- `Tables`: the final schema as one value `Db` (a map or set per table) and one
  function per SQL statement. The two invalidation triggers run inside the
  statements that fire them. Times are clamped and saturate as `ms` and
  `saturating_add` do.
- `Operations`: every operation as a function from the committed `Db` to the next
  one and a reply. `ReceivePlan` says which rows a receive handles and in what
  order, without the query, the claimed rows or the preferred group.
- `Engine`: the code's own form. A `Transaction` object holds the working copy, its
  methods are the loops of the source (select, deliver or move, replay, save,
  move back), and the `Lqs` object's methods run one transaction each. An error
  that rolls back drops the working copy. Each method is proved equal to its
  function in `Operations`, and each keeps the global invariant. `Queries` and
  `ReceiveLoop` hold the loop invariants.
- `Invariants`, `Preservation`, `Runs`: the invariant of all reachable states, its
  preservation by every operation, and what follows for every run from the empty
  database.
- `Receiving`, `ReceiveTheorems`: what one receive call answers and leaves behind, in the
  terms of its plan.
- `SendCalls`, `ReceiveCalls`, `QueueCalls`, `RedriveCalls`: for every operation exactly when
  it succeeds, what it answers and what it leaves behind, said from the request, the tables
  and the time with the words of `Terms`, without naming the functions it is built from.
- `History`, `Quota`, `Dedup`, `Conservation`: theorems over runs: receipt handles,
  delivery counts, the in-flight quota, deduplication against the full history of
  sends, and the bag of messages.
- `Survival`, `Provenance`, `Identity`: no operation loses a message without a reason a
  caller could name, none invents one, and a message keeps its history with its id.
  `Handles`: what a receipt handle answers. `Records`, `Retry`: exactly when a recorded
  response stays replayable over a run, and what a retry answers. `Delays`, `Cooldowns`:
  a FIFO message waits no longer than its queue's delay, and the two sixty-second waits
  hold over runs.
- `Glob` and `AccessPolicy`: the wildcard matcher with its loop, the policy decision
  and the two operations that edit a policy.
- `Permissions`: exactly when a permission can be added.
- `Decimals`, `Numbers`, `Spelling`: the exact decimal normaliser, the grammar of what it
  reads and the layout of what it writes. A value is an exact real; a
  power of ten is a shift of the decimal point.
- `Digest`: the bytes the attribute digest is computed from, and a decoder for them.
- `Pagination` and `TokenBucket`: keyset pagination under churn, and the rate limit.

Texts are sequences of bytes.

## What turned out to hold only under a condition

- The wildcard matcher compares bytes before it looks at stars, so for a value
  that itself contains `*` some pattern is misjudged: `a*` does not match `a*b`, because its
  star is used up on the star of the text. `Glob.GlobIsExact` states that the matcher agrees with
  the meaning of wildcards on every pattern if and only if the value is star-free.
- The deduplication window is five minutes of the caller's clock if and only if that
  clock is below `i64::MAX + 300000` (`Dedup.WindowIsExact`).
- Removing a permission restores all decisions if and only if the queue had a policy
  before: an open queue that was granted and revoked stays closed to everyone
  (`AccessPolicy.RemoveRestoresDecisions`).
- Without a maximum no cursor is issued, so the page is the whole answer if and only if
  at most 1000 names match (`Pagination.DefaultPageIsWhole`).
- A standard receive whose deliveries stay visible (timeout 0, or a clock at
  `i64::MAX`) meets its own first delivery and stops after one message. The plan
  carries this as `Operations.Cap`; `ReceiveLoop.LoopStops` shows that it is the only
  way to reach the stop branch.

## Model

| member | source | states |
|---|---|---|
| Runs.Reachable | src/sqlite_lqs.rs:477-793 | In every state reachable by any sequence of operations, rows, FIFO prefixes, policy graph, origins, keys and cached attempts are all consistent |
| Runs.StepKeeps | src/sqlite_lqs.rs:477-793 | Every single operation, whatever its arguments and time, keeps the whole invariant |
| Runs.CacheIsCoherent | src/fifo.rs:167-174 | In every reachable state each message of a replayable cached response has its handle on exactly one live row of that queue and equals what reading that row again gives |
| History.ReplayShowsRows | src/fifo.rs:178-221 | A replay answers with messages that the rows it leaves behind still show |
| Invariants.TriggerProtects | src/fifo.rs:167-174 | A change that only touches rows with invalidated handles leaves every still valid cached message showing its row |
| Preservation.DeleteQueueKeeps | src/management.rs:262-283 | Deleting a queue keeps the whole invariant, the cache of every other queue included |
| Preservation.DeleteQueueDetaches | src/management.rs:267-280 | After a deletion the queue has no rows, keys or attempts, and no policy or origin names it |
| Preservation.DeleteQueueSparesOthers | src/management.rs:273-280 | Rows of other queues stay as they are and lose at most an origin in the deleted queue |
| Preservation.DeleteQueueInvalidates | src/management.rs:272-272 | A cached response that showed the deleted queue as a source is not replayable any more |
| Preservation.PurgeQueueKeeps | src/management.rs:234-258 | Purging a queue keeps the whole invariant, the cache of every other queue included |
| Runs.ReceivedRowsArePrefix | src/sqlite_lqs.rs:1523-1538 | In every reachable state the received rows of a FIFO group are a prefix of the group's live rows by sequence |
| Runs.MessageIdsAreUnique | src/sqlite_lqs.rs:1195-1218 | Message ids are unique over all queues in every reachable state, although a moved row keeps its old id under a new sequence |
| Runs.PolicyGraphIsWellFormed | src/sqlite_lqs.rs:1325-1361 | In every reachable state a redrive policy belongs to an existing queue and names a different existing queue of the same type |
| Preservation.WritePolicyKeeps | src/sqlite_lqs.rs:1325-1361 | Writing or removing a policy, when it is accepted, keeps the policy graph well formed |
| Engine.Transaction.CollectReceived | src/sqlite_lqs.rs:1443-1498 | The select-deliver-or-move loop, with its growing list of claimed rows and its preferred group, ends with the database and response of the plan fixed before it started |
| Engine.Transaction.TakeCandidate | src/sqlite_lqs.rs:1467-1495 | One pass moves the candidate to the dead-letter queue or delivers and claims it, exactly as the threshold says |
| Engine.Transaction.DeliverCandidate | src/sqlite_lqs.rs:1523-1550 | The response is put together from the columns selected before the update and the metadata read after it, and equals what reading the delivered row gives; no other row is touched |
| Engine.Transaction.RedriveCandidate | src/sqlite_lqs.rs:1500-1521 | The row is gone, its message is the newest row of the dead-letter queue with its id and recorded origin, and every other row is untouched |
| Engine.Transaction.MoveMessage | src/sqlite_lqs.rs:1365-1397 | After delete, insert and naming: the row is gone, the newest row of the destination carries its content, keeping id and history or starting afresh, and every other row is untouched |
| ReceiveLoop.LoopPass | src/sqlite_lqs.rs:1455-1496 | Every pass takes the next row of the plan, keeps the loop invariant and shortens what is left, so the loop ends |
| ReceiveLoop.LoopStops | src/sqlite_lqs.rs:1424-1441 | The stop branch is reached only by a standard receive whose deliveries stay visible; never for FIFO or a deadline in the future |
| Engine.PassesCarryOutPlan | src/sqlite_lqs.rs:1455-1496 | From any moment of the loop its passes end, and end with what was still to come of the plan |
| Engine.RedrivePath | src/sqlite_lqs.rs:740-756 | The redrive query, asked again after each move, finds the rows of the order fixed at the start and then nothing |
| ReceivePlan.PlanStep | src/sqlite_lqs.rs:1599-1629 | The row that the FIFO query ranks first is always the next row of the plan, and there is none exactly when the plan is exhausted |
| Queries.FifoQueryIsCandidate | src/sqlite_lqs.rs:1599-1629 | The query's choice among unclaimed rows, group preference included, is the candidate that the plan is built from |
| ReceiveTheorems.FifoReceiveWithoutPolicy | src/sqlite_lqs.rs:1443-1498 | Without a redrive policy a FIFO receive returns and delivers exactly the first rows, up to the limit, of: groups by their oldest live row, each group's longest receivable prefix, and changes nothing else |
| ReceiveTheorems.FifoResponseInBlocks | src/sqlite_lqs.rs:1455-1496 | Under any policy each group is one contiguous ascending block of the response |
| PlanFacts.FifoDeliveriesInBlocks | src/sqlite_lqs.rs:1599-1629 | The deliveries of the plan come in one ascending block per group even when rows of a group leave for the dead-letter queue in between |
| Blocks.BlocksAreContiguous | src/sqlite_lqs.rs:1599-1629 | In such an order two rows of a group have only rows of that group between them |
| ReceiveTheorems.FifoSkipsNothing | src/sqlite_lqs.rs:1599-1629 | Every older row of a delivered row's group is delivered or moved by the same call |
| ReceiveTheorems.FifoLeavesNothingOlder | src/sqlite_lqs.rs:1599-1629 | After the call a live row older than a delivered one of its group was delivered in the same call |
| ReceiveTheorems.WaitingBlocksGroup | src/sqlite_lqs.rs:1615-1627 | While an older message of its group is in flight or delayed, a FIFO message is neither delivered nor moved |
| ReceiveTheorems.StandardReceive | src/sqlite_lqs.rs:1443-1521 | A standard receive delivers the first receivable rows under the threshold in sequence order and moves exactly the receivable rows at the threshold met before its last delivery (all if the limit is not reached), in order |
| ReceiveTheorems.ReceiveDeliversAnswer | src/sqlite_lqs.rs:1523-1550 | The response lists, for each row of the answer, its columns as the delivery leaves them |
| ReceiveTheorems.ReceiveLeavesOutcome | src/sqlite_lqs.rs:1443-1521 | The database afterwards: delivered rows delivered, moved rows appended in order with origin, every other row untouched |
| ReceiveCalls.FreshAnswers | src/sqlite_lqs.rs:598-619 | Without a young record of its attempt a receive is refused as over the limit exactly on a standard queue whose quota is used up; otherwise its page holds exactly the least of the maximum, the room left by the quota and the number of deliverable messages (one at most on a standard queue that hides nothing), and is complete exactly when it holds any or the caller found its cache empty |
| ReceiveCalls.FreshDelivers | src/sqlite_lqs.rs:1443-1550 | The whole effect: each row handed out was deliverable, has its counts raised, its new handle, and is hidden for the asked or the queue's timeout, and the message tells what the row holds; each row moved to the dead-letter queue had reached the policy's count and keeps id, content and history there; all other rows stay, the too old ones of the queue apart. Standard queues hand out the first deliverable rows, FIFO queues one ascending block a group |
| ReceiveCalls.ReceiveRefused | src/fifo.rs:88-105 | A receive outside its limits changes nothing and names the first thing wrong: the maximum, the queue, the timeout, an attempt id on a standard queue or one that is not 1 to 128 printable characters |
| ReceiveCalls.PlanDelivers | src/sqlite_lqs.rs:1552-1629 | What the plan could deliver without a limit is exactly the set of messages that are retained, visible, under the policy's count and, on a FIFO queue, behind visible older ones of their group only |
| ReceiveCalls.PageHasAtMost | src/sqlite_lqs.rs:604-604 | No page, fresh or replayed, holds more messages than were asked for |
| ReceiveCalls.PageHasNothingOld | src/sqlite_lqs.rs:1298-1301 | No page, fresh or replayed, holds a message whose send time plus its queue's retention has passed |
| ReceiveCalls.PageShows | src/sqlite_lqs.rs:1635-1684 | Each message of any page tells id, handle, body, group, attributes, counts, times, sequence number, deduplication id and origin as one row of the queue holds them afterwards |
| History.DeliveriesAreBounded | src/sqlite_lqs.rs:1424-1441 | While a policy with at most n receives stands, no message of the queue is delivered more than n times during its stay, over every run |
| History.HandlesAreIssuedOnce | src/sqlite_lqs.rs:1530-1538 | Over every run two deliveries never issue the same receipt handle, in different calls or in one |
| History.DeliveryIssuesNewHandle | src/sqlite_lqs.rs:1530-1538 | A delivery puts a handle on its row that no row could have had before |
| History.LostHandleIsStale | src/sqlite_lqs.rs:1365-1397 | A handle that leaves its row by redelivery, move, deletion or expiry becomes stale |
| History.StaleForever | src/sqlite_lqs.rs:1530-1538 | A stale handle stays stale under every continuation of the run |
| History.StaleHandlesAreInertOverRuns | src/sqlite_lqs.rs:622-663 | Deleting or changing visibility with a stale handle changes nothing and reports an invalid handle, at any later point of any run |
| Identifiers.ReceiptHandleInjective | src/sqlite_lqs.rs:1531-1534 | A receipt handle determines its sequence, receive count and time |
| Identifiers.MessageIdRoundTrip | src/sqlite_lqs.rs:1662-1666 | The sequence number read back from a message id is the number it was made from |
| Quota.StepWithinQuota | src/sqlite_lqs.rs:592-605 | No operation raises the number of hidden rows of a queue above the larger of what it was and the quota |
| Quota.QuotaHoldsOverRuns | src/sqlite_lqs.rs:1284-1286 | With time moving forward the hidden rows of a queue never exceed its quota, across receives, replays, visibility and retention changes |
| Quota.ReplayWithinQuota | src/fifo.rs:208-219 | A replay that hides reappeared messages again stays within the quota |
| Dedup.DuplicateExactly | src/sqlite_lqs.rs:1172-1193 | After any run with times in order a send is a duplicate exactly when an earlier accepted send in scope repeats its deduplication id (the sender's, or the body's where the queue allows it) within the window, and answers the id of the first such send; retries extend nothing |
| Dedup.DuplicateWithinFiveMinutes | src/sqlite_lqs.rs:1172-1193 | In the caller's clock: below i64::MAX + 300000, a send is a duplicate exactly when an accepted send in scope with the same id is less than 300000 ms old |
| Dedup.RunTracks | src/sqlite_lqs.rs:1172-1218 | Over every run with times in order, each key in the table is that of an accepted send since the queue was created, and every accepted send inside the window still has its key |
| Dedup.WindowIsExact | src/sqlite_lqs.rs:1182-1187 | The clamped pruning is five minutes of the caller's clock if and only if that clock is below i64::MAX + 300000 |
| Dedup.MessageIdsAreOrdered | src/sqlite_lqs.rs:1188-1192 | The text order of message ids is the order of their sequences, so ordering equal times by id finds the oldest |
| SendCalls.PreparedExactly | src/sqlite_lqs.rs:1090-1170 | A send is accepted exactly when the request meets the demands of its queue's type; its deduplication id is the sender's on a FIFO queue, the body's when none is given and the queue allows it, none on a standard queue; its delay is the asked or the queue's |
| SendCalls.RefusedBecause | src/sqlite_lqs.rs:1090-1170 | A request that is not acceptable is refused with the first error that applies |
| SendCalls.SendStores | src/sqlite_lqs.rs:1195-1218 | An accepted send stores one row with exactly what was asked for, created now and available after its delay, and otherwise only the too old rows of the queue go |
| SendCalls.SendAnswers | src/sqlite_lqs.rs:521-550 | A send stores a message, answers a duplicate on a FIFO queue, or is refused and changes nothing |
| Preservation.NoMatchNoClash | src/fifo.rs:145-149 | When no duplicate is found the key to insert does not violate the primary key of the key table |
| Conservation.ReceiveConserves | src/sqlite_lqs.rs:1500-1521 | A receive, fresh or replayed, keeps the bag of (id, body, group, attributes, deduplication id) over the queue and its dead-letter queue, expired rows of the queue apart |
| Conservation.RedriveConserves | src/sqlite_lqs.rs:738-759 | A manual redrive keeps the bag of contents over both queues, expired rows apart, moves exactly the first eligible rows in order as new messages, only rows of that origin, and touches nothing else |
| Conservation.MoveBackMoves | src/sqlite_lqs.rs:1365-1397 | Moving rows back one after the other appends each, reborn with a new id and fresh counters, and leaves every other row alone |
| Queries.ReturnableIsFirstMovable | src/sqlite_lqs.rs:741-752 | The redrive query finds the first row whose older group members may all go back too, or nothing when there is none |
| RedriveCalls.RedriveMoves | src/sqlite_lqs.rs:719-759 | The count answered is the lesser of the maximum and the number of eligible messages; the oldest eligible ones become new messages of the source with their content, created now and available after the source's delay; every other row stays, the too old ones of both queues apart |
| RedriveCalls.RedriveRefused | src/sqlite_lqs.rs:719-737 | A redrive is refused exactly for an unknown queue, for queues of different types and for a queue onto itself, and then changes nothing |
| RedriveCalls.MovableIsEligible | src/sqlite_lqs.rs:741-752 | The rows that may go back are those that came from the source and are visible, on a FIFO queue behind older ones of their group that may go back too |
| Engine.Transaction.MoveDeadLetters | src/sqlite_lqs.rs:740-756 | The move loop ends and has moved exactly the eligible rows fixed before it started, up to the maximum, oldest first |
| Engine.Transaction.ReplayAttempt | src/fifo.rs:178-221 | Old attempts go; a recorded attempt is refused when invalid, different or over quota, otherwise the loop hides its rows again and its response is returned, as `Retry.RememberedAnswers` states in the terms of the tables |
| Engine.Transaction.SaveAttempt | src/fifo.rs:223-242 | The response is recorded with one member per message, or nothing without an attempt id |
| History.StepEvolves | src/sqlite_lqs.rs:477-793 | After any operation each row is unchanged, new and never received, delivered (it was receivable and under the threshold), or had only its deadline moved |
| Survival.NothingIsLost | src/sqlite_lqs.rs:477-793 | Every live message stays live under its id through any operation, unless the operation removes that row on purpose or the row outlived its retention |
| Survival.EveryLossIsExplained | src/sqlite_lqs.rs:477-793 | Over every run, a message that is no longer live was taken by one operation of the run for one of those reasons |
| Survival.ReceiveLeavesNothingExpired | src/sqlite_lqs.rs:1298-1301 | A receive that is not rolled back leaves no expired row in its queue, so it delivers none |
| Provenance.NothingIsInvented | src/sqlite_lqs.rs:477-793 | Every live message was live before the operation under its id, with its content, or is what an accepted send just asked for, or what a manual redrive just sent again under a new id |
| Provenance.EveryMessageWasSent | src/sqlite_lqs.rs:1195-1218 | In every reachable state body, group, attributes and deduplication id of a message are those of the request of an accepted send of the run |
| Provenance.IdWasIssued | src/sqlite_lqs.rs:1195-1218 | In every reachable state the id of a message was issued by one send or manual redrive of the run, with the content the message still has |
| Provenance.ReceivedWasSent | src/sqlite_lqs.rs:572-620 | What a receiver is given at any point of any run, fresh or replayed, has the body, group and attributes under which its id was issued, and these are those of an accepted send |
| Identity.IdentityKeepsHistory | src/sqlite_lqs.rs:1365-1397 | Through any single operation, wherever the message moves, its total receive count only grows, its first receive time stays, and on a standard queue its send time stays |
| Identity.IdentityOverRuns | src/sqlite_lqs.rs:1365-1397 | The same over every run, for as long as the message keeps its id |
| Identity.GoneStaysGone | src/sqlite_lqs.rs:1202-1210 | A message id that is no longer on any row never returns |
| Identity.OnlyReceiveMoves | src/sqlite_lqs.rs:1500-1521 | A message that keeps its id keeps its row, except that a receive may put it into the dead-letter queue |
| Identity.ReceiveMovesRow | src/sqlite_lqs.rs:1500-1521 | A row that a receive adds carries the id and history of the row it replaces |
| Retry.RetryReplays | src/fifo.rs:178-242 | A complete receive repeated within five minutes, after any operations that do not purge or delete its queue or a source it shows: while every row of its response still has its handle, was not re-timed and is retained, it gives the same response and hides exactly those rows again, from now on for the timeout of the first receive; it is refused as over the limit exactly when the quota has no room for those that became visible again; in all other cases it is refused as not replayable. A refusal changes nothing |
| Retry.RememberedAnswers | src/fifo.rs:178-221 | A receive that finds a young record of its attempt: the three answers in exactly their three cases, and after a replay the rows of the response have their new deadline while counts, handles, revisions and all other rows are as they were |
| Retry.FreshReceiveRecords | src/fifo.rs:223-242 | A complete fresh receive leaves a valid record of its time, parameters, timeout and response |
| Retry.IncompleteIsForgotten | src/sqlite_lqs.rs:606-617 | An incomplete page leaves no record |
| Records.RecordOverRuns | src/fifo.rs:145-174 | Over every such run the record stays, and is valid exactly when no member was deleted, moved, redelivered or re-timed |
| Records.StepFate | src/fifo.rs:167-174 | One operation leaves a young record, at worst invalid, and unchanged when its members' rows are intact |
| Records.ValidIsIntact | src/fifo.rs:171-174 | A record that is still valid after an operation has every member's row with its handle and revision |
| Retry.YoungRecordStays | src/fifo.rs:167-188 | Expiry and pruning leave a young record as it is, invalid exactly when it was or when one of its rows expired |
| Delays.FifoWaitIsBounded | src/sqlite_lqs.rs:786-788 | In every reachable state a FIFO message never received becomes available no later than its queue's present delay after it was enqueued, through sends, moves, redrives and delay changes |
| Cooldowns.KindStays | src/management.rs:262-283 | Only its own deletion removes a queue, and no operation changes its type |
| Cooldowns.NameIsReservedExactly | src/sqlite_lqs.rs:504-515 | Over every run after a deletion, creating the name is refused for exactly sixty seconds and works from then on |
| Cooldowns.PurgesAreSpaced | src/management.rs:240-247 | Over every run after a purge the next one is refused for exactly sixty seconds, and changes nothing when refused |
| Cooldowns.PurgeAnswers | src/management.rs:234-247 | A purge is refused exactly for an unknown queue and within the wait, and then changes nothing |
| Cooldowns.PurgeEmpties | src/management.rs:248-257 | A purge empties its queue, invalidates all its attempts, starts the wait, and leaves other queues' rows, the deduplication keys and the policies alone |
| Engine.Lqs.constructor | src/sqlite_lqs.rs:452-475 | A new engine is empty and satisfies the invariant |
| Engine.Lqs.CreateQueue | src/sqlite_lqs.rs:492-519 | Same result and reply as the specification on every error path; the invariant is kept |
| Engine.Lqs.Send | src/sqlite_lqs.rs:521-550 | Prepare, expire, prune, search, insert: same database and reply as the operation that `SendCalls` describes; the invariant is kept |
| Engine.Lqs.ReceivePage | src/sqlite_lqs.rs:572-620 | Validation, expiry, replay, quota, collection and recording: same database and reply as the operation that `ReceiveCalls` and `Retry` describe; the invariant is kept |
| Engine.Lqs.Delete | src/sqlite_lqs.rs:622-633 | Succeeds exactly when some row of the queue holds the handle; database and reply equal the specification and the invariant is kept |
| Handles.DeleteAnswersExactly | src/sqlite_lqs.rs:622-633 | Deleting succeeds exactly when the queue exists and some row of it holds the handle, and otherwise changes nothing |
| Handles.DeleteTakesTheHolder | src/sqlite_lqs.rs:624-629 | It removes exactly the one row that holds the handle |
| Handles.ChangeVisibilityAnswersExactly | src/sqlite_lqs.rs:648-662 | Success, not in flight and invalid handle are answered exactly when the handle's row is in flight, is not, or does not exist |
| Handles.HolderAnswersExactly | src/sqlite_lqs.rs:648-657 | A visibility change moves the deadline of exactly the in-flight row with the handle, and otherwise changes nothing |
| Handles.ChangeVisibilityRefused | src/sqlite_lqs.rs:635-647 | A timeout above twelve hours and an unknown queue are refused without a change |
| Engine.Lqs.ChangeVisibility | src/sqlite_lqs.rs:635-663 | Succeeds exactly when an in-flight unexpired row of the queue holds the handle; database and reply equal the specification and the invariant is kept |
| Engine.Lqs.RedriveDeadLetters | src/sqlite_lqs.rs:719-759 | Same database and count as the specification; the invariant is kept |
| Engine.Lqs.SetQueueAttributes | src/sqlite_lqs.rs:766-793 | All settings, the policy and the new delay of unreceived FIFO rows change together as `QueueCalls` describes, or not at all; the invariant is kept |
| Engine.Lqs.PurgeQueue | src/management.rs:234-258 | Empties the queue outside the cooldown; the invariant is kept |
| Engine.Lqs.DeleteQueue | src/management.rs:262-283 | Detaches, invalidates, drops and reserves the name; the invariant is kept |
| QueueCalls.CreateAnswers | src/sqlite_lqs.rs:932-967 | Creation succeeds exactly when name and type agree, the settings are in range, the name is neither reserved nor taken and the policy fits; otherwise the first thing wrong is named |
| QueueCalls.CreateDoes | src/sqlite_lqs.rs:969-1005 | A created queue has the type, settings and policy asked for and no messages; nothing else changes, and nothing at all on a refusal |
| QueueCalls.SettingsAnswer | src/sqlite_lqs.rs:1021-1077 | An update succeeds exactly when the queue exists, the settings it leads to are in range for its type and the policy fits; otherwise nothing changes |
| QueueCalls.SettingsApply | src/sqlite_lqs.rs:766-793 | Afterwards each setting is the given value, or the old one where none was given; the policy is the given one, gone or unchanged; no other queue's settings or policy change |
| QueueCalls.SettingsRetime | src/sqlite_lqs.rs:782-790 | Rows too old for the new retention go; on a FIFO queue with a new delay the rows never received become available that delay after they were created; no other row changes |
| QueueCalls.PolicyWritten | src/sqlite_lqs.rs:1325-1361 | A policy is stored with the given target and count exactly when it fits its queue, removing one always works, and no other policy changes |
| QueueCalls.DeletionDoes | src/management.rs:262-283 | A deletion removes the queue with its policies, keys and attempts, reserves its name from now, and leaves those of other queues, some attempts now invalid |
| Glob.Run | src/security.rs:226-249 | The loop that remembers only the last star ends, and on star-free values returns whether the pattern matches under the recursive meaning of wildcards |
| Glob.DecideIsMatches | src/security.rs:226-249 | Backtracking to the last star only is sound and complete for values without a star |
| Glob.GlobIsExact | src/security.rs:230-233 | The matcher agrees with the meaning of wildcards on every pattern if and only if the value contains no star |
| Glob.PlainPattern | src/security.rs:226-249 | A pattern without wildcards matches itself only, whatever the value |
| AccessPolicy.Authorize | src/security.rs:111-148 | Succeeds exactly when the queue is open, or some matching Allow and no matching Deny exists |
| AccessPolicy.OrderDoesNotMatter | src/security.rs:123-142 | The decision is the same for every order of the statements |
| AccessPolicy.AccountPrincipal | src/security.rs:206-223 | An account id as principal matches exactly the identities of that account |
| AccessPolicy.RootPrincipal | src/security.rs:206-223 | The root ARN of an account as principal matches exactly the identities of that account |
| AccessPolicy.PrincipalsNameExactly | src/security.rs:206-223 | An anonymous caller is named by `*` alone; an account, user or role is named by `*`, itself, its account and its account's root, and by nothing else |
| AccessPolicy.BatchesDecideAlike | src/security.rs:151-158 | A batch action is decided like the single action |
| AccessPolicy.LowerIgnoresCase | src/security.rs:121-132 | Folding makes exactly those action names equal that differ in case only |
| AccessPolicy.ArnAccount | src/security.rs:216-220 | The account of an IAM identity is the account field of its ARN |
| AccessPolicy.GrantApplies | src/security.rs:401-403 | The statement of a grant applies to exactly the granted accounts, actions (up to case and batching) and queue |
| AccessPolicy.AddPermissionGrants | src/security.rs:375-408 | After a grant the decision is the old one plus exactly the granted requests that no Deny covers; a first grant closes an open queue to all others |
| Permissions.PermissionIsAddedExactly | src/security.rs:375-408 | A permission is added exactly when label, accounts and actions are of the right form, no statement has the label, and there are at most 20 statements and 50 principals with it |
| Permissions.GrantIsValid | src/security.rs:401-405 | The statement of a grant always passes the statement checks of a policy |
| AccessPolicy.RemoveUndoesAdd | src/security.rs:409-425 | Removing a fresh label gives back the statement list from before the grant |
| AccessPolicy.RemoveRestoresDecisions | src/security.rs:409-425 | Granting and revoking restores every decision if and only if a policy was present |
| AccessPolicy.WithoutKeepsOthers | src/security.rs:418-422 | Removal drops every statement with the label and keeps all others |
| Numbers.NormalizeKeepsValue | src/message_attributes.rs:126-178 | An accepted number keeps its exact value and is written without an exponent |
| Numbers.NormalizeCanonical | src/message_attributes.rs:126-178 | Two accepted numbers normalise to the same text if and only if their values are equal |
| Numbers.NormalizeIdempotent | src/message_attributes.rs:126-178 | Normalising twice changes nothing |
| Numbers.NormalizeIsShort | src/message_attributes.rs:162-177 | The result takes at most 168 bytes |
| Numbers.AcceptanceIsByValue | src/message_attributes.rs:126-161 | A text below 2 GiB is accepted if and only if it is a decimal with exponent within 1000 and its value is zero or has at most 38 significant digits and lies between 1e-128 and 1e126 |
| Numbers.RenderDenotes | src/message_attributes.rs:162-177 | The rendered text parses back to the coefficient at its scale, in all three layouts |
| Spelling.ReadsExactly | src/message_attributes.rs:126-145 | A text is read exactly when it is a sign, digits around at most one point and an optional exponent of 32 bits, and is read as these parts, a minus making number or exponent negative |
| Spelling.ExponentMovesPoint | src/message_attributes.rs:129-137 | An exponent behind a text moves its point by the exponent's digits to the right, behind a minus sign to the left |
| Spelling.DigitsCount | src/message_attributes.rs:129-133 | The ten digits read as the numbers below ten |
| Spelling.NormalizeIsTidy | src/message_attributes.rs:162-177 | The result is an integer and a fraction without spare zeros, behind a minus sign exactly when the value is negative |
| Decimals.AmountInjective | src/message_attributes.rs:146-157 | A nonzero value determines its trimmed digits and its scale |
| Digest.DigestInput | src/message_attributes.rs:48-68 | The loops feed the digest the encoded attributes in name order, and nothing at all without attributes |
| Digest.StreamRoundTrip | src/message_attributes.rs:54-66 | A decoder recovers the attribute list from the stream when every field is shorter than 2^32 bytes |
| Digest.StreamIdentifiesAttributes | src/message_attributes.rs:48-68 | Two attribute maps give the same stream if and only if they are equal |
| Digest.LengthRoundTrip | src/message_attributes.rs:56-57 | The four big-endian bytes give the length modulo 2^32 back |
| Pagination.PagesIncrease | src/management.rs:114-161 | The names listed by following cursors are strictly increasing, whatever queues come and go between pages |
| Pagination.NothingIsMissed | src/management.rs:114-161 | A matching name after the cursor that exists at every page query is listed once the chain has ended |
| Pagination.StableNamesAppearOnce | src/management.rs:114-161 | From the first page on, such a name is listed exactly once |
| Pagination.ListedNamesExisted | src/management.rs:143-143 | Every listed name has the prefix and existed when some page was queried |
| Pagination.CursorIsAccepted | src/management.rs:124-140 | An issued cursor is accepted again with its own prefix, whatever exists by then, and with no other prefix |
| Pagination.DefaultPageIsWhole | src/management.rs:144-156 | A listing without a maximum issues no cursor and is complete if and only if at most 1000 names match |
| Pagination.PageHolds | src/management.rs:141-161 | A page holds the first matching names after the cursor, as many as asked for (1000 by default), and continues exactly when more were left and a maximum was given |
| Pagination.ListingIsRefused | src/management.rs:120-140 | A listing is refused exactly for a maximum outside 1 to 1000 or a cursor that is not of this version, prefix and form |
| TokenBucket.Admission.constructor | src/http_server.rs:412-421 | The bucket starts full |
| TokenBucket.Admission.TryEnter | src/http_server.rs:423-441 | Refill, cap, then admit or reject; a request without a slot leaves the bucket alone |
| TokenBucket.TokensStayInRange | src/http_server.rs:430-439 | Tokens stay between zero and the rate over every run, whatever the clock does |
| TokenBucket.WindowBound | src/http_server.rs:423-441 | From any sane bucket, a window of length d admits at most rate * d + rate calls |
| TokenBucket.EveryWindowIsBounded | src/http_server.rs:411-441 | In every run from a full bucket every stretch of calls satisfies that bound |
| TokenBucket.RejectionLeavesNoTrace | src/http_server.rs:434-436 | A rejected call leaves every later decision as it would have been without it |
| TokenBucket.SpacedCallsAreAdmitted | src/http_server.rs:430-438 | A client that leaves 1/rate seconds between calls is never limited |
| TokenBucket.FullBucketServesRate | src/http_server.rs:411-441 | A full bucket, and any bucket after a second without calls, admits exactly `rate` of the calls that come at once |
| TokenBucket.BurstIsServed | src/http_server.rs:430-439 | Of calls at one moment as many are admitted as there are whole tokens |

## Left out

- SQLite itself, encryption, migrations and older rows (keys with an empty group, rows without ids): only the final schema is modelled, and SQL statements are functions on its tables.
- Row numbers at the end of SQLite's range: the database would refuse the insert there; sequences and counters are unbounded here. Deduplication order is stated for row numbers of at most sixteen hexadecimal digits.
- The engine's tables are one value held in a field of the object: aliasing of rows and update in place inside SQLite are not modelled; a rolled-back transaction is a dropped working copy.
- `set_redrive_policy` as an operation of its own: policies are written through creation and settings here.
- Batches, tags, metrics, attribute selection, encryption settings, wait times, message size limits, attribute name checks and the FIFO throughput setting: single-branch facts.
- The polling loop around `receive_page`: its `cache_empty` flag is a parameter.
- SHA-256 (the content id is part of a request), MD5 (only its input is modelled), base64 and the JSON of attempts, attributes, policies and cursors (a cursor is what it decodes to, with its encoded length).
- The JSON shape and the 8192-byte limit of a policy: a policy is a list of statements; the remaining limits of `parse_policy` are a predicate. `AddPermission` can therefore succeed where the encoded policy would be too long.
- Columns that nothing reads back (`created_at_ms` and `modified_at_ms` of queues).
- The digest's state: `DigestInput` returns the bytes consumed, not their hash.
- The slot limit of `Admission` is a parameter of each call, and f64 is real arithmetic, so rounding of tokens is not modelled.
- Overflow of the last i32 addition in `normalize_number`, which needs a text of about 2 GiB.
- AccessPolicy.AddPermissionGrants: stated for queue names without wildcards, as the HTTP layer admits them, and action names without a star, as the HTTP layer passes them.
- Pagination.StableNamesAppearOnce: stated for requests that carry a maximum; without one see DefaultPageIsWhole.
