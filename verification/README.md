# Game services: models and proofs

This project models five services of the repository that keep shared state in versioned records or in a small
group of Redis keys, and proves what their documentation promises of them.

- **Leaderboard** (`Text`, `Ordering`, `RankMember`, `RankBoard`, `RankStore`, `RankRuns`, `RankSubmits`,
  `RankRecurrence`): the order-preserving text encoding of a score, the sorted set and owner hash that must stay one map,
  the compare-and-swap submit loop, and whole runs of it.
- **Chat channel** (`ChatState`, `ChatPaging`): the sequence counter, the bounded ring, the idempotency ledger, eviction,
  pruning and cursor paging, and readers that page while others write.
- **Paid-order delivery** (`PlatformOrder`, `PlatformRuns`, `PlatformPending`): claim, external call, record, run together
  with retries, replays, crashes and operators; and the pending index that the retry loop drains.
- **Names and roles** (`VersionStore`, `Directory`, `AccountCreate`, `AccountService`): the two-phase claim on a unique key,
  and the creation of a role over three stores with every failure undone.
- **Game lease** (`GlobalLease`): the lease fenced by an incarnation, with expiry.

What changes state in the Go source is a class with methods here, and each method is proved against a function on values.
Interleavings are runs: sequences of atomic steps, one per store call, in any order, over any number of callers. A
compare-and-set update whose callback is retried is one step, because only its last application takes effect. A versioned
store is a map from key to value and version; a checked delete takes effect only on exactly the pair that was read. What
callers do between two store calls of one operation is a parameter (`env`, `meanwhile`, `Outside`) or a step of its own.
The clock, tokens, incarnations, player ids and the deliverer's answers are parameters of the steps. Where a claim needs
them, fresh tokens, a clock that does not go back or outcomes recorded in time are named hypotheses (`FreshRun`, `FairRun`,
`TimelyRun`, `AddLegalRun`, `NoRecurrence`).

## What the code does differently from what is said of it

- `Around` accepts a radius of up to 100, but 100 asks for 201 rows and the page limit is 200, so it is refused
  (`RankStore.RedisStore.Around`).
- A request id with a comma is recorded in the ring in pieces and never recognised again
  (`RankStore.RecordedIffCommaFree`).
- The swap compares the member and not the ring. When a member comes back, with the same sum, tie and brief, an old swap
  goes through and its ring forgets what was applied since, so a redelivered request counts twice
  (`RankRecurrence.CancellingDeltasCountTwice`). Inside the redelivery window that is the only way to a double count
  (`RankRuns.AddCountsEachRequestOnce`). A feed is safe if and only if no proper part of its ids cancels out
  (`RankRecurrence.CountsOnceIffNothingCancels`), as with positive deltas (`RankRecurrence.PositiveAddsCountOnce`).
- `AfterSeq` zero is the newest page and not the start of the history (`ChatPaging.CursorZeroIsTheNewestPage`).
- An outcome recorded after its deadline moves a settled order to delivered or exhausted
  (`PlatformRuns.SettledThenDelivered`), two late attempts can both grant (`PlatformRuns.SecondGrantIffDeadlinePassed`),
  and so can an attempt after a crash between grant and record (`PlatformRuns.GrantedAgainAfterCrashIffDue`).
- The pending index and `Due` disagree on an order that has no attempt behind it, or was reopened, and whose payment time
  lies ahead: it is due and on no page until then (`PlatformPending.IndexTellsDueIff`).
- Undoing a create whose slot vanished releases the committed name by owner, so it also takes it from an earlier role of the
  same account (`AccountService.OwnNameIsShared`). Among creates alone this path is never taken
  (`AccountCreate.CommittedMeansSuccess`).
- The comment at `service/account/service.go:214` says that a crash at any point of a create burns nothing. The slot has no
  time to live: a create that stops while it holds its slot blocks it for good (`AccountCreate.CrashBurnsTheSlot`).
- The comment at `service/global/types.go:181-183` says that a renewal under another route binding is refused. `RenewLease`
  does not look at the binding (`GlobalLease.MovedRouteIsRenewed`, `GlobalLease.RenewalUnderAnotherRoute`).
- A renewal reads the clock before its update, so a slow one can bring a lapsed lease back
  (`GlobalLease.HeldAgainIffLateRenewal` says exactly when).

## Model

| member | source | states |
|---|---|---|
| RankMember.SortableUintOrder | service/rank/member.go:27-33 | The sign-flipped word keeps the order of all signed values, across zero, and complementing reverses it; both undo. |
| RankMember.HexRoundTrip | service/rank/member.go:41-55 | Sixteen hex digits parse back to the same word, for every word. |
| RankMember.DecimalRoundTrip | service/rank/member.go:41-55 | The zero-padded signed owner field is twenty wide, holds no separator and parses back, for every int64. |
| RankMember.BriefRoundTrip | service/rank/member.go:57-98 | Unpadded base64 decodes to the same bytes, for every byte string, and never contains the separator. |
| RankMember.DecodeUndoesEncode | service/rank/member.go:41-98 | Decoding an encoded score gives the score back for every value, tie, owner and brief; an empty brief reads back as absent. |
| RankMember.DecodeMeaning | service/rank/member.go:65-98 | A member decodes if and only if it has five fields whose value, tie and owner are numbers and whose brief is empty or base64, and then into exactly those. |
| RankMember.EntryOrder | service/rank/member.go:31-63 | For different owners, byte order of the encoded entries read in reverse is exactly value descending, tie ascending, owner ascending, whatever the briefs. |
| RankBoard.WindowsTile | service/rank/redis_store.go:246-280 | Consecutive pages tile the ranked board: together they are one longer page, no row twice and none skipped. |
| RankBoard.DescendingIsRanked | service/rank/redis_store.go:246-280 | Listing the sorted set from the top and decoding it is the board sorted best first: the encoded structures refine a plain sorted map. |
| RankBoard.ZsetSize | service/rank/redis_store.go:328-333 | The sorted set, the owner hash and the map they stand for have the same size. |
| RankBoard.RankIsPosition | service/rank/redis_store.go:338-359 | A member’s reverse rank is its place in the descending listing. |
| RankBoard.RankMeaning | service/rank/redis_store.go:281-300 | An owner’s position is the number of owners strictly better, and the ranked board has that owner’s score there. |
| RankStore.RingIsWindow | service/rank/redis_store.go:394-427 | For comma-free ids the comma-joined ring recognises exactly the last eight ids applied, and appending a new one slides the window. |
| RankStore.RecordedIffCommaFree | service/rank/redis_store.go:394-427 | Appending an id makes it recognisable if and only if it contains no comma, and an id the ring names is not appended again. |
| RankStore.SwapIsCompareAndSwap | service/rank/redis_store.go:94-114 | The swap applies if and only if the stored member is the expected one; refused, it changes nothing and answers the stored member. |
| RankStore.SwapInstalls | service/rank/redis_store.go:94-114 | A swap that meets the member it expects applies, and its owner’s member and ring are then the new ones, decoding to the submitted score. |
| RankStore.SwapWritesOneScore | service/rank/redis_store.go:94-114 | Read as a board, an applied swap replaces its owner’s score and no other. |
| RankStore.SwapKeepsConsistent | service/rank/redis_store.go:94-114 | A swap of any client keeps the sorted set equal to the set of members in the owner hash. |
| RankStore.RemoveKeepsConsistent | service/rank/redis_store.go:116-124 | So does a removal. |
| RankStore.RemoveTakesOneOwner | service/rank/redis_store.go:116-124 | Read as a board, a removal takes its owner off and no other, and its ring with it. |
| RankStore.ActKeepsConsistent | service/rank/redis_store.go:94-124 | So does every write a client can send, whatever it read before. |
| RankStore.BoardsStayConsistent | service/rank/redis_store.go:94-190 | After any interleaving of swaps, removals and resets the sorted set is the set of members in the hash, one per owner, each decoding to its owner. |
| RankStore.ConflictIffEveryAttemptLost | service/rank/redis_store.go:139-190 | A submit reports a conflict if and only if each of its attempts lost its compare-and-swap, and then it wrote nothing. |
| RankStore.SubmitIsAtomic | service/rank/redis_store.go:128-190 | A submit that wrote replaced the owner’s score by its mode applied to the very score stored at that moment, and answers with that score and its rank on the board as a later read finds it, zero when it is gone by then. |
| RankStore.NextScoreMeaning | service/rank/redis_store.go:361-392 | Set takes the incoming value and tie, Max keeps the better with the earlier tie deciding, Add sums modulo 2^64, and a submit without a brief keeps the stored one. |
| RankStore.ReplayWritesNothing | service/rank/redis_store.go:144-153 | A request whose id the ring names writes nothing at all and is answered with the stored score and its rank. |
| RankStore.UnchangedRecordsOnly | service/rank/redis_store.go:158-167 | A request that changes nothing keeps every member, records its id in the ring while the member is the one it read, and is answered with the stored score. |
| RankStore.SubmitDid | service/rank/redis_store.go:128-190 | What the first attempt that is not lost met decides everything a submit leaves, members and rings, and answers. |
| RankStore.EntryForIsRankLater | service/rank/redis_store.go:338-359 | The entry answered for a score is that score with one plus the number of owners strictly better at the time of the read, or zero when its owner no longer has it. |
| RankStore.RedisStore.Swap | service/rank/redis_store.go:217-232 | Runs the compare-and-swap script on the two structures. |
| RankStore.RedisStore.Submit | service/rank/redis_store.go:128-190 | For every behaviour of the other clients between its round trips, the rank read included: a replay writes nothing, a change replaces the score stored at that moment, no change records the id, eight lost swaps are a conflict that wrote nothing; an invalid board, owner, mode, brief or id is refused in that order and changes nothing. |
| RankStore.RedisStore.Remove | service/rank/redis_store.go:234-244 | Takes an owner out of set, hash and ring together and nothing else; owner zero is refused. |
| RankStore.RedisStore.ReadPage | service/rank/redis_store.go:246-279 | A page is exactly the window of the ranked board with its total; it fails if the range is invalid or a member in it does not decode. |
| RankStore.RedisStore.Rank | service/rank/redis_store.go:281-300 | The rank is one plus the number of owners strictly better; an absent owner has none. |
| RankStore.RedisStore.Around | service/rank/redis_store.go:302-318 | For an owner on the board it succeeds if and only if the radius is 1 to 99, and then the page holds the owner’s row; radius 100 is refused by the page. |
| RankStore.RedisStore.Reset | service/rank/redis_store.go:320-326 | Empties the board. |
| RankRuns.ValueIsTheSumOfTheLog | service/rank/redis_store.go:128-190 | In every Add traffic, whatever the deltas, ids and redeliveries, the stored value is the wrapped int64 sum of the applied submits. |
| RankRuns.AddCountsEachRequestOnce | service/rank/redis_store.go:128-190 | For Add traffic with deltas of any sign, redelivered inside the ring window and interleaved across clients in any way, as long as no member recurs under a pending swap no request applies twice and the stored value is the wrapped sum of the applied deltas. |
| RankRuns.AddRunKeepsInv | service/rank/redis_store.go:128-190 | In every such run the member in store, the ring and every pending swap agree with the log of applied requests. |
| RankSubmits.AttemptIsReadThenSwap | service/rank/redis_store.go:139-184 | One attempt of an Add submit is a read and a swap of the runs; a replay is the read alone and leaves everything as it was. |
| RankSubmits.SubmitIsARun | service/rank/redis_store.go:128-190 | A whole Add submit, all its attempts and whatever others do in between, leaves the board that the run of those reads and swaps leaves. |
| RankSubmits.SubmitsAreCounted | service/rank/redis_store.go:128-190 | So after a submit the stored value is the wrapped sum of the applied requests, its own included when it was applied. |
| RankSubmits.MaxAttemptIsReadThenSwap | service/rank/redis_store.go:139-184 | The same for an attempt of a Max submit, the request that changes nothing included. |
| RankRuns.RisingAddsCountOnce | service/rank/redis_store.go:128-190 | With positive deltas and running totals within int64 nothing recurs, so every request counts once and the stored value is the plain sum. |
| RankRuns.RisingNeverRecurs | service/rank/redis_store.go:101-106 | Such runs have no recurrence at any step. |
| RankRuns.MemberNamesPrefix | service/rank/redis_store.go:101-106 | When every applied submit raised the value, no pending swap finds a member that recurred: the member tells which prefix was applied. |
| RankRuns.AppliedIffNotInRing | service/rank/redis_store.go:139-184 | Read and swapped undisturbed, a request is applied if and only if the ring, in whatever state, does not name it. |
| RankRuns.AppliedIffOutsideWindow | service/rank/redis_store.go:139-184 | While no member recurred that means if and only if it is not among the last eight applied, even when it was applied before. |
| RankRecurrence.StaleSwapLandsIffMemberRecurs | service/rank/redis_store.go:101-106 | A swap that read before later submits applied goes through if and only if the member recurs: same wrapped sum, same tie, same kept brief. |
| RankRecurrence.RecurrenceForgets | service/rank/redis_store.go:107-114 | The ring it writes is the one it read with its own id appended, so every other id applied since its read is forgotten. |
| RankRecurrence.OnceIsKeptIffNoRecurrence | service/rank/redis_store.go:94-114 | While every request has counted once, a swap keeps log and ring so if and only if it is not a recurrence. |
| RankRecurrence.RecurrenceCountsTwice | service/rank/redis_store.go:139-184 | From any recurrence a legal continuation, at most one redelivery inside the window, applies a request twice. |
| RankRecurrence.OnceOnlyIffNothingRecurs | service/rank/redis_store.go:128-190 | From any board on which requests counted once, all legal traffic of a feed counts every request once if and only if none of it makes a member recur. |
| RankRecurrence.RecurrenceCancels | service/rank/redis_store.go:101-106 | The ids applied between a stale read and its recurrence are some but not all of the feed’s ids and their deltas come to 0 modulo 2^64. |
| RankRecurrence.CancellingIdsCountTwice | service/rank/redis_store.go:128-190 | For any such ids there is a legal run from the empty board that applies a request twice. |
| RankRecurrence.CountsOnceIffNothingCancels | service/rank/redis_store.go:128-190 | The exact condition on a feed of finitely many comma-free ids: all legal traffic counts every request once if and only if no nonempty proper subset of the ids has deltas that come to 0 modulo 2^64. |
| RankRecurrence.PositiveAddsCountOnce | service/rank/redis_store.go:128-190 | The instance of positive deltas that together stay in int64: every legal run counts every request once and stores the plain sum. |
| RankRecurrence.CancellingDeltasCountTwice | service/rank/redis_store.go:128-190 | The instance of +5 and −5 among four ids: a legal run with one tie in which a redelivered request is applied again and 7 is stored for requests that come to 2. |
| RankRuns.MaxNeverLowers | service/rank/redis_store.go:361-392 | A Max submit, whenever it lands, never moves the owner down. |
| RankRuns.MaxLeavesTheBest | service/rank/redis_store.go:361-392 | After any interleaving of Max submits the stored value and tie are the best of those that completed. |
| RankRuns.BestIgnoresOrder | service/rank/types.go:154-155 | That best depends only on which scores were submitted, not on order or repetition: Max is safe to replay. |
| ChatState.NewestOfLedger | service/chat/store.go:181-203 | Dropping the oldest keys of a ledger, however ties would break, leaves exactly the newest sequence numbers, one key each. |
| ChatState.BudgetCoversRing | service/chat/store.go:205-214 | The ledger remembers twice the retain, at least the default and at most its cap, and never less than the ring. |
| ChatState.PublishKeepsInv | service/chat/store.go:421-470 | A publish keeps ring, ledger and counters in step, and changes nothing for a known key. |
| ChatState.PublishMeaning | service/chat/store.go:421-501 | A known key whose message is retained is a replay if and only if kind and, for a role, role id, for the game, declared actor agree, and is refused otherwise; a new key is stored under the next number. |
| ChatState.PruneKeepsInv | service/chat/store.go:619-670 | A bounded prune keeps ring, ledger and counters in step. |
| ChatState.TrimmedIsPublished | service/chat/store.go:158-200 | Whatever order equal keys are dropped in, the trimmed state is the one state a publish specifies. |
| ChatState.RetainOkIffConfigured | service/chat/chat.go:281-333 | The retains a channel can have are exactly those that an accepted rule gives, zero selecting the default. |
| ChatState.EveryChannelState | service/chat/store.go:158-214 | For every accepted retain and in every reachable state the ring is consecutive, ends at LastSeq and is at most retain long, LastSeq = Evicted + ring length, and the ledger is exactly the newest min(LastSeq, budget) numbers; the clock may run backwards. |
| ChatState.KeysRepeatOnlyOutsideWindow | service/chat/store.go:421-470 | Over a whole run a key is stored again only more than budget messages later. |
| ChatState.AnswerInsideWindow | service/chat/store.go:431-501 | A key inside the window is never stored twice: the retained message is answered to the same role or the same declared actor of the game, everything else is refused. |
| ChatState.ChannelState.Find | service/chat/store.go:143-149 | Binary search finds a number if and only if it is retained. |
| ChatState.ChannelState.DropOldestKeys | service/chat/store.go:181-203 | Leaves as many of the newest keys as the budget allows. |
| ChatState.ChannelState.Trim | service/chat/store.go:168-203 | Cuts the ring to its newest messages and the ledger to its newest keys, and counts what it evicted. |
| ChatState.ChannelState.Append | service/chat/store.go:421-501 | In fields: who gets a replay, who is refused, and for a new key the stored message, the ring cut to its newest, the ledger and the counters. |
| ChatState.ChannelState.StoreNew | service/chat/store.go:455-468 | The write of a new key. |
| ChatState.DropAged | service/chat/store.go:638-644 | The loop drops the longest prefix of old enough messages within the limit. |
| ChatState.ChannelState.Prune | service/chat/store.go:619-670 | Drops exactly the leading messages past their age, at most the limit, counts them as evicted and leaves number and keys alone. |
| ChatPaging.PageOf | service/chat/store.go:550-617 | The index loops return the page the query asks for: which messages, both cursors, HasMore and Gap. |
| ChatPaging.History | service/chat/store.go:504-548 | Two cursors at once or one beyond anything issued, and a limit outside 1 to 200, are refused; everything else is that page. |
| ChatPaging.PagesAreUnique | service/chat/store.go:550-617 | A query has one page only, so the relational page contract determines the answer. |
| ChatPaging.MissedIffBeforeOldest | service/chat/store.go:586-595 | Some number after a cursor is no longer retained if and only if the cursor lies before the oldest retained number by more than one: the Gap test. |
| ChatPaging.BackChainIsEverythingBefore | service/chat/store.go:550-617 | Chaining BeforeSeq with PrevCursor returns every retained message below the start exactly once and ends when HasMore is false. |
| ChatPaging.ForwardChainIsEverythingAfter | service/chat/store.go:550-617 | A forward chain returns exactly the retained messages after its start. |
| ChatPaging.OpeningThenBackIsTheRing | service/chat/store.go:550-617 | Opening without a cursor and scrolling back reads the whole ring. |
| ChatPaging.RunKeepsReader | service/chat/store.go:504-617 | Everything a reader has received stays in order, stored and inside its cursor, through any writes. |
| ChatPaging.ReaderMissesNothingUnlessTold | service/chat/store.go:504-617 | From a positive cursor a reader that passes on NextCursor gets ascending, never repeated numbers under any appends, evictions and prunes, and has every one of them while no page says Gap. |
| ChatPaging.CursorZeroIsTheNewestPage | service/chat/store.go:586-595 | Cursor zero is the newest page, never says Gap, and is the whole history if and only if nothing was evicted and it fits one page. |
| PlatformOrder.TurnedAway | service/platform/service.go:445-513 | What each state answers without an attempt, and that an attempt is claimed if and only if the order is open, due and within its budget. |
| PlatformOrder.ClaimedAttempt | service/platform/service.go:486-593 | What a claimed attempt leaves and answers: granted, waiting for a backoff that grows to eight times its base, or exhausted with the last try. |
| PlatformOrder.RecordedMeaning | service/platform/service.go:515-593 | What recording an answer does to a vanished, a delivered and any other order. |
| PlatformOrder.RecordsOnWhatIsThere | service/platform/service.go:515-593 | The answer is recorded on what others left of the order. |
| PlatformOrder.Service.AttemptDelivery | service/platform/service.go:432-568 | Claim, deliver, record, with each refusal and whatever others did to the order while the deliverer was at work; the deliverer is called if and only if the claim took an attempt. |
| PlatformOrder.Service.RecordAnswer | service/platform/service.go:515-568 | The record step on the order as it stands then: delivered already is a replay and stays, vanished is a conflict. |
| PlatformOrder.Service.RecordFailure | service/platform/service.go:570-593 | Records the cause up to its limit, exhausts the order if and only if its budget is spent or it was exhausted, keeps its attempts, and leaves a delivered order alone. |
| PlatformOrder.Service.HandleCallback | service/platform/service.go:308-407 | In fields: when an unsigned, empty, oversized or unreadable callback, an invalid order and one with other contents are refused, each changing nothing; nothing changes and nobody is called without a signature; the first arrival records the order, and no arrival calls the deliverer more than once or at all for a delivered order. |
| PlatformOrder.Service.ReopenDelivery | service/platform/admin.go:94-145 | Succeeds if and only if the note is valid and the order exhausted, and then gives a fresh budget due at once, one more reopening and the note; a refusal changes nothing. |
| PlatformOrder.Service.SettleOutOfBand | service/platform/admin.go:160-200 | Likewise for settling, which is terminal, keeps the attempts and is not a delivery. |
| PlatformRuns.StepKeepsBudget | service/platform/service.go:445-593 | Every step of every actor keeps calls within the budget spent so far. |
| PlatformRuns.CallsAreBudgeted | service/platform/service.go:445-593 | In every interleaving, with no timing hypothesis, the deliverer is called at most MaxAttempts × (Reopens + 1) times. |
| PlatformRuns.DeliveredIsFrozen | service/platform/service.go:541-553 | A delivered order is never changed again, its delivery time included. |
| PlatformRuns.AttemptsLowerMeasure | service/platform/service.go:445-513 | MaxAttempts − Attempts + 1 is lowered by every attempt not turned away on an open order. |
| PlatformRuns.OrdersRunOut | service/platform/service.go:445-513 | So without operators an order takes at most that many such attempts. |
| PlatformRuns.GrantedAtMostOnce | service/platform/service.go:432-593 | With one clock and every outcome recorded before its deadline, at most one attempt is in flight and the goods are granted at most once, across callbacks, retries and reopenings. |
| PlatformRuns.TerminalOutcomesStay | service/platform/service.go:445-593 | In such runs delivered and settled are never left. |
| PlatformRuns.AttemptIsThreeSteps | service/platform/service.go:432-568 | An uninterrupted attempt is the claim, delivery and record steps in a row. |
| PlatformRuns.OperatorsMoveExhaustedOnly | service/platform/admin.go:94-200 | The operators’ steps move an exhausted order only, to a fresh budget that is due at once or out of reach of every attempt. |
| PlatformRuns.OverlapIffDeadlinePassed | service/platform/service.go:445-486 | A second attempt joins one in flight if and only if its clock has reached the first one’s deadline and budget is left. |
| PlatformRuns.SettledIsLeftIffLateOutcome | service/platform/service.go:541-585 | A settled order leaves that state if and only if an attempt in flight at the settlement records its outcome afterwards. |
| PlatformRuns.SettledThenDelivered | service/platform/service.go:541-553 | A run from the first callback in which an operator settles the order and a late outcome delivers it. |
| PlatformRuns.SecondGrantIffDeadlinePassed | service/platform/service.go:445-486 | With one unanswered attempt that set the stored deadline, a second one that starts before the answer adds a second grant if and only if its clock has reached that deadline and budget is left. |
| PlatformRuns.GrantedAgainAfterCrashIffDue | service/platform/service.go:445-553 | After a crash between the grant and its record the order is as the claim left it, and the next attempt grants again if and only if the order is due and budget is left. |
| PlatformRuns.TwoGrantsAfterCrash | service/platform/service.go:515-553 | A run with such a crash and two grants, no outcome recorded late. |
| PlatformRuns.TwoGrantsWhenLate | service/platform/service.go:515-553 | A run in which the goods are granted twice because the first outcome is late. |
| PlatformPending.WriteKeepsAgreement | service/platform/redis_store.go:75-107 | The write that changes an order also puts its index entry where the order belongs, or takes it out. |
| PlatformPending.PendingService.RetryPendingOnce | service/platform/server_run.go:70-140 | One pass visits each id of the page in order: attempt, retire, defer or pass over; an order whose claim writes nothing keeps its record and its entry. |
| PlatformPending.PendingService.Serve | service/platform/server_run.go:36-65 | The server’s loop is one pass a tick. |
| PlatformPending.IndexTellsDueIff | service/platform/redis_store.go:75-90 | The index lists an order as due exactly when Due says so, if and only if it is resolved, or an attempt set its next time, or its payment time has come. |
| PlatformPending.FuturePaymentIsOnNoPage | service/platform/redis_store.go:112-124 | A due order without an attempt whose payment time lies ahead is on no page, however long. |
| PlatformPending.PaidInTheFuture | service/platform/service.go:337-352 | Such an order, as a first callback with a future payment time records it. |
| PlatformPending.VisitClearsTheWay | service/platform/server_run.go:81-140 | From its claim on, a visited entry is behind any order that is already due, or out of the index, and nothing else moves ahead. |
| PlatformPending.RecordKeepsTheWay | service/platform/service.go:515-593 | Recording an answer later, on whatever others made of the record, moves nothing ahead either. |
| PlatformPending.RecordKeepsItsPlace | service/platform/redis_store.go:75-90 | Recording takes an order out of the index or leaves its place there. |
| PlatformPending.VisitIsAnAttempt | service/platform/server_run.go:81-87 | A visit with nobody in between is one whole attempt on the record and its entry, and writes nothing when the claim does not. |
| PlatformPending.UnreadableVisit | service/platform/server_run.go:102-132 | An entry without a record is retired, one whose record cannot be decoded keeps it and stands 15 minutes later, and neither calls the deliverer. |
| PlatformPending.ReadableVisit | service/platform/service.go:445-486 | A claimed visit takes one attempt, writes order and entry together and is the only one that calls the deliverer. |
| PlatformPending.LateAnswer | service/platform/service.go:515-593 | A late answer is recorded on the order that is there then and nowhere else. |
| PlatformPending.VisitTries | service/platform/server_run.go:81-87 | An order that is Due when visited has an attempt claimed for it or is found out of budget. |
| PlatformPending.ClaimMovesOn | service/platform/redis_store.go:75-90 | A claimed or exhausted order leaves the index or stands later than now, given a backoff of a second or more. |
| PlatformPending.AttemptMovesOn | service/platform/redis_store.go:75-90 | So does an order after a whole attempt. |
| PlatformPending.PageReaches | service/platform/redis_store.go:112-124 | A page of 128 holds an order whose index time has come if fewer than 128 due entries are ahead of it, and otherwise is 128 entries that are all ahead of it. |
| PlatformPending.PassProgress | service/platform/server_run.go:70-140 | Over a pass, with other processes at work between any two store calls of a visit, an order is attempted or what is ahead of it shrinks by the whole page. |
| PlatformPending.AttemptedWithin | service/platform/server_run.go:70-140 | An order whose index time has come, with k due entries ahead, is attempted within floor(k / 128) + 1 passes, whatever those entries are, as long as nothing new is put ahead of it. |
| PlatformPending.LoopAttemptsWithin | service/platform/server_run.go:36-140 | With nothing else at work the repeated loop meets that bound outright. |
| PlatformPending.VisitsAreAPass | service/platform/server_run.go:70-140 | The retry loop over a page is the run of its visits, so the results on runs are about the loop. |
| PlatformPending.VisitsAreFair | service/platform/server_run.go:70-140 | A pass with nobody else at work meets the fairness that the bound asks for. |
| Directory.NormalizeLowerIsIdempotent | service/directory/store.go:70-78 | A key and the trimmed display form normalize to the key itself, so every spelling of a name is one key. |
| Directory.OneKeyIffFoldedAlike | service/directory/store.go:70-78 | Two names are one key if and only if, trimmed, they differ in the case of letters only. |
| Directory.ReserveIsUndone | service/directory/store.go:88-292 | Cancel takes back a reservation of a free key, and Release a committed one, leaving the store as it was; Commit succeeds if and only if the reservation has not lapsed. |
| Directory.DirectoryStore.Reserve | service/directory/store.go:88-154 | Refused as taken if and only if somebody else’s live entry is in the way; the owner’s own live entry is handed back unchanged, and otherwise the new entry is stored with every field as given and its version one up. |
| Directory.DirectoryStore.Commit | service/directory/store.go:156-209 | Succeeds if and only if the entry carries the claim’s token and is committed or live, and changes state, expiry and commit time only; a refusal changes nothing. |
| Directory.DirectoryStore.Cancel | service/directory/store.go:211-246 | Deletes only the very pair it read, whatever others did in between; refuses a committed entry. |
| Directory.DirectoryStore.Lookup | service/directory/store.go:248-261 | A lapsed reservation reads as absent. |
| Directory.DirectoryStore.Release | service/directory/store.go:263-292 | Deletes only for the owner and only the very pair it read, and says so when it changed. |
| Directory.StepKeepsCommitted | service/directory/store.go:88-292 | One step of any caller changes a committed entry if and only if it is its owner’s own Release. |
| Directory.CommittedUntilReleased | service/directory/store.go:88-292 | In every interleaving, old claims and racing reads included, a committed entry is kept, same owner, token and version, if and only if its owner does not release it. |
| Directory.CommittedShutsOthersOut | service/directory/store.go:88-209 | After a successful Commit and until that release, everybody else is told the key is taken. |
| Directory.ClaimsReachOnlyTheirOwner | service/directory/directory.go:116-135 | A claim, however old, never commits or cancels another owner’s entry, and only a lapsed entry is taken over. |
| Directory.EveryRunIsAccounted | service/directory/store.go:88-292 | Stored tokens, claims and pending deletes agree on whose they are in every run with fresh tokens. |
| Directory.ReserveHandsGenuineClaims | service/directory/store.go:118-141 | Every claim handed out, new or shared, is the owner’s. |
| Directory.VersionsRepeat | service/README.md:141 | A run in which a canceller holds the stored version while the entry is another owner’s, committed: versions alone would not protect it. |
| AccountCreate.SlotKeyTells | service/account/service.go:391-399 | A slot key stands for one account and one server, whatever characters the account id holds. |
| AccountCreate.SlotsStep | service/account/service.go:248-262 | Every step of every create keeps one holder per slot and a holder for every slot. |
| AccountCreate.NamesStep | service/account/service.go:261-331 | Every step keeps committed names with a create of that account and loses no claim’s token. |
| AccountCreate.RolesStep | service/account/service.go:280-349 | Every step keeps each untouched role with the create that made it; a rollback never removes another’s. |
| AccountCreate.RunKeepsInv | service/account/service.go:219-388 | All three hold in every run of any number of creates, with roles written by others at any time. |
| AccountCreate.OutcomesAreFinal | service/account/service.go:219-334 | A create that has succeeded or failed stays so in every later state. |
| AccountCreate.OneRolePerAccountAndServer | service/account/service.go:248-260 | However many creates race, at most one ever succeeds per account and server. |
| AccountCreate.NameBelongsToOneAccount | service/account/service.go:261-331 | Two successful creates whose names normalize alike are of the same account. |
| AccountCreate.SuccessIsWhole | service/account/service.go:280-334 | A success has its slot naming the role, its name committed, and its role stored unless somebody wrote it. |
| AccountCreate.FailedLeavesNoSlot | service/account/service.go:374-388 | A slot under a failed create’s key belongs to another create, at work or successful. |
| AccountCreate.FailedLeavesNoRole | service/account/service.go:336-349 | No role nobody else wrote is left by a failed create. |
| AccountCreate.FailedLeavesNoReservation | service/account/service.go:351-372 | Whatever entry carries a failed create’s token was committed for another create of the same account that shared the claim. |
| AccountCreate.CommittedMeansSuccess | service/account/service.go:309-331 | Once the name is committed the next step succeeds: the slot cannot have vanished unless something outside creation removes it. |
| AccountCreate.StoppedCreateBlocksItsSlot | service/account/service.go:248-260 | A create that stops while it holds its slot keeps that very record in every later state, and every other create for the slot fails at its first step. |
| AccountCreate.CrashBurnsTheSlot | service/account/service.go:351-372 | So from every state reached, a crash after taking the slot shuts its account out of its server for good. |
| AccountService.ClaimIsUndone | service/account/service.go:351-372 | Cancelling, or committing and releasing, a claim leaves the names as before or without that one key, which was not committed unless Release took it. |
| AccountService.CreateComesTo | service/account/service.go:219-334 | An undisturbed create succeeds if and only if it is admitted, slot and name are free (or the name its own), the id is usable and the commit in time; otherwise slots and roles are as before. |
| AccountService.OwnNameIsShared | service/account/service.go:261-331 | An account may reuse its committed name on another server; if that slot is removed before the end, undoing releases the name from under the first role. |
| AccountService.AdmissionMeaning | service/account/service.go:220-246 | The exact condition of each refusal before anything is written, in the order of the checks. |
| AccountService.Service.CreateRole | service/account/service.go:219-270 | The method is the machine’s steps taken in turn. A role is created only for a known account that is not banned, an allowed name and an open server; each refusal has its exact condition and changes nothing, and the role returned has the fields asked for. |
| AccountService.Service.CreateAdmitted | service/account/service.go:248-270 | From the slot to the name claim: who meets the role limit, and whose name is taken. |
| AccountService.Service.CreateClaimed | service/account/service.go:272-299 | The part from the name claim to the stored role, tied to the same steps. |
| AccountService.Service.CommitRole | service/account/service.go:300-334 | The part from the stored role to the slot write, with both ways of undoing and what each answers. |
| AccountService.Service.Rollback | service/account/service.go:351-372 | Cancels the claim and gives back the slot; a stale claim is ignored. |
| AccountService.Service.RollbackRole | service/account/service.go:336-349 | Removes the role only as it was stored. |
| AccountService.Service.ReleaseSlot | service/account/service.go:374-388 | Removes the slot only as it was taken. |
| GlobalLease.LeaseService.AcquireLease | service/global/service.go:252-304 | Succeeds if and only if the server is bound and no incarnation holds the lease at the reading; the lease then stored and returned has the resolved binding, the minted incarnation and the deadline, and a refusal changes nothing. |
| GlobalLease.LeaseService.RenewLease | service/global/service.go:314-358 | A well-formed renewal succeeds if and only if the incarnation holds the lease, whatever the route is by then; heartbeat, deadline and load are new, all else stays, and each refusal has its exact condition. |
| GlobalLease.LeaseService.ReleaseLease | service/global/service.go:361-402 | Afterwards the incarnation holds nothing at any time; its record stays as released, and another’s lease is as it was. |
| GlobalLease.LeaseService.Lease | service/global/service.go:404-420 | Reads as active if and only if its incarnation holds it now. |
| GlobalLease.AcquireNeverReplacesHeld | service/global/service.go:282-303 | Acquire never replaces a held lease, not even from an old clock reading. |
| GlobalLease.RevivedOnlyLate | service/global/service.go:314-358 | One step makes a lapsed, released or replaced incarnation a holder again if and only if it is a renewal whose reading precedes the lapse. |
| GlobalLease.HeldAgainIffLateRenewal | service/global/service.go:252-403 | Over whole runs, the same condition exactly. |
| GlobalLease.NeverHeldAgain | service/global/service.go:252-403 | With each reading and update one moment, an incarnation that stopped being held is never held again. |
| GlobalLease.HeldInOneStretch | service/global/types.go:199-209 | So each incarnation holds the lease in one stretch of the run at most. |
| GlobalLease.LateRenewalHappens | service/global/service.go:314-358 | A run from the empty state: a lease acquired for nine seconds has lapsed, and a renewal that read the clock before the lapse brings it back. |
| GlobalLease.RenewalUnderAnotherRoute | service/global/service.go:314-358 | Under a route other than the lease’s binding a renewal is refused if and only if it is malformed or its incarnation does not hold the lease; accepted, it extends the lease under the old binding. |
| GlobalLease.MovedRouteIsRenewed | service/global/types.go:181-186 | A run in which the route moves and the renewal is accepted all the same. |

## Left out

- Configuration, wiring and generated transport (`*_mod.go`, `*_rpc_gen.go`, `*_rpc_assembly_gen.go`): forwarding only.
- The mail, match and session services, whose domain code is not part of this repository, and `service/global/activity`.
- The Redis key names of the leaderboard, and checking the board's name in calls other than `Submit`; `Size`, which is the
  `Total` of a page.
- Channel references, publish policies, senders and body validators of the chat; a draft that reaches the store is modelled.
- Changing a channel's retain between two publishes: it is fixed for a run, within 1 to 1000.
- Login, sessions, role selection and profile updates of the account service, except that they may write any role at any time.
- The steps of binding and migrating a route in the global service: a route may change at any time to anything.
- Signatures, payload parsing, SHA-256 and randomness: their verdicts come with the callback, the digest is equality of the
  purchase fields, tokens are parameters that are fresh where a claim needs it.
- Store errors, cancellation, tickers, metrics and log lines. The proofs are of runs in which every store call answers.
- The retries inside `versionstore.Update` and their exhaustion; versionstore is not part of this model, only its contract.
- Unicode: strings are bytes in ASCII, so `TrimSpace` and `ToLower` are those of ASCII.
- Integer widths where the code assumes they suffice: sequence numbers, attempt and reopen counters, and durations are
  unbounded. The leaderboard's int64 values wrap as Go's do.
- The index score as a float64: exact for every time below 2^53 seconds.
- The rank and total of `Rank`, `Page` and `Around` are read at the same moment as the member or the page they belong to.
- RankRuns.AddCountsEachRequestOnce: asks that no member recurs under a pending swap, without which it is false;
  `RankRecurrence.CountsOnceIffNothingCancels` says for which feeds that never happens.
- PlatformPending.AttemptedWithin: counts from the index time and not from `Due`, which an order can reach earlier
  (`PlatformPending.IndexTellsDueIff`); it asks that others put nothing new ahead of the order and that the index names no
  blank id, which would be refused on every pass and never leave the page.
- AccountCreate.FailedLeavesNoRole: says nothing of roles that somebody other than their creator has written, since the
  rollback leaves those alone on purpose.
