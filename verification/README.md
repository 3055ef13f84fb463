# NFT market backend: a verified model

This project models the order book of the NFT market backend and everything that drives it: the
chain watcher and its goroutines, the event service, order admission and Dutch-auction pricing,
the query behind the order list, the row codec, the token-bucket limiter and the WebSocket hub.
`dafny verify dfyconfig.toml` checks all of it.

Parts of the program that update state in place are classes and methods here (`OrderRepo`,
`OrderService`, `EventService`, `Watcher`, `Limiter`, `Hub`); each method is proved against a
function of the old state, and the theorems are lemmas about those functions, over every run.
Concurrency is a state machine whose actions are the atomic steps of the goroutines
(`Handlers.dfy`). `Handlers.UninterruptedHandler` and `PollRuns.PollIsRun` tie the machines to the
methods, and `PollOnly.PollOnlyRecovers` ties the goroutines of a watcher without a subscription to
the machine on which crash recovery is proved. PostgreSQL is a sequence of rows with the migration's unique indexes and NOT NULL
columns; a nil byte slice is taken to be sent as NULL. The node, the clock and the database's
choice of row order are parameters. Seconds and tokens of the limiter are `real`.

What the proofs show that the code or its documents do not say:

- **Saving the cursor inside a block loses logs.** `handleLog` moves the cursor to a block after
  the first of its logs, and the saver may store it there; a restart then polls from the next
  block. `RecoveryIff` gives the exact condition, `SafeSaving` a rule that suffices,
  `MidBlockSaveLoses` a run that loses a log.
- **A handling that fails is not tried again.** When the node or the database fails while a polled
  log is handled, the poll goes on and moves the cursor past it; only a restart from below it may
  bring it back, out of order. `RecoveryIff` covers that too, and compares what the tables hold, not
  the order of event rows; `NoRestartIff` is what it says of a process that is not restarted.
- **An event stored without its update stays so.** When the process stops between the two, or the
  update fails, the event counts as handled from then on (`CrashLosesFill`); the book is
  nevertheless complete exactly when, for each Active order, the first update that did reach it and
  the first that should have lead to one status (`RecoveryIff`, last condition; `MissesIff` names
  the updates).
- **A saturated subscription loses logs.** A log that arrives while all 64 slots are taken is
  dropped, other handlers then move the cursor past it (`DroppedLogIsLost`, and `SaturationLoses`
  for a run from an empty state), although section 4.2 of the design offers polling as the
  fallback. It is recorded after all exactly when some poll read the cursor below its block and
  asked for a range that reaches it (`DroppedRecordedIff`).
- **Cursor safety depends on the depth.** The cursor stays confirmed through every run exactly
  when at most 100 confirmations are asked for (`AlwaysSafeIff`).
- **The limiter's idle timeout matters.** The window bound holds exactly when the burst refills
  within the five minutes after which an idle bucket is forgotten (`WindowBoundIff`).
- **Paging is exact only without ties at page boundaries.** Pages list every match once exactly
  when no two matches with one `created_at` stand on either side of a boundary
  (`PagesPartitionIff`); for every page size at once, when no two matches share a `created_at`
  (`AllSizesPartitionIff`).
- **A price that is not a number passes validation but is stored as zero** when the failed parse
  leaves a positive value behind (`JunkPriceStored`, `AdmittedNumbersIff`); the stored price is
  then no floor for a Dutch order whose start price is not a number (`JunkStartPriceStored`,
  `AdmittedFloorIff`).
- **The price formula overflows on long auctions.** It subtracts times in 64 bits. An auction of
  2^63 seconds or more, which a start time read as negative makes possible, leaves its line, its
  range and its direction unless the prices hide it (`FollowsLineIff`, `PriceWithinIff`,
  `PriceFallsIff`; `WrappedBelowFloor` is such an order). No admitted order is one
  (`AdmittedAuction`, `AdmittedCurve`).
- **A removed log often changes nothing.** Section 4.2 of the design
  (docs/superpowers/specs/2026-06-09-nft-market-backend-design.md, lines 250 to 253) says a removed
  log is marked and rolled back; the code returns early when the log's event is already recorded,
  and rolls back exactly when it is not (`RollbackIff`, `RemovedDelivery`). The model follows the
  code.
- **A rollback forgets the block it goes back to.** It deletes that block's events but polls from
  the next one; the book is unaffected (`ReorgResync`).
- **Counter cancellations are announced to nobody** (`UnnamedReachesNobody`), and blocked
  collections only to subscribers that spell the address as the checksummed text
  (`ChangesAnnounced`).
- **The best-order lookup ignores the side** when it scans for an order at the best price, although
  its API comment promises the best sell or buy order: `WrongSideAnswered` is a book of two admitted
  orders on which it answers a Sell lookup with the Buy order, `AnswerSideIff` says exactly when the
  side is right.
  About the price it keeps its promise (`AnswerIsCheapest`).

## Model

| member | source | states |
|---|---|---|
| OrderBook.ReplayAbsorbed | internal/repository/order.go:339-411 | updates that have all run before, in any order and number, change nothing |
| OrderBook.SameUpdatesSameActive | internal/repository/order.go:339-411 | which orders stay Active depends only on which updates ran, not on order or repetition |
| OrderBook.OrderIndependentIff | internal/repository/order.go:339-411 | every permutation of a batch gives the same book if and only if no Active row is wanted in two different final states |
| OrderBook.OneStatusAnyOrder | internal/repository/order.go:355-411 | updates leading to one status may be permuted and repeated freely |
| OrderBook.SameBookIff | internal/repository/order.go:339-411 | two runs of updates leave a table the same if and only if each of its Active rows is first hit with one status in both, or in neither |
| OrderBook.CountersCollapse | internal/repository/order.go:370-384 | several counter increments of one maker equal the single one with the largest counter |
| OrderBook.RunKeepsValid | migrations/001_initial.up.sql:30-65 | over every run, hashes are unique and (maker, salt) is unique among Active rows |
| OrderBook.RunDecidesPresent | internal/repository/order.go:339-411 | rows never disappear, only the status moves, and only as the first update that hits the row decides |
| OrderBook.FirstWins | internal/repository/order.go:154-212 | every row is some accepted insertion, with the status of the first later update that hits it |
| OrderBook.UpdateMoves | internal/repository/order.go:386-396 | an update moves exactly its affected rows from Active to its own status, and no other count changes |
| OrderBook.OrdersConserved | internal/repository/order.go:154-212 | in every run the four status counts add up to the accepted insertions |
| OrderRepo.OrderRepo.Insert | internal/repository/order.go:154-212 | appends the encoded row or refuses (decode error, NOT NULL, numeric or timestamp range, unique index) and changes nothing; keeps the indexes valid |
| OrderRepo.OrderRepo.UpdateStatus | internal/repository/order.go:339-353 | exactly the Active rows whose hash the text denotes take the status, no row with that hash stays Active, everything else is untouched; the indexes stay valid and then at most one row changes; malformed text is an error, empty text selects nothing |
| OrderRepo.OrderRepo.CancelByMakerSalt | internal/repository/order.go:355-368 | exactly the Active rows of the maker with the salt are cancelled and none stays Active; the indexes stay valid and then at most one row changes |
| OrderRepo.OrderRepo.CancelByMakerCounter | internal/repository/order.go:370-384 | exactly the Active rows of the maker with a counter strictly below are cancelled, so every Active row left to the maker has reached it; the indexes stay valid |
| OrderRepo.OrderRepo.CancelByCollection | internal/repository/order.go:398-411 | exactly the Active rows of the collection are cancelled and none stays Active; the indexes stay valid |
| OrderRepo.OrderRepo.ExpireOrders | internal/repository/order.go:386-396 | expires what is due and returns exactly the number of orders that went from Active to Expired |
| OrderRepo.OrderRepo.FindByHash | internal/repository/order.go:316-337 | an order with the hash if the table has one, nothing if it has none, an error for malformed text |
| OrderRepo.OrderRepo.GetMakerActiveCollections | internal/repository/order.go:469-493 | exactly the collections with an Active order of the maker, each once |
| OrderRepo.OrderRepo.Find | internal/repository/order.go:214-314 | the total is the number of matches when they are counted; the rows are the clamped slice, in listing order, of the matches when they are selected, after whatever was written between the two statements; the two last placeholders cut it |
| Query.Conditions | internal/repository/order.go:216-275 | for every combination of optional fields, the numbered conditions evaluated on the argument list are the filter; errors name the first malformed text |
| Query.RowMatchesOrder | internal/repository/order.go:154-275 | a stored order passes the filter if and only if the order it was made from meets it, hex texts compared without regard to case |
| Query.Appended | internal/repository/order.go:224-225 | appending an argument and the condition that carries its number adds exactly that comparison |
| Query.ExtraArgs | internal/repository/order.go:298-302 | the page bounds appended to the arguments do not disturb the conditions |
| Query.CompileField | internal/repository/order.go:219-270 | each field extends the compiled clause from the first k fields to the first k + 1 |
| Paging.ParsePage | internal/handler/order.go:326-338 | defaults, clamping to 50, and the wrapping 64-bit offset |
| Paging.ReportedPageIff | internal/handler/order.go:131-136 | the reported page is the effective requested page if and only if the offset fits 64 bits |
| Paging.PagesTile | internal/handler/order.go:326-338 | pages 1 to ceil(total/size) of one listing concatenate to exactly that listing |
| Paging.PagesPartitionIff | internal/repository/order.go:285-313 | with a fresh listing per request, all pages of one size together list each match exactly once if and only if no tie in created_at straddles a page boundary |
| Paging.AllSizesPartitionIff | internal/repository/order.go:285-313 | for every page size at once, if and only if no two matches share created_at |
| Codec.RowRoundTrip | internal/repository/order.go:91-212 | Insert then scanOrders gives back the order in lower-case 0x normal form, with every number and time intact |
| Codec.SecondTrip | internal/repository/order.go:30-42 | a second trip is the identity if and only if hash, maker and collection hold at least one byte |
| Codec.SplitJoin | internal/repository/order.go:67-89 | splitting a joined signature returns its parts |
| Codec.JoinSplit | internal/repository/order.go:67-89 | joining a split signature returns its lower-case 0x text |
| Hex.DecodeEncode | internal/repository/order.go:30-42 | decoding inverts encoding |
| Hex.EncodeDecode | internal/repository/order.go:30-42 | encoding inverts decoding up to letter case |
| Hex.DecodeIgnoresCase | internal/repository/order.go:30-35 | texts that differ only in letter case decode alike |
| Decimal.ParseText | internal/repository/order.go:44-65 | every integer survives its decimal text |
| Decimal.BigEndianInverse | internal/watcher/watcher.go:400-421 | a number below 256^n survives its n-byte big-endian word |
| Decimal.ToBigEndianInverse | internal/watcher/watcher.go:400-421 | a word is determined by its number, which is below 256^n |
| Pricing.PriceIsCeiling | internal/domain/order.go:197-210 | between the endpoints of an auction shorter than 2^63 seconds the price is the exact line rounded up to a unit |
| Pricing.FollowsLineIff | internal/domain/order.go:162-211 | for every Dutch order with its times in order, the price is that line at every time if and only if the length fits 63 bits or the prices are too close for the overflow to show |
| Pricing.PriceFallsIff | internal/domain/order.go:162-211 | for every Dutch order with its times in order, the price never rises with time if and only if the start price is at least the end price and no overflow shows |
| Pricing.PriceWithinIff | internal/domain/order.go:162-211 | for every Dutch order with its times in order, the price lies between end and start price at every time if and only if these are in order and no overflow shows |
| Pricing.WrappedBelowFloor | internal/domain/order.go:197-210 | a Dutch order with start time 2^63 whose price falls below zero |
| Pricing.AdmissionIff | internal/service/order.go:61-124 | Submit's casts and checks amount to the admission rules on the request's own numbers |
| Pricing.AdmittedNumbersIff | internal/service/order.go:82-97 | an admitted order has a positive price (an amount of at least 1) if and only if that text is a number |
| Offers.JunkPriceStored | internal/service/order.go:49-132 | a complete request whose price is no number is accepted into an empty table and its row has price zero |
| Pricing.AdmittedAuction | internal/service/order.go:99-124 | an admitted Dutch order's times convert to int64 without loss and in order |
| Pricing.AdmittedFloorIff | internal/service/order.go:92-124 | an admitted order with numeric price never costs less than that price, if and only if a Dutch start price is numeric too |
| Offers.JunkStartPriceStored | internal/service/order.go:49-132 | a complete Dutch request whose start price is no number is accepted, and the stored order costs less than its stored price when the auction begins |
| Pricing.AdmittedCurve | internal/domain/order.go:171-211 | range, monotonicity, both endpoints and rounding of every admitted Dutch order with numeric prices |
| Pricing.ExpiryAgrees | internal/domain/order.go:213-220 | the SQL expiry test and IsExpired agree on every stored row at every sub-second instant |
| BestPrice.Best | internal/repository/order.go:425-451 | the lowest (for Buy the highest) listed price, none if nothing is listed |
| BestPrice.FloorHolds | internal/repository/order.go:425-451 | in every reachable book of admitted orders the best Sell price is at most the current price of every listed Sell order, at every time |
| BestPrice.ExpiresExactly | internal/repository/order.go:386-396 | in every reachable book the expiry job turns exactly the Active orders for which IsExpired holds into Expired |
| OrderService.OrderService.Submit | internal/service/order.go:49-132 | stores exactly the validated order, or changes nothing and returns the code of the first failed check |
| OrderService.OrderService.GetBest | internal/service/order.go:144-169 | the first order of the newest page whose price at its own clock reading is the best price, if there is one, whatever is written between the three statements; nothing else is written |
| OrderService.FirstAtPrice | internal/service/order.go:163-168 | the scan stops at the first order at the best price |
| OrderService.AnswerIsCheapest | internal/service/order.go:144-169 | the answer to a Sell lookup is an Active order of the collection, and at the one instant it was compared none of the Sell orders listed when the best price was read is cheaper, with any writes between the statements |
| OrderService.AnswerSideIff | internal/service/order.go:155-168 | the answer has the requested side if and only if, on the newest page, an order of that side is at the best price and none of the other side before it is |
| Offers.WrongSideAnswered | internal/service/order.go:144-169 | a reachable book of two admitted orders, a Sell and a newer Buy one, on which the Sell lookup answers with the Buy order |
| Events.EventService.Handle | internal/service/event.go:40-174 | one guarded update on the book and exactly the pushes of the event with their payloads; on a decode or database error neither, and a target query that breaks off costs only pushes |
| Events.BatchOrderIrrelevant | internal/service/event.go:40-169 | batches of the same events in any order leave the same orders Active, and without fills the same book |
| Events.ChangesAnnounced | internal/service/event.go:70-169 | which changed orders are announced under their own collection, for each kind of event |
| Events.LogTargets | internal/watcher/watcher.go:365-443 | from ABI words through mixed-case and decimal text to the statement, a log targets exactly the rows with its bytes and numbers |
| Events.WordsFitNumeric | migrations/001_initial.up.sql:41-46 | every uint256 fits NUMERIC(78,0) |
| ChainSync.Watcher.Start | internal/watcher/watcher.go:83-98 | the initial cursor: the saved one, else 100 below the head, else 0 |
| ChainSync.Watcher.SaveCursor | internal/repository/event.go:86-98 | after a successful save a restart resumes exactly where the watcher stands, whatever the head, except that a saved zero counts as nothing saved; after a failed one as before |
| ChainSync.Watcher.WaitConfirmations | internal/watcher/watcher.go:348-363 | succeeds exactly when the node reaches the height before it fails |
| ChainSync.Watcher.HandleLog | internal/watcher/watcher.go:235-288 | the effect of one log on cursor, events and book, with the recorded, unconfirmed and removed cases, under every failure of lookup, wait, insertion, deletion and update |
| ChainSync.Watcher.Poll | internal/watcher/watcher.go:177-213 | the effect of a whole poll under every failure while its logs are handled, and none when the node fails |
| Chain.FetchIsSlice | internal/watcher/watcher.go:183-195 | a range query is a contiguous slice of the chain, so consecutive polls tile it |
| PollRuns.PollIsRun | internal/watcher/watcher.go:177-213 | the actions of a poll have the effect of the poll, whatever fails while its logs are handled |
| Recovery.RecoveryIff | internal/watcher/watcher.go:83-103 | once caught up, a watcher that crashed, restarted and failed any number of times holds what one uninterrupted pass would, if and only if every restart resumed with no unhandled log at or below the saved cursor, every failed log is handled by the end, and the first update that really reached each Active order has the status of the first in the pass |
| Recovery.EventsRecoverIff | internal/watcher/watcher.go:83-103 | no log of the range is left unhandled if and only if the first two conditions hold |
| Recovery.MissesIff | internal/watcher/watcher.go:274-279 | the applied updates decide an Active order as all the due ones would, unless the first due one was lost and the next applied one that hits is absent or has another status |
| Recovery.NoRestartIff | internal/watcher/watcher.go:202-210 | without restarts the caught-up tables are complete if and only if no handling failed before its event was stored and no order misses a lost update |
| PollOnly.PollOnlyRecovers | internal/watcher/watcher.go:150-288 | every run of the goroutines without a subscription, step by step with failures, saves and restarts, ends with the store of a run of the recovery machine, so the conditions of RecoveryIff are exact for it |
| PollRuns.SafeSaving | internal/watcher/watcher.go:215-233 | saving only between blocks leaves both tables row for row as one pass would, while no handling fails in whole or in part |
| PollRuns.MidBlockSaveLoses | internal/watcher/watcher.go:283-286 | a concrete run in which a save between two logs of a block loses the second |
| PollRuns.CrashLosesFill | internal/watcher/watcher.go:274-279 | a concrete run that stops between the insertion of a fill and its update and leaves the filled order Active |
| Reorg.ReorgResync | internal/watcher/watcher.go:245-272 | a removed log whose event is recorded changes nothing; otherwise, after the rollback and a poll, every fetched log is handled again, updates the book has seen change nothing, and the events of the block rolled back to are gone |
| Reorg.HistoryIsFree | internal/repository/event.go:128-138 | updates the book has seen may be dropped anywhere in a later run |
| Handlers.AlwaysSafe | internal/watcher/watcher.go:105-288 | through failures, duplicates, reorganisations and restarts: every cursor is zero or confirmed, event keys are unique, at most 64 subscription handlers run |
| Handlers.AlwaysSafeIff | internal/watcher/watcher.go:83-98 | every run is safe in that sense if and only if at most 100 confirmations are asked for |
| Handlers.PollArithmetic | internal/watcher/watcher.go:183-190 | no 64-bit addition of a poll wraps and its subtraction does not underflow |
| Handlers.ExactlyOnceEffect | internal/watcher/watcher.go:235-288 | for any interleaving with repeated deliveries, failures, removed logs and restarts the book is that of the first handling of each key in actual order; without those last three all keys are handled once all handlers are done |
| Deliveries.DroppedLogIsLost | internal/watcher/watcher.go:140-149 | a log dropped while all 64 slots are taken is never recorded once the others have moved the cursor past its block, whatever follows short of a redelivery, reorganisation or restart |
| Deliveries.SaturationLoses | internal/watcher/watcher.go:140-149 | such a run from an empty state: 64 logs fill the slots, the next is dropped, one handler finishes |
| Deliveries.DroppedRecordedIff | internal/watcher/watcher.go:140-213 | without failure, redelivery, reorganisation or restart, a dropped log ends up recorded if and only if some poll read the cursor below its block and asked for a range that reaches it |
| Handlers.RepeatsAbsorbed | internal/repository/event.go:24-43 | repeated handlings of a key leave no trace in the book |
| Handlers.UninterruptedHandler | internal/watcher/watcher.go:235-288 | a handler that nobody interrupts does what handleLog does |
| Deliveries.RemovedDelivery | internal/watcher/watcher.go:245-272 | a removed, confirmed delivery changes nothing when its key is recorded and rolls back otherwise |
| Deliveries.RollbackIff | internal/watcher/watcher.go:245-272 | in any interleaving, the handler of a removed log that runs to its end without failure rolls back if and only if its key was not recorded when it looked |
| RateLimit.Limiter.Handle | internal/middleware/ratelimit.go:38-73 | the in-place refill, cap and spend equal the specification step |
| RateLimit.Limiter.Collect | internal/middleware/ratelimit.go:25-36 | one collector pass drops exactly the entries idle for more than five minutes |
| RateLimit.RunSound | internal/middleware/ratelimit.go:16-73 | over every run tokens stay in [0, burst] and the table within its limit |
| RateLimit.CreditLater | internal/middleware/ratelimit.go:53-58 | refilling in two steps is refilling once, under the cap |
| RateLimit.WindowBoundIff | internal/middleware/ratelimit.go:20-73 | any window admits at most burst plus rate times its length, over all runs, if and only if burst is at most 300 times rate |
| RateLimit.RefinesIdeal | internal/middleware/ratelimit.go:24-36 | while nobody meets a full table, the limiter decides like one without collector and limit |
| RateLimit.DeniedAreFree | internal/middleware/ratelimit.go:53-69 | deleting denied requests from a run leaves every other verdict unchanged |
| Hub.Hub.Register | internal/ws/hub.go:125-134 | the client becomes live and the index stays exactly the subscriptions of the live clients |
| Hub.Hub.Unregister | internal/ws/hub.go:136-150 | the client leaves, its channel is closed, the index stays exact with no empty entry; otherwise a no-op |
| Hub.Hub.Broadcast | internal/ws/hub.go:155-178 | exactly the live subscribers get the message or, with a full buffer, are queued for removal |
| Hub.ChannelsCloseOnce | internal/ws/hub.go:122-153 | if each client registers at most once, each channel is closed at most once and exactly when its client has left |
| Hub.UnnamedReachesNobody | internal/handler/ws.go:22-35 | no client the handler makes hears a broadcast without a collection |

## Left out

- Hub.Hub.Broadcast: is one atomic step, although the code iterates after releasing its read lock, so a send racing with an unregister is not modelled.
- Hub.Hub.Register: a client is a value whose id stands for its pointer, so aliasing of connections is not modelled.
- RateLimit.Limiter.Handle: tokens and seconds are real numbers, so float64 rounding is not modelled; a bucket is a value in the table, not a pointer.
- Events.LogTargets: assumes topics laid out as the contract declares them; the index panic on a log with fewer topics is not modelled.
- ChainSync.Watcher.HandleLog: the removed flag of an event row is not a column of the model, because the rollback deletes the row it would mark.
- OrderService.OrderService.GetBest: does not promise that a listed order is always found, since only the newest twenty orders of both sides are scanned.
- Recovery.RecoveryIff: covers a watcher that only polls, with a non-zero cursor saved at the start, whose node answers range queries in full.
- Database errors that the code only hands to its caller (the queries of the repositories, Submit, GetBest) are not outcomes of the model.
- updated_at and serial ids are not columns of the model.
- JSON between the watcher and the event service is taken as lossless.
- EIP-712 hashing, ECDSA recovery and Keccak: hashes are opaque bytes, signature checking is a parameter of Submit.
- Sorting orders other than created_at, the order-list cache, user activity, statistics and GraphQL: no hard property.
- Login, CORS, request ids, access logs, metrics, health checks, configuration and metadata fetching.
