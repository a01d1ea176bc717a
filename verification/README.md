# Kalshi_Cpp in Dafny

A model, with proofs, of the parts of Kalshi_Cpp (a C++ trading client and the exchange simulator it
talks to) in which several pieces of state must stay in agreement. Check it with
`dafny verify dfyconfig.toml` (Dafny 4.11).

## What is modelled

**The exchange.** `MatchingEngine.dfy` is the simulator's price-time-priority engine in the form the
source has: a class over a pool of order nodes, 101 intrusive doubly linked lists per side with 32-bit
totals, a hash index from order id to node and two cached best prices, with its nested matching loop,
unlinking, resting and rescans. It runs on the classes of `Pool.dfy` (free list threaded through the
blocks) and `FlatHashMap.dfy` (Robin Hood hashing with backshift), and is proved against them.

The proof has three layers.

1. `PriceTime.dfy` and `PriceTimeRuns.dfy`: the reference. A book is a finite map from order id to
   quote; a trade takes the best-priced, earliest quote that crosses. What a caller is promised
   (determinism, priority, conservation, no crossed book) is proved here over whole runs.
2. `LevelBook.dfy`: what the code computes, as functions on queues per price level, with the totals
   taken modulo 2^32 and the bests following those totals. `BookRefinement.dfy` and `BookRuns.dfy`
   prove that every run of it is a run of the reference, exactly when it has price-time priority and
   exactly when the cached bests are right. `BookCrossing.dfy` proves exactly when the book stays
   uncrossed, `BookWrap.dfy` reads off the reference what 32-bit totals hide and holds the smallest
   runs that show it, and `BookMirror.dfy` proves the YES/NO symmetry of whole runs.
3. `OrderStore.dfy`, `StoreSteps.dfy`, `StoreMatching.dfy`, `StoreBook.dfy`, `MatchingEngine.dfy`: the node memory.
   The invariant `Store.Consistent` says that each level's list is acyclic with matching links, that
   the lists are disjoint, that the index maps exactly the resting ids to their nodes, that the live
   blocks are exactly the resting orders, and that each total is the 32-bit sum of its queue. Every
   method keeps it and leaves the engine in exactly the level book's state.

**The queue.** `SpscQueue.dfy` is the single-producer single-consumer ring as an interleaved machine:
each thread moves in the steps between which the other may run, indices are 64-bit and wrap, and the
cached indices may be stale.

**The client.** `FeedBook.dfy` (level sums and cached bests from a delta stream), `Strategy.dfy` (the
signal and the order manager, judged by an independent venue that receives the orders),
`Pipeline.dfy` (both composed over whole streams) and `Serialize.dfy` (the hand-written JSON printer).
What the printer writes is judged by `Json.dfy`, a reader of JSON objects that knows the grammar and
none of the printer's pieces.

**HTTP framing.** `HttpText.dfy`, `RestServer.dfy`, `RestClient.dfy` and `RestResponse.dfy`: the
request text, `parse_request` on whatever has arrived, the server's accumulate-and-parse loop, the
response text and the client's incremental reader. `Text.dfy` holds decimal numbers, `Machine.dfy`
64-bit arithmetic, `Options.dfy` an optional value.

## Properties the code does not have

Each of these is kept as the code has it; a lemma shows the failure or its exact condition.

- Totals are `uint32_t`. A best level whose orders add up to a multiple of 2^32 looks empty and is
  skipped: `BookWrap.HiddenLevelCrosses` loses priority and crosses a book with three orders. Three
  conditions say exactly what that costs. The bests are right over a run if and only if no best level
  is ever hidden so (`BookRuns.RunExactIff`). The answers are the price-time reference's if and only if
  every accepted placement finds no order inside its limit before the cached best it starts from
  (`BookRuns.RunFairIff`). The book stays uncrossed if and only if every accepted placement finds none
  or can be filled from that best on (`BookCrossing.RunApartIff`). Within the order handler's quantity
  limit nothing is ever hidden (`BookRuns.HandlerRunVisible`).
- A failed insertion into a full table loses a resident's entry, unless the table is immovable for
  the new key (`FlatHashMaps.FlatHashMap.Insert`, last clause). `RobinHood.FullTables` has a table of
  each kind.
- `Book::apply` leaves the cached best at a level driven negative (`FeedBooks.NegativeBestSticks`);
  `FeedBooks.RunExactIff` says exactly which deltas do no harm.
- A changed quantity at an unchanged price is never sent (`Strategies.ResizeIsIgnored`);
  `Strategies.RoundReflectsIff` is exact about it.
- `emit_u8` prints no number from 100 on (`Serializers.U8IsDecimalIff`, `Serializers.RoundTripIff`).
- The 256-byte guard of `serialize_action` protects the buffer if and only if the ticker has at most
  152 bytes (`Serializers.GuardSufficesIff`).
- `SPSCQueue::size()` loads its two indices one after the other. Called by a third thread it can be
  2^64-1 on a queue that is empty throughout (`SpscQueues.OutsideSizeWraps`); `SpscQueues.SizeForOthers`
  says exactly when it is a size.
- A body that is longer than its Content-Length says is taken for an unfinished request, like one that
  is shorter (`RestServers.WaitsIff`, `RestServers.LengthsDecide`).
- A header line without a colon is not refused by the server: its name and content are cut from the
  rest of the buffer (`RestServers.LateColon`, `RestServers.NoColonLeft`). The client refuses it
  (`RestResponses.LineWithoutColon`).
- A request body longer than an `int` holds makes `parse_request` throw
  (`RestClients.OnlyWholeRequestParses`).

Where the repository's documents and code disagree the code is followed: the hash map has no 70% load
limit, and the engine has no IOC, FOK or post-only orders.

## Model

| member | source | states |
|---|---|---|
| `MatchingEngines.MatchingEngine.constructor` | sim/domain/matching_engine.h:46-60 | a new engine is in the state of the empty history, with all its views in agreement |
| `MatchingEngines.MatchingEngine.PlaceLimit` | sim/domain/matching_engine.cpp:18-127 | whatever blocks the pool recycles and however ids hash, the engine keeps all views in agreement, reaches exactly the book that the operations so far lead to, and answers as that book does; it accepts if and only if the price is 1 to 99, the quantity positive and fewer than 2048 orders rest, then under the next id, and otherwise answers id 0, no fills, nothing resting, and leaves memory, lists, index, bests and id counter as they were |
| `MatchingEngines.MatchingEngine.CancelOrder` | sim/domain/matching_engine.cpp:129-161 | the same for cancelling: success exactly for the client's own resting order, which then leaves every view; a refusal changes nothing |
| `MatchingEngines.MatchingEngine.DepthAt` | sim/domain/matching_engine.cpp:166-170 | the stored total is the 32-bit sum of the level's queue; 0 outside prices 1 to 99 |
| `MatchingEngines.MatchingEngine.AnswersAsReference` | sim/domain/matching_engine.cpp:18-161 | over the engine's whole history, three equivalences: answers are the price-time reference's if and only if no accepted placement skipped an order; the book was never crossed if and only if each skipped none or could be filled; bests were exact if and only if no best level was hidden. Exact bests give the first, and the first gives the second |
| `MatchingEngines.MatchingEngine.PoolAndIndexAgree` | sim/domain/matching_engine.h:48-53 | live blocks, index entries and resting orders are equally many, at most 2048 of 4096 index slots, so the unchecked index insertion cannot fail; every live block holds an order with quantity left |
| `MatchingEngines.MatchingEngine.MatchOnce` | sim/domain/matching_engine.cpp:63-91 | one turn of the inner loop does the next step of matching the level's queue and keeps the views in agreement |
| `MatchingEngines.MatchingEngine.SweepWall` | sim/domain/matching_engine.cpp:59-94 | the outer loop produces the fills, wall and remainder of sweeping the levels from the best one |
| `MatchingEngines.MatchingEngine.RescanBests` | sim/domain/matching_engine.cpp:122-123 | both rescans stop where the totals of the book say |
| `MatchingEngines.MatchingEngine.RestHeld` | sim/domain/matching_engine.cpp:96-115 | the remainder joins the tail of its level, the index and the best price |
| `MatchingEngines.MatchingEngine.Unlink` | sim/domain/matching_engine.cpp:75-86 | unlinking a node patches exactly its neighbours or the level's ends |
| `StoreSteps.RemovedConsistent` | sim/domain/matching_engine.cpp:74-89 | removing a node from lists, index and pool keeps lists acyclic, doubly linked and disjoint, and the index and live set exact |
| `StoreSteps.RestedConsistent` | sim/domain/matching_engine.cpp:100-109 | appending a node keeps the same agreement |
| `StoreMatching.ConsumedConsistent` | sim/domain/matching_engine.cpp:64-90 | one trade, with removal of a used-up maker, keeps the same agreement |
| `BookRefinement.MatchLevelTrades` | sim/domain/matching_engine.cpp:62-91 | matching one queue is a sequence of reference trades with the best candidates |
| `BookRefinement.SweepTrades` | sim/domain/matching_engine.cpp:59-94 | sweeping the wall from where nothing better inside the limit rests is matching in the reference, until the order is filled or nothing crosses |
| `BookRefinement.PlaceRefines` | sim/domain/matching_engine.cpp:18-127 | placing does what the reference demands of placing, and with price-time priority if it skips no order |
| `BookRefinement.PlaceFairIff` | sim/domain/matching_engine.cpp:32-94 | an acceptable placement answers as the price-time reference if and only if no order inside its limit rests before the cached best it starts from, which can be read before the call |
| `BookRefinement.CancelRefines` | sim/domain/matching_engine.cpp:129-161 | cancelling does what the reference demands of cancelling |
| `BookRuns.RunRefines` | sim/domain/matching_engine.cpp:18-161 | every run is a run of the reference with the same replies, and with price-time priority if every operation is fair |
| `BookRuns.PlaceAnswers` | sim/domain/matching_engine.cpp:18-45 | an order is accepted if and only if the price is 1 to 99, the quantity positive and fewer than 2048 orders rest; a refusal answers id 0, no fills and nothing resting, and leaves the book alone |
| `BookRuns.RunIds` | sim/domain/matching_engine.cpp:24-45 | over every run the ids of accepted placements count up, so no two share one, and no refusal carries the id of an accepted placement |
| `BookRuns.RunFairIff` | sim/domain/matching_engine.cpp:18-161 | a run answers as the price-time reference throughout if and only if every accepted placement finds no order inside its limit before the cached best it starts from |
| `BookRuns.VisibleIsFair` | sim/domain/matching_engine.cpp:111-123 | as long as no best level is hidden by wrap-around, every operation is fair |
| `BookWrap.StepExactIff` | sim/domain/matching_engine.cpp:111-123 | from an exact book an operation leaves the bests exact if and only if the reference's next quotes, fixed before the call, put no multiple of 2^32 at a best price |
| `BookRuns.RunExactIff` | sim/domain/matching_engine.cpp:111-123 | over every run, bests always exact if and only if no best level ever sums to a multiple of 2^32 |
| `BookRuns.HandlerRunVisible` | sim/http/handlers.cpp:65-66 | with quantities of at most 1,000,000 no total ever wraps and every level's total is its true sum |
| `BookCrossing.PlaceApartIff` | sim/domain/matching_engine.cpp:59-120 | a placement leaves an uncrossed book uncrossed if and only if it can be filled from the cached best on, or skips no order |
| `BookCrossing.RunApartIff` | sim/domain/matching_engine.cpp:59-120 | a run never crosses the book if and only if every accepted placement meets that condition |
| `BookCrossing.FairIsApart` | sim/domain/matching_engine.cpp:59-120 | a fair run never crosses the book |
| `BookCrossing.SweepLeft` | sim/domain/matching_engine.cpp:59-94 | what the sweep leaves is exactly what the crossing levels from its start on cannot supply |
| `BookRuns.RunAccounts` | sim/domain/matching_engine.cpp:64-120 | for every order over every run: submitted = filled as maker and taker + still resting + withdrawn by cancel |
| `BookWrap.HiddenLevelCrosses` | sim/domain/matching_engine.cpp:109-123 | two bids of 2^31 at one price hide each other, and an ask then rests crossed with them |
| `BookWrap.HiddenYetFair` | sim/domain/matching_engine.cpp:109-123 | those two bids alone are a fair run with a hidden level, so visibility is not the condition for priority |
| `BookMirror.SweepMirror` | sim/domain/matching_engine.cpp:32-42 | the upward and the downward sweep are reflections of each other |
| `BookMirror.RunMirror` | sim/domain/matching_engine.cpp:32-123 | swapping sides and reflecting prices p to 100-p commutes with every run: states, bests and replies are reflected |
| `PriceTime.TradesDeterministic` | sim/domain/matching_engine.cpp:60-94 | the reference leaves no choice: fills, remaining book and remainder are determined |
| `PriceTime.TradesSorted` | sim/domain/matching_engine.cpp:60-94 | fills come best price first, then by strictly increasing maker id |
| `PriceTime.TradesAreQuotes` | sim/domain/matching_engine.cpp:64-73 | each fill is at the maker's price within the taker's limit, and every maker but the last is used up |
| `PriceTime.TradesSkipNobody` | sim/domain/matching_engine.cpp:60-94 | no better-priced or earlier order is left behind a filled one |
| `PriceTime.TradesConserve` | sim/domain/matching_engine.cpp:64-73 | one placement conserves the quantity of the taker and of every maker |
| `PriceTimeRuns.RunDeterministic` | sim/domain/matching_engine.cpp:18-161 | two reference runs over the same operations pass the same states and give the same replies |
| `PriceTimeRuns.RunUncrossed` | sim/domain/matching_engine.cpp:96-120 | the reference book is uncrossed in every state of every run |
| `PriceTimeRuns.RunConserves` | sim/domain/matching_engine.cpp:64-154 | conservation of every order's quantity over every reference run |
| `PriceTimeRuns.RunInPriority` | sim/domain/matching_engine.cpp:60-120 | for every accepted placement of every run: sorted fills inside the limit, nobody skipped, and a remainder only if nothing crosses |
| `FlatHashMaps.FlatHashMap.constructor` | src/core/flat_hash_map.h:35-52 | a new table is the empty map |
| `FlatHashMaps.FlatHashMap.Insert` | src/core/flat_hash_map.h:60-82 | for any hash: binds the key if present (in place, even when full) or a slot is free; on a full table without the key it fails, keeps the ordering invariant and loses exactly one entry, the new one if and only if the table is immovable for it |
| `FlatHashMaps.FlatHashMap.Find` | src/core/flat_hash_map.h:84-93 | finds a key exactly if it is in the map, and then its value |
| `FlatHashMaps.FlatHashMap.Erase` | src/core/flat_hash_map.h:95-115 | removes exactly that key, keeps the circular ordering, and terminates on every table |
| `FlatHashMaps.FlatHashMap.Probe` | src/core/flat_hash_map.h:63-76 | the displacement loop keeps the ordering, and stops at a slot for what it carries or after a full turn |
| `RobinHood.Missing` | src/core/flat_hash_map.h:87-91 | an empty slot or a full turn on the probe path proves the key absent |
| `RobinHood.InsertingSwap` | src/core/flat_hash_map.h:68-75 | displacing a resident that is nearer to its home keeps the circular ordering and the entries |
| `RobinHood.InsertingFail` | src/core/flat_hash_map.h:67 | a full turn happens only on a full table without the key, and what is then lost |
| `RobinHood.FullTables` | src/core/flat_hash_map.h:66-76 | under the identity hash, a full ordered table on which a failing insertion ousts a resident, and one on which it does not |
| `RobinHood.HoleMove` | src/core/flat_hash_map.h:107-113 | shifting an entry back into the hole keeps the ordering around the new hole |
| `RobinHood.HoleMoveShortens` | src/core/flat_hash_map.h:107-113 | each shift makes the sum of probe distances smaller |
| `RobinHood.ProbeDistanceIsDist` | src/core/flat_hash_map.h:132-134 | the masked 64-bit difference is the distance on the ring, across wrap-around |
| `Pools.Pool.constructor` | src/core/pool_alloc.h:27-48 | threads all blocks into one acyclic free list |
| `Pools.Pool.Allocate` | src/core/pool_alloc.h:54-59 | hands out a block that is not live; null exactly when all are live |
| `Pools.Pool.Deallocate` | src/core/pool_alloc.h:61-64 | takes a live block back, touching no other block |
| `Pools.Pool.Write` | src/core/pool_alloc.h:54-59 | a write into a live block disturbs neither the free list nor other blocks |
| `Pools.Pool.Full` | src/core/pool_alloc.h:66 | full exactly when every block is live |
| `Pools.Pool.Partition` | src/core/pool_alloc.h:40-66 | free list and live set partition the capacity |
| `SpscQueues.RunKeeps` | src/core/spsc_queue.h:35-103 | in every interleaving: indices are the wrapped counts, cached indices never run ahead of the real ones, the slots between hold the pushed items, and each thread's local knowledge is sound |
| `SpscQueues.SizeForOwner` | src/core/spsc_queue.h:105-108 | called by either owning thread, size() is the true size, within 0 and Capacity, at the moment it loads the other's index, in either order of the loads |
| `SpscQueues.SizeForOthers` | src/core/spsc_queue.h:105-108 | called by a third thread it is within the capacity if and only if the items popped, or pushed, between the loads allow it |
| `SpscQueues.OutsideSizeWraps` | src/core/spsc_queue.h:105-108 | one push and one pop between the loads make it 2^64-1 |
| `SpscQueues.RunIsFifo` | src/core/spsc_queue.h:35-82 | in every interleaving, popped items followed by what the shared fields show are exactly the pushed items in order, at most Capacity of them queued, across 64-bit wrap |
| `SpscQueues.RunSeparates` | src/core/spsc_queue.h:42-103 | the slot being written is never one the consumer is reading or holds a pointer to, and that pointer shows the oldest item |
| `SpscQueues.RefusalsAreHonest` | src/core/spsc_queue.h:37-103 | in every reachable state and for every step: a call that ends without publishing does so at its reload and finds the queue full, or empty, at that moment; a reload that finds otherwise goes on; front() has no pointer to give exactly when the queue is empty |
| `SpscQueues.CopiesSpareLoads` | src/core/spsc_queue.h:37-92 | the other thread's index is loaded exactly when the copy kept of it leaves no room, or no item, and is copied by exactly that load, whether or not the call then gives up |
| `SpscQueues.PushAlone` | src/core/spsc_queue.h:35-45 | from every reachable state, a push that runs alone appends its item if there is room and changes nothing in the queue otherwise |
| `SpscQueues.TakeAlone` | src/core/spsc_queue.h:72-103 | a pop that runs alone removes the oldest item if there is one; front() points at its slot, or at nothing, and removes none |
| `SpscQueues.StepsAreAtomic` | src/core/spsc_queue.h:43-102 | the queue seen from outside changes only at the publishing stores: one appends the item, one removes the oldest |
| `SpscQueues.SlotIs` | src/core/spsc_queue.h:26 | masking a wrapped index gives the slot of the unbounded count, as the capacity divides 2^64 |
| `FeedBooks.AddDelta` | src/feed/book.cpp:10-15 | the in-place update and downward loop compute the specified ladder |
| `FeedBooks.Book.constructor` | src/feed/book.h:10-13 | a new book is the ladder of the empty stream on both sides |
| `FeedBooks.Book.Apply` | src/feed/book.cpp:5-17 | after each delta both sides are exactly the ladders of the stream so far |
| `FeedBooks.Book.Best` | src/feed/book.h:18-24 | the cached best; for harmless deltas, so for all running sums within 0 and INT32_MAX, the highest price with a positive sum, or 0 |
| `FeedBooks.Book.QtyAt` | src/feed/book.h:26-29 | the sum of the deltas at that price |
| `FeedBooks.LevelsAreSums` | src/feed/book.cpp:10 | levels are the per-price sums of the stream |
| `FeedBooks.ApplyTopIff` | src/feed/book.cpp:11-15 | a delta leaves an exact best exact if and only if it neither drives the best level negative nor empties it above a negative one |
| `FeedBooks.RunExactIff` | src/feed/book.cpp:5-17 | a stream keeps the book exact throughout if and only if every delta of it is harmless in that sense |
| `FeedBooks.SensibleIsExact` | src/feed/book.cpp:5-17 | every stream with running sums within 0 and INT32_MAX keeps levels and best exact throughout |
| `FeedBooks.NegativeBestSticks` | src/feed/book.cpp:13-14 | a best level driven to -2 stays the cached best |
| `FeedBooks.ReorderingsAgree` | src/feed/book.cpp:5-17 | two streams with the same deltas, both exact at their ends, leave the same book |
| `Strategies.QuoteIsSafe` | src/strategy/signal.cpp:5-20 | a quote is made exactly when both sides are bid and one more on each costs at most 99 together; it betters both bids and crosses neither |
| `Strategies.RoundIsProper` | src/strategy/order_manager.cpp:5-64 | with every action acknowledged: at most four actions, each CANCEL names the one live order of its side, each PLACE opens an empty side under the next id, and manager and venue stay agreed |
| `Strategies.YesFirst` | src/strategy/order_manager.cpp:34-51 | every action of the yes side comes before every action of the no side |
| `Strategies.RoundReflectsIff` | src/strategy/order_manager.cpp:21-30 | afterwards the venue shows the target's prices, and its quantities too if and only if no open order was wanted at its own price in another quantity |
| `Strategies.RoundIsStable` | src/strategy/order_manager.cpp:34-51 | reconciling the same target again sends nothing |
| `Strategies.ResizeIsIgnored` | src/strategy/order_manager.cpp:21-22 | a live 10 wanted as 20 at the same price stays 10 |
| `Strategies.RunIsProper` | src/strategy/order_manager.cpp:5-64 | over every run of targets everything sent is proper, ids count up from 1 without a gap, and the venue holds exactly the orders the manager believes in |
| `Strategies.OrderManager.constructor` | src/strategy/order_manager.h:36-38 | nothing open, next id 1 |
| `Strategies.OrderManager.ReconcileHelper` | src/strategy/order_manager.cpp:5-32 | appends the actions of one side, at most two, and moves the id counter with them |
| `Strategies.OrderManager.Reconcile` | src/strategy/order_manager.cpp:34-51 | the bundle is YES then NO and never exceeds its four places |
| `Strategies.OrderManager.OnPlaceSent` | src/strategy/order_manager.cpp:53-59 | the side of the action becomes that order, the other side is untouched |
| `Strategies.OrderManager.OnCancelSent` | src/strategy/order_manager.cpp:61-64 | the side of the action becomes closed, the other side is untouched |
| `Pipelines.OnDelta` | src/strategy/order_manager.cpp:34-64 | one delta through book, signal and manager, with acknowledgement, advances all of them along the run of the stream |
| `Pipelines.VenueFollowsBests` | src/strategy/signal.cpp:5-20 | after every delta stream whatsoever the venue shows exactly the target of the cached bests, and everything sent on the way was proper |
| `Pipelines.VenueQuotesBook` | src/strategy/signal.cpp:5-20 | whenever the book is exact at the end of a stream: the venue holds ten a cent above each side's highest positive level if those cost at most 99 together, and nothing otherwise |
| `Pipelines.SentArePriced` | src/strategy/signal.cpp:13-18 | every order ever sent is for ten, at 2 to 98 |
| `Pipelines.SentIsReadable` | src/net/serialize.cpp:9-65 | every order ever sent prints within 256 bytes and decodes to itself, for every plain ticker the feed parser lets through |
| `Serializers.SerializeAction` | src/net/serialize.cpp:9-65 | 0 below 256 bytes of capacity; otherwise the memory from the buffer on starts with exactly the text, even past the capacity, and nothing behind it is written |
| `Serializers.GuardSufficesIff` | src/net/serialize.cpp:16 | 256 bytes hold every action of a ticker if and only if the ticker has at most 152 |
| `Serializers.EmitU64` | src/net/serialize.cpp:25-34 | the two digit loops write the decimal digits, most significant first |
| `Serializers.EmitU8` | src/net/serialize.cpp:36-39 | writes its one or two characters and nothing else |
| `Serializers.PlaceFields` | src/net/serialize.cpp:41-54 | in the text of a placement a JSON reader finds six members, by name: action "place", ticker, side "yes" or "no", and price, qty and client_id as their decimal digits |
| `Serializers.CancelFields` | src/net/serialize.cpp:57-63 | in that of a cancellation three: action "cancel", ticker and client_id |
| `Serializers.TextIsObject` | src/net/serialize.cpp:41-63 | every text, whatever the ticker and price, is exactly the text of the object with these members |
| `Serializers.PriceTooLong` | src/net/serialize.cpp:36-51 | from price 100 on the text is no JSON object |
| `Serializers.RoundTripIff` | src/net/serialize.cpp:41-63 | looking the members up by name recovers every field if and only if the ticker has no quote or backslash and a placement's price is at most 99 |
| `Jsons.ObjectReadsBack` | src/net/serialize.cpp:41-63 | an object of plain strings and numbers, printed, reads back as its members |
| `Serializers.U8IsDecimalIff` | src/net/serialize.cpp:36-39 | a decimal number, and the right one, if and only if the value is at most 99 |
| `Serializers.TextFits` | src/net/serialize.cpp:41-63 | at most 104 bytes and the ticker, so 256 suffice for tickers of up to 31 |
| `Serializers.LongestText` | src/net/serialize.cpp:41-63 | the bound is attained |
| `Texts.DigitsAreNumber` | src/net/serialize.cpp:25-34 | the digits stand for the number and have no leading zero |
| `HttpTexts.StoiOfString` | sim/http/rest_server.cpp:45-77 | reading a printed number gives it back, or throws exactly outside int |
| `HttpTexts.StoiReads` | sim/http/rest_server.cpp:45 | leading white space is skipped, one sign taken, digits read as far as they go, other text behind them let be; no digit, or a value beyond int, throws |
| `HttpTexts.FirstBlank` | sim/http/rest_server.cpp:18-20 | the first blank line of a message with clean lines is the one that ends its headers |
| `RestServers.ParseRequest` | sim/http/rest_server.cpp:14-55 | the loop computes the specified outcome on every buffer, malformed ones and wrapped positions included |
| `RestServers.ParseMessage` | sim/http/rest_server.cpp:29-53 | a message with clean headers parses into exactly its header list and body, as Content-Length judges it |
| `RestServers.LengthsDecide` | sim/http/rest_server.cpp:44-49 | such a message is a request if and only if every "Content-Length" line says the body's length; otherwise the first that does not decides: the server waits, or throws if what it says is no number |
| `RestServers.WaitsIff` | sim/http/rest_server.cpp:44-49 | with one "Content-Length" line that holds an int, the server waits if and only if it is not the length of the body there, be that too short or too long |
| `RestServers.LastWins` | sim/http/rest_server.cpp:41 | of several lines of one name the last gives the header |
| `RestServers.TableNames` | sim/http/rest_server.cpp:41 | the headers have exactly the names of the lines |
| `RestServers.OddRequestLine` | sim/http/rest_server.cpp:22-27 | without a space the whole buffer is both method and path; with one only, the path is all that follows it |
| `RestServers.NoColonLeft` | sim/http/rest_server.cpp:36-39 | with no colon and space left, a line's name is the rest of the buffer and its content the buffer from its second byte to the line's end |
| `RestServers.LateColon` | sim/http/rest_server.cpp:36-39 | with the next colon and space behind the line's end, the name runs on to them and the content to the end of the buffer |
| `RestServers.Connection.OnRead` | sim/http/rest_server.cpp:185-186 | appends one read and parses all that has arrived |
| `RestServers.Connection.OnReadable` | sim/http/rest_server.cpp:178-208 | stops at the first read after which a request is complete, and not before |
| `RestClients.BuildRequest` | src/net/rest_client.cpp:68-76 | appending piece by piece gives the request line, headers and body as one message, which is stated byte for byte, with and without a body |
| `RestClients.OnlyWholeRequestParses` | sim/http/rest_server.cpp:14-55 | of all prefixes of a client's request only the whole parses, and yields its method, path, headers and body; a body beyond int throws |
| `RestClients.RequestTable` | src/net/rest_client.cpp:69-74 | the headers the server ends up with: Host and Connection, and with a body Content-Type and Content-Length, with their values |
| `RestClients.RequestSurvivesSplitting` | sim/http/rest_server.cpp:182-194 | however a request is cut into reads, the server waits until the last and then has it |
| `RestResponses.SearchGoesOn` | src/net/rest_client.cpp:110 | searching from three bytes before the new ones finds what a full search finds |
| `RestResponses.RecvHead` | src/net/rest_client.cpp:101-117 | the reading loop splits at the first blank line of what has arrived |
| `RestResponses.NextHeader` | src/net/rest_client.cpp:140-155 | one turn of the header loop finds the next line of the list, its end, or a format error |
| `RestResponses.RecvHeaders` | src/net/rest_client.cpp:139-157 | the header loop cuts every line at its first colon and space, keeps the first of equal names, and reports format errors |
| `RestResponses.FirstWins` | src/net/rest_client.cpp:156 | of several lines of one name the first gives the header |
| `RestResponses.FirstTableNames` | src/net/rest_client.cpp:156 | the headers have exactly the names of the lines |
| `RestResponses.LineWithoutColon` | src/net/rest_client.cpp:149-153 | a header line without a colon is a format error |
| `RestResponses.RecvStatus` | src/net/rest_client.cpp:122-157 | reads status and headers as specified, errors included |
| `RestResponses.RecvResponse` | src/net/rest_client.cpp:94-174 | the answer depends on the bytes received alone, not on how they were cut into reads |
| `RestResponses.BuildResponse` | sim/http/rest_server.cpp:72-84 | appending piece by piece gives the status line, headers and body as one message |
| `RestResponses.ResponseInFull` | sim/http/rest_server.cpp:57-84 | that message byte for byte, with the reason phrase of every status |
| `RestResponses.FirstLines` | sim/http/rest_server.cpp:57-74 | its first line in full for 200, 400, 404 and 500, and "Unknown Status" for every other status |
| `RestResponses.ResponseRoundTrip` | sim/http/rest_server.cpp:72-84 | for every int status and every body the client's reading inverts the server's text: the status, the three headers with their values, and the body |
| `RestResponses.ResponseTable` | sim/http/rest_server.cpp:76-78 | the headers the client ends up with: Content-Type, Content-Length and Connection, with their values |

## Left out

- Sockets, epoll, the reactor, accept/read/write errors and timeouts: only the bytes are modelled, one request per connection.
- JSON parsing by simdjson in the feed parser and the order handler: their range checks appear as types and as the limit in `BookRuns.HandlerOps`.
- Clocks: a fill's timestamp is a parameter of the placement.
- Memory orders of the queue: the interleavings are sequentially consistent, so what release and acquire must provide is taken as given. Object lifetime, moves and placement new are not modelled; the three push calls share one machine.
- The mixing function of the hash map: every result holds for an arbitrary hash.
- Arena (src/core/arena_alloc.h): an aligned bump pointer that nothing modelled here uses.
- Market registry and routes (sim/domain/market_registry.cpp, dispatch in sim/http/rest_server.cpp): lookups in a map of strings; the engine's results hold for each engine in it.
- Account book, rate limiter, authentication of requests, scenarios, exchange service, WebSocket server and client: their files are empty, or for src/net/auth.h and sim/ws/ws_server.h hold no working body.
- Cycle clock and thread tuning (src/core/clock.h, src/system/tuning.cpp): hardware timers and scheduler calls.
- Benches, experiments and plots: they measure; their loops do not acknowledge the actions they print, so they are not the order manager's protocol.
- Failing mmap, and destructors.
- MatchingEngines.MatchingEngine.PlaceLimit: requires the next order id to be below 2^64-1, the index's empty-slot marker; the source does not guard against reaching it.
- MatchingEngines.MatchingEngine.CancelOrder: requires an id other than 2^64-1, for the same reason.
- MatchingEngines.MatchingEngine.Unlink: one method for the two unlinking sites, which assign the same four cells in a different order.
- FlatHashMaps.FlatHashMap.Insert: requires a key other than the empty-slot marker; so do Find and Erase.
- FeedBooks.Book.Apply: requires that the 32-bit sum does not overflow, which C++ leaves undefined.
- Strategies.RunIsProper: for runs shorter than 2^63 rounds, before the 64-bit ids wrap; actions are acknowledged in order, unacknowledged ones are not modelled.
- Serializers.SerializeAction: requires memory, though not capacity, for the text; what a write past the caller's buffer hits is not modelled. A ticker is a string without its terminating NUL.
- Serializers.RoundTripIff: the reader knows flat objects of strings without escapes and unsigned integers, without white space, which is all that the printer writes.
- RestClients.OnlyWholeRequestParses: the parts of the request hold no carriage return, and method and path no space; the client does not check this.
- RestResponses.RecvStatus: a status line without two spaces, on which the source reads past the end of its string, is the outcome Undefined.
- SpscQueues.SizeForOthers: for fewer than 2^64 minus Capacity steps between the two loads, beyond which the counts may come round again.
- RestServers.Connection.OnReadable: a connection that ends before a request is complete is simply not continued.
