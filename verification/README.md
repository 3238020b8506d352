# The card economy, verified

PokeDrop lets users open card packs, hold cards, and trade cards and coins. This project models
the part of its API that decides who owns what, and proves what that part promises:

- **Escrow and settlement.** A trade locks what its initiator offers; every way out of PENDING
  releases that lock or consumes it; an accepted trade can be voided by running the swap backwards.
- **Every writer of coins and cards.** Pack opens, trades, admin grants, welcome grants.
- **The price sweep.** A wrapping keyset cursor over the catalogue, kept between runs.
- **The pack generator and its random stream**, **the rate limit script**, and **the keyset
  pagination** of the inventory list.

## How it is built

`Database.dfy` has one function per transaction, from the committed tables to the new tables or to
the failure that rolls it back. The service modules (`InventoryService`, `TradeService`,
`BulkVoid`, `EconomyService`) are the source's methods, statement by statement, on a transaction
client (`Store.Tx`); each is proved to do exactly what the function says, to leave the tables alone
when it fails, and to lock a prefix of its row-lock plan. `System.dfy` interleaves them: a trade
request holds a row read earlier, however stale, so a run is any interleaving of any number of
requests. `Invariants.dfy` is the invariant and its preservation by every transaction; the theorem
modules (`EscrowTheorems`, `TradeTheorems`, `Outcomes`, `Refusals`, `Expiry` with `Trail`,
`PackOpening`, `Deadlock`) draw the conclusions; `Requests` puts the checks a proposal or a counter
makes before its transaction in front of it. `Sweep` (one attempt), `SweepHistory` (the table of runs), `Rng`, `Generator`,
`Throttle` and `Pagination` stand beside them; `Sorting` and `Cycles` hold the orders and the
cycle arithmetic they share.

Ids are compared by the program only in byte order (the database cluster uses the C collation), so
an id is a natural number, its rank in that order. A trade's id is its place in the trades table, the
order of creation.

Three things the proofs showed about the code as it is:

- **A sweep run whose row has no cursor does not continue the cycle.** A null cursor reads as the
  start of the catalogue, both for the next run after one that closed before its first recorded
  batch and for a retry of a run that recorded none. `SweepHistory.ContinuesIff` gives the exact
  condition, and `SweepHistory.NullCursorAsksAgain` performs such a run from any start inside the
  catalogue: it closes FAILED with no cursor, and the next run begins at the first card again. The
  comment at `apps/api/src/sync/price-sweep.processor.ts:107-109` says the sweep is full in aggregate.
- **The limit alone does not bound a stretch as long as the window.** Such a stretch admits up to
  `2 * limit - 1` requests (`Throttle.IntervalBound`). With blocks at least a window long, no stretch
  ever admits more than `limit` if and only if the limit is at most one or the window at most one
  millisecond (`Throttle.NeverAboveIff`).
- **The offered side of an accept is never in question.** An accept is refused only for its role, a
  closed trade, the net payer's coins or the requested copies (`Outcomes.AcceptIff`).

Run `dafny verify dfyconfig.toml` in this directory.

## Model

| member | source | states |
|---|---|---|
| EscrowTheorems.EscrowExact | docs/DataModel.md:146 | Over every run with any number of stale reads, each (user, card) has locked equal to the OFFERED quantities of that user's PENDING trades, and 0 <= locked <= quantity; no row is left at zero. |
| EscrowTheorems.NoInternalError | apps/api/src/inventory/inventory.service.ts:143-163 | In a reachable state no trade request ends in "Escrow invariant broken", a malformed change or move list, or a unique or foreign key violation. |
| EscrowTheorems.LockedForSettlement | apps/api/src/inventory/inventory.service.ts:183-215 | When an accept settles a PENDING trade, every copy given from the lock is there, locked. |
| EscrowTheorems.UnreconciledIff | apps/api/src/trades/trade-expiry.service.ts:114-127 | The reconciliation query counts no row exactly when the lock invariant holds for every (user, card), also for pairs with no row. |
| EscrowTheorems.LedgerExact | docs/DataModel.md:285-287 | Over every run a user's coins equal the sum of their ledger rows and are not negative, trades and reversals move no net coins, and no ledger key repeats. |
| EscrowTheorems.SupplyExact | apps/api/src/packs/pack-opening.service.ts:153-184 | Over every run the copies of a card over all users are the copies ever drawn from packs. |
| System.CommitKeeps | apps/api/src/trades/trades.service.ts:59-307 | Every transaction that commits, from whatever stale row, keeps the whole invariant: trades, chains, escrow, books, keys, supply. |
| System.RunKeeps | apps/api/src/trades/trade-close.service.ts:42-75 | The invariant, every read row's agreement with its trade, and one-way statuses hold along every run. |
| System.FreshRequest | apps/api/src/trades/trades.service.ts:59-307 | No request is ignored: one that reads its row and commits at once does to the tables what its transaction says of them as they stand. |
| Outcomes.AcceptIff | apps/api/src/trades/trades.service.ts:118-138 | An accept commits exactly when the recipient asks, the trade is PENDING, the net payer has the coins and the recipient the requested copies free. |
| Outcomes.AcceptEffect | apps/api/src/trades/trade-settlement.service.ts:13-59 | It then swaps cards and coins between the two parties, books the two ledger rows of the net transfer, consumes the escrow, and touches no other row. |
| Outcomes.ProposeIff | apps/api/src/trades/trades.service.ts:59-98 | Past the checks before its transaction, a proposal commits exactly when its terms are valid, both users exist and the offered copies are free; it then appends the PENDING trade with those terms and locks the offer, nothing else. |
| Outcomes.CounterIff | apps/api/src/trades/trades.service.ts:140-205 | Past the checks before its transaction, a counter commits exactly when the recipient sends it in time, its terms are valid, the chain is short of its limit and the new offer is free, in whichever order lock and release run. |
| Outcomes.CounterEffect | apps/api/src/trades/trades.service.ts:140-205 | It closes the original as COUNTERED, frees the original's lock, locks the new offer and appends the reply with the roles swapped. |
| Outcomes.OpenIff | apps/api/src/packs/pack-opening.service.ts:118-187 | A pack open commits exactly when its openId is new, the user exists with the price, and the pack is not empty; it takes the price and adds one copy per stored card. |
| Outcomes.FinishIff | apps/api/src/trades/trades.service.ts:100-116 | Only the recipient declines and only the initiator cancels, exactly while the trade is PENDING; its new status, its escrow freed, nothing else touched. |
| Outcomes.VoidPendingIff | apps/api/src/trades/trades.service.ts:248-273 | A void of a trade read as anything but ACCEPTED, and an expiry, close it exactly when it is still PENDING, freeing exactly its escrow. |
| Outcomes.VoidAllEffect | apps/api/src/trades/trade-close.service.ts:84-134 | The bulk void always commits, voids every PENDING trade the user is a party to and no other, and leaves each lock equal to what is still promised. |
| Outcomes.GrantIff | apps/api/src/admin-users/admin-users.service.ts:109-150 | A grant commits exactly when its id is new to the user and the balance stays non-negative, a welcome grant exactly once; exactly that user's coins change, by the amount booked. |
| Outcomes.GrantedOnce | apps/api/src/admin-users/admin-users.service.ts:105-108 | Over every run a user is granted at most once under one grantId, and welcomed at most once. |
| Refusals.SendableIff | packages/shared/src/entities/trade.ts:51-85 | The terms the schema accepts: at most 20 lines a side of 1 to 100 copies, each card once in all, at most 1,000,000 coins a side, and something moves. |
| Refusals.ProposalEnds | apps/api/src/trades/trades.service.ts:59-98 | Which proposals succeed and which error ends each other, in terms of the recipient, the terms, the known cards, the coins read and the free copies. |
| Refusals.ReplyEnds | apps/api/src/trades/trades.service.ts:140-205 | The same for a counter, with its role, its status and the length of its chain. |
| Refusals.AcceptEnds | apps/api/src/trades/trades.service.ts:118-138 | An accept ends in NotFound, Forbidden, TRADE_NOT_PENDING, INSUFFICIENT_FUNDS of the net payer, CARDS_UNAVAILABLE of the requested copies, or success, the first that applies. |
| Refusals.FinishEnds | apps/api/src/trades/trades.service.ts:100-116 | A decline or cancel ends in NotFound, Forbidden, TRADE_NOT_PENDING or success, the first that applies. |
| Refusals.VoidEnds | apps/api/src/trades/trades.service.ts:248-273 | A void of a trade read as ACCEPTED succeeds while it still is and both sides can give back coins and copies, and is TRADE_NOT_REVERSIBLE otherwise; any other succeeds while PENDING and is TRADE_NOT_PENDING otherwise. |
| Refusals.OpenEnds | apps/api/src/packs/pack-opening.service.ts:118-187 | A pack open's write is refused for a stored openId, a missing user, the price or an empty pack, the first that applies. |
| TradeTheorems.VoidUndoesAccept | apps/api/src/trades/trade-settlement.service.ts:13-67 | From any invariant state, accept then void always succeeds, and leaves trades, quantities, locks and balances exactly as closing the PENDING trade with its release. |
| TradeTheorems.ReverseIff | apps/api/src/trades/trade-settlement.service.ts:24-38 | A void of an ACCEPTED trade commits exactly when it is still ACCEPTED, the side that was paid still has the coins, and each side still has, free, every copy it received; otherwise TRADE_NOT_REVERSIBLE. |
| TradeTheorems.ReversalWhole | apps/api/src/trades/trade-settlement.service.ts:24-67 | Whatever happened since the accept, a void moves every card and coin of the swap back and books it, or changes nothing. |
| TradeTheorems.BulkEqualsLoop | apps/api/src/trades/trade-close.service.ts:84-134 | The bulk void of a user equals closing each of their PENDING trades with its release, in any order: same tables, and no release fails. |
| TradeTheorems.LeavesOnce | apps/api/src/trades/trade-close.service.ts:42-75 | Along any run a trade leaves PENDING at most once and ACCEPTED at most once. |
| TradeTheorems.SettledOnce | apps/api/src/trades/trade-close.service.ts:42-75 | Along any run a trade settles at most once and reverses at most once. |
| TradeTheorems.FinalStays | apps/api/src/trades/trade-close.service.ts:42-75 | Along any run a final status stays, an ACCEPTED trade stays so or is VOIDED, and nothing else of a trade changes. |
| TradeTheorems.ChainShape | apps/api/src/trades/trades.service.ts:140-178 | A negotiation is a simple chain of at most MAX_COUNTER_CHAIN trades of the same two parties with alternating initiator; all but the last are COUNTERED. |
| TradeTheorems.ChainsDisjoint | apps/api/src/trades/trades.service.ts:140-178 | Two negotiations are disjoint unless one is a beginning of the other. |
| TradeTheorems.ChainsAlways | apps/api/src/trades/trades.service.ts:140-178 | Over every run, whatever counters race: the whole shape of each negotiation, that two of them are disjoint or one begins the other, and that a trade is COUNTERED exactly when it has a successor. |
| TradeService.Close | apps/api/src/trades/trade-close.service.ts:42-75 | The guarded status change and the release do exactly the transition function, locking the trade row and then the cards in order. |
| TradeService.MoveCoins | apps/api/src/trades/trade-settlement.service.ts:69-117 | One net transfer in the direction asked, both users' rows taken in id order; when the payer is short, refused with nothing paid or booked. |
| TradeService.Settle | apps/api/src/trades/trade-settlement.service.ts:13-22 | Coins then cards, as the settlement function says. |
| TradeService.Reverse | apps/api/src/trades/trade-settlement.service.ts:24-38 | The reversed coins then the inverted moves; a shortage of cards becomes TRADE_NOT_REVERSIBLE. |
| TradeService.Propose | apps/api/src/trades/trades.service.ts:59-98 | A whole proposal: it succeeds, or is refused as BadRequest, NotFound, InsufficientFunds or CardsUnavailable, exactly under the conditions on the recipient, the terms, the cards, the coins and the free copies; done as the transaction function says, and a failure restores every table. |
| TradeService.Accept | apps/api/src/trades/trades.service.ts:118-138 | Role checks, guarded close, settlement; all or nothing. |
| TradeService.Counter | apps/api/src/trades/trades.service.ts:140-205 | A whole counter: it succeeds, or ends in each of its seven refusals, exactly under the conditions on the role, the terms, the coins, the status, the length of the chain and the free copies; close, chain walk, create, and release and lock in the order of the two users' ids; all or nothing. |
| TradeService.VoidTrade | apps/api/src/trades/trades.service.ts:212-273 | The branch is chosen by the row read; all or nothing. |
| TradeService.VoidCheck | apps/api/src/trades/trades.service.ts:230-246 | Changes nothing, and answers a verdict: of a trade read as ACCEPTED voidable while it still is and both sides can give back what they received, else refused as TRADE_NOT_REVERSIBLE; of any other voidable while it is PENDING, else refused as TRADE_NOT_PENDING. |
| BulkVoid.VoidAllPendingOf | apps/api/src/trades/trade-close.service.ts:84-134 | The nested sums per initiator and card, then one release each in order, leave exactly the bulk function's tables, in whatever order the item rows come; rows are locked as the plan says. |
| BulkVoid.SumOffers | apps/api/src/trades/trade-close.service.ts:100-126 | The nested maps filled in the loop are, per initiator and card, the sum of the item rows. |
| BulkVoid.SumsPermuted | apps/api/src/trades/trade-close.service.ts:105-115 | The order in which the item rows are read does not show in the sums. |
| InventoryService.NormalizeChanges | apps/api/src/inventory/quantity.ts:19-31 | Accepts exactly positive quantities with each card once, and returns them in card order. |
| InventoryService.Lock | apps/api/src/inventory/inventory.service.ts:124-141 | The row-by-row guarded updates lock all or, once rolled back, nothing, exactly when every copy is free at the start. |
| InventoryService.Release | apps/api/src/inventory/inventory.service.ts:143-163 | The same for a release, against what is locked. |
| InventoryService.ApplyMoves | apps/api/src/inventory/inventory.service.ts:166-229 | The sorted guarded updates, upserts and the deletion of emptied rows succeed exactly when every giving move is covered at the start, and leave the summed table. |
| Inventory.MovesEffect | apps/api/src/inventory/inventory.service.ts:166-229 | Successful moves add up per (user, card), keep 0 <= locked <= quantity and leave no emptied row. |
| Inventory.ApplyMovesOrderFree | apps/api/src/inventory/inventory.service.ts:166-182 | Success, failure and result depend on the moves made, not on their order, for malformed lists too. |
| Inventory.MovesConserve | apps/api/src/inventory/inventory.service.ts:166-229 | Moves change a card's total by their net quantity. |
| Invariants.SettleMoves | apps/api/src/trades/trade-settlement.service.ts:13-59 | A settlement's moves change no card's total, give each side what the trade says, and take the offer out of the lock. |
| Inventory.MintAdds | apps/api/src/packs/pack-opening.service.ts:162-184 | A pack's upsert adds to each card's total how often the pack holds it. |
| Inventory.LockEffect | apps/api/src/inventory/inventory.service.ts:124-141 | A lock raises exactly the named cards of that user by the named quantities. |
| Trades.MovesOfDelta | apps/api/src/trades/trade-settlement.service.ts:41-59 | A trade's moves give the initiator what was requested and the recipient what was offered, the offer out of the lock. |
| Trades.OfferedQty | apps/api/src/trades/trade-row.ts:27-31 | The changes to lock or release are, per card, the offered quantity of the trade. |
| Trades.TradeLinesQty | apps/api/src/trades/trade-row.ts:33-46 | A stored trade offers and requests, per card, what its terms say. |
| Trades.LinesValid | packages/shared/src/entities/trade.ts:51-85 | Terms the schema accepts make stored lines with positive quantities and no card twice, on either side. |
| LockPlans.PlanAscends | docs/DataModel.md:161 | Propose, decline, cancel, accept, counter, void, expire, grant and pack open take their rows in strictly increasing order: trade or opening key, users by id, inventory by (user, card). |
| LockPlans.BulkPlanAscends | apps/api/src/trades/trade-close.service.ts:88-126 | The bulk void takes trade rows by id, then inventory by (user, card), in strictly increasing order. |
| Deadlock.NoWaitCycle | apps/api/src/trades/trades.service.ts:180-191 | Transactions that follow such plans never wait for each other in a cycle, at any moment of any schedule. |
| Deadlock.SomeoneProceeds | apps/api/src/trades/trades.service.ts:180-191 | While any of them is unfinished, some one can take its next row or finish. |
| Deadlock.EveryRequestBegins | apps/api/src/trades/trades.service.ts:59-307 | Any request on a row read from a state of the invariant, any valid proposal, pack open or grant, begins with its plan at any moment of a schedule. |
| Deadlock.EveryoneFinishes | apps/api/src/trades/trades.service.ts:180-191 | From every lock table a schedule can reach, all open transactions can take the rest of their rows and end. |
| EconomyService.WritePack | apps/api/src/packs/pack-opening.service.ts:118-187 | Opening row, debit, ledger row, stored cards and one upsert per card in card order do exactly the open function, or nothing. |
| EconomyService.CountCards | apps/api/src/packs/pack-opening.service.ts:162-169 | The counts map holds each pulled card with how often it was pulled. |
| EconomyService.Grant | apps/api/src/admin-users/admin-users.service.ts:109-174 | A grantId is applied once; afterwards the amount of its ledger row answers the present balance, any other amount a conflict, and no table changes. |
| EconomyService.GrantIfFirstTime | apps/api/src/economy/welcome-grant.service.ts:15-43 | The welcome grant is booked and paid once; a second call changes nothing. |
| PackOpening.ChargedOnce | apps/api/src/packs/pack-opening.service.ts:39-116 | For any clients sharing openIds and any lock answers, an openId has at most one opening, is debited once if it has one and never otherwise, and copies minted are copies stored. |
| PackOpening.SameCards | apps/api/src/packs/pack-opening.service.ts:189-212 | Over every run the requests served for one openId are served the same cards, and to the same user and template. |
| PackOpening.AlwaysReplayed | apps/api/src/packs/pack-opening.service.ts:97-108 | A request that lost the race for an openId is never left with the unique violation, and none is refused with a conflict unless its openId is stored for another user or another template. |
| PackOpening.WriterServed | apps/api/src/packs/pack-opening.service.ts:92-116 | The write that stores a pack serves its caller the cards it drew; any other changes nothing, and is left to replay exactly when the openId is already stored, or refused for a missing user, the price or an empty pack, the first that applies. |
| PackOpening.ReplayRefuses | apps/api/src/packs/pack-opening.service.ts:189-200 | While the openId is stored for another user or template, each look, poll and recovery answers the conflict. |
| PackOpening.ReplayServes | apps/api/src/packs/pack-opening.service.ts:189-212 | While a caller's own pack is stored, each look, poll and recovery serves exactly the stored cards, and a write of its own loses to the stored opening and changes nothing. |
| PackOpening.ServedInFour | apps/api/src/packs/pack-opening.service.ts:39-108 | From any reachable state in which a caller's own pack is stored, whatever the lock answers and whatever happens in between, after at most four steps of its own the caller holds exactly those cards, unless its own draw was refused. |
| PackOpening.EndsInSix | apps/api/src/packs/pack-opening.service.ts:39-108 | Every caller is served or refused after at most six steps of its own, polls that go on waiting not counted, whatever the others do. |
| PackOpening.WrittenAsDrawn | apps/api/src/packs/pack-opening.service.ts:64-162 | A write that stores an opening stores exactly the cards its client drew before, takes exactly the price drawn with them from that user, and books it. |
| PackOpening.EveryPackBought | apps/api/src/packs/pack-opening.service.ts:126-162 | Over every run in which packs are opened by clients, each stored opening is a pack its client drew, and the ledger holds its PACK_SPEND row with the price drawn. |
| PackOpening.DrewOnce | apps/api/src/packs/pack-opening.service.ts:64-96 | A client draws once, one pack or one refusal. |
| PackOpening.AllAsDrawn | apps/api/src/packs/pack-opening.service.ts:69-96 | A client is refused as not found or as unavailable exactly when its own draw met no template or an empty slot, and what it is about to write is the pack it drew. |
| PackOpening.ShortOfCoins | apps/api/src/packs/pack-opening.service.ts:135-146 | A client is told it is short of coins only by its own write, and only when its balance is below the price it drew. |
| PackOpening.DrawsCleared | apps/api/src/packs/pack-opening.service.ts:45-56 | A client draws only after it was not told that another holds the lock, or after it gave up waiting. |
| Expiry.ExpiryRun | apps/api/src/trades/trade-expiry.service.ts:34-111 | With any requests of others between its transactions the run ends. Each trade stale at the start was taken out of PENDING by exactly one of the run and those requests; `expired` counts exactly the ones the run took (now CANCELLED; every trade the others leave alone is one), `raced` the ones it tried and found taken by others; no trade is tried twice, none fails, none stale at the start stays PENDING; no lock is unreconciled. |
| Expiry.ExpirePage | apps/api/src/trades/trade-expiry.service.ts:68-99 | The transactions of one page: each row of it is tried once, and counted as expired exactly when its own transaction closed the trade. |
| Expiry.QueryIsPage | apps/api/src/trades/trade-expiry.service.ts:45-66 | A page is ordered by (createdAt, id), all of it matches, and nothing before its last row is skipped. |
| Expiry.ExpireOne | apps/api/src/trades/trade-expiry.service.ts:69-86 | On any row read earlier the transaction expires the trade exactly when it is still PENDING, and otherwise reports TRADE_NOT_PENDING. |
| Trail.WhoClosed | apps/api/src/trades/trade-expiry.service.ts:68-88 | Along a run's own transactions, reads and the requests in between, each trade PENDING at the start has left it if and only if the run or the others took it out, and never both. |
| Trail.NotTheirs | apps/api/src/trades/trade-close.service.ts:42-75 | Others take no trade out of PENDING that none of their requests holds a row of or voids in bulk. |
| Sweep.Process | apps/api/src/sync/price-sweep.processor.ts:132-251 | One attempt from any cursor ends; what it asked is a prefix of the rotation from that cursor, all of it when completed, in batches of full size unless they reach an end, with no turn let go by; why it stopped, the counts, the cursor and the status, also when a query throws and the row stays RUNNING; SUCCEEDED only when the primary provider priced every batch of a whole rotation. |
| Sweep.Loop | apps/api/src/sync/price-sweep.processor.ts:132-225 | The loop, with its measure: not yet wrapped, ids left above the cursor, stalls left; every turn asks a batch, waits out a stall, or wraps, once. |
| Sweep.AskBatch | apps/api/src/sync/price-sweep.processor.ts:184-224 | A stalled batch moves nothing but the stall count; any other is recorded and moves the cursor to its last id. |
| Sweep.NextIds | apps/api/src/sync/price-sweep.processor.ts:141-182 | A turn asks the next ids of the rotation, and after the wrap asks none exactly when the rotation is complete. |
| SweepHistory.CompletedIsCatalog | apps/api/src/sync/price-sweep.processor.ts:148-182 | A completed pass asks each card exactly once. |
| SweepHistory.FreshLawful | apps/api/src/sync/sync-run.service.ts:79-97 | However a first attempt ends, interrupted or not, its row's cursor stands right after what it recorded as asked, or is null and nothing was. |
| SweepHistory.ResumeLawful | apps/api/src/sync/sync-run.service.ts:47-64 | A retry that finds a cursor in its row continues the same cycle from it. |
| SweepHistory.Run | apps/api/src/sync/price-sweep.processor.ts:78-251 | An attempt on a run as it is taken up: from its cursor, or from its start when it has none, the batches asked and the ending of `Process`, added to what the run had asked and counted; its cursor and its status, FAILED when the job's last attempt leaves it RUNNING. |
| SweepHistory.Perform | apps/api/src/sync/sync-run.service.ts:47-72 | One attempt on the table: a retry that finds the last run RUNNING keeps every other row and adds to that one what it asks, from its cursor or from the first card when it has none, or closes it as PARTIAL when its breaker is open; any other attempt keeps every row and appends one. |
| SweepHistory.PerformedMeans | apps/api/src/sync/price-sweep.processor.ts:78-113 | The same of every table an attempt can leave: each card asked is the next one of the catalogue after the one before, the first after the resumed run's cursor or after the last closed run's. |
| SweepHistory.History | apps/api/src/sync/sync-run.service.ts:143-163 | Any attempts on an empty table, each performed in turn: every run is lawful and found where the last closed run stood; attempts that leave the loop normally ask the catalogue round and round, and so do any others as long as each closed run handed the cycle on. |
| SweepHistory.NormalRunsGoRound | apps/api/src/sync/price-sweep.processor.ts:107-113 | Any number of attempts in which nothing throws and no contract breaks, whether they complete or stop at the budget, the stalls or the breaker: each makes one closed run, and together they ask the catalogue round and round from its first card, the last cursor right after what was asked. |
| SweepHistory.PerformedKeeps | apps/api/src/sync/sync-run.service.ts:79-97 | Whatever an attempt meets, the table stays lawful: each run a stretch of the cycle from its start, its cursor right after it, found where the last closed run stood. |
| SweepHistory.RoundRobin | apps/api/src/sync/sync-run.service.ts:156-163 | The same over any table with that property: a run hands the cycle on when it began where the last closed run stood and recorded a cursor, or when the place it passed over is a boundary of the catalogue. |
| SweepHistory.SameCardEvery | apps/api/src/sync/price-sweep.processor.ts:107-113 | In that order one card comes up again exactly every catalogue-length asks. |
| SweepHistory.WindowIsCatalog | apps/api/src/sync/price-sweep.processor.ts:107-113 | Any catalogue-length asks in a row are the whole catalogue, each card once. |
| SweepHistory.ContinuesIff | apps/api/src/sync/sync-run.service.ts:138-141 | A run takes up the cycle if and only if it began where the last closed run stood or that was a boundary; reading its cursor goes on from it if and only if a cursor was recorded or it began at a boundary. |
| SweepHistory.NullCursorAsksAgain | apps/api/src/sync/price-sweep.processor.ts:194-197 | From any start inside the catalogue, an attempt whose first batch breaks the contract closes FAILED with no cursor, and the next run asks from the first card although the cycle stood later. |
| Rng.SeededRng.NextUint32 | apps/api/src/packs/pack-rng.ts:33-45 | The buffered reader's k-th word is word k mod 8 of block k div 8. |
| Rng.SeededRng.Int | apps/api/src/packs/pack-rng.ts:47-58 | The residue of the first accepted word, or a RangeError that draws nothing exactly when max is outside [1, 2^32]. |
| Rng.NewRng | apps/api/src/packs/pack-rng.ts:26-38 | A generator at the first word of the stream whose block c is the HMAC of counter c, or a RangeError exactly for a seed that is not 32 bytes. |
| Rng.WordOfBytes | apps/api/src/packs/pack-rng.ts:42-44 | Each 32-bit word is read from exactly one group of four bytes, the most significant first. |
| Rng.Unbiased | apps/api/src/packs/pack-rng.ts:52-57 | Each residue has exactly limit / max accepted words; the limit is the largest multiple of max up to 2^32, and more than half of it. |
| Rng.DrawsOnce | apps/api/src/packs/pack-rng.ts:52-57 | Where a draw ends, and so the number drawn, is decided by the stream and the place it starts. |
| Generator.GeneratePack | apps/api/src/packs/pack-generator.ts:16-39 | As many cards as the slots count, each pulled on its own two draws from where the last stopped, with exactly the fallbacks they left, each naming a rolled rarity without cards and a used one with; or EmptySlot for the first slot with places whose rarities are all without cards, if and only if there is one. |
| Generator.Roll | apps/api/src/packs/pack-generator.ts:41-50 | A roll below the total lands on the rung whose cumulative weights enclose it; any other is refused. |
| Generator.RollsOfRung | apps/api/src/packs/pack-generator.ts:41-50 | Of the rolls in [0, total) exactly weight_i land on rung i. |
| Generator.SharesOfRung | packages/shared/src/packs/odds.ts:24-33 | The odds shown are the odds drawn: of the words accepted for a ladder's total exactly the share weight / total lands on each rung. |
| Generator.Resolve | apps/api/src/packs/pack-generator.ts:54-66 | The rolled rung if its bucket has cards, else the nearest commoner one that has, else the nearest rarer one; null exactly when no rung of the ladder has cards. |
| Generator.LadderHolds | packages/shared/src/packs/odds.ts:10-15 | The ladder holds exactly the rarities with positive weight, most common first, ties by name. |
| Generator.LadderOrderFree | packages/shared/src/packs/odds.ts:5-9 | The order of the keys in the stored object does not show in the ladder. |
| Generator.LoadPool | apps/api/src/packs/pack-pool.ts:8-31 | Each rarity some row has, with exactly the ids of its rows in ascending order. |
| Generator.PoolOrderFree | apps/api/src/packs/pack-pool.ts:5-7 | The order in which the database returns the rows does not show in the pool. |
| Generator.SameSeedSamePack | apps/api/src/packs/pack-rng.ts:15-19 | One template, one pool and one seed's stream give one pack: cards, rarities, fallbacks, or the refusal. |
| Generator.DrawAndReplay | apps/api/src/packs/pack-opening.service.ts:67-75 | Drawing a pack from a seed and drawing it again from the stored seed give the same pack. |
| Throttle.Redis.Script | apps/api/src/throttle/redis-throttler.storage.ts:6-26 | The Redis commands, with keys that expire in between, do exactly the call function and return its reply. |
| Throttle.IntervalBound | apps/api/src/throttle/redis-throttler.storage.ts:6-26 | On any trace, any stretch of one window's length admits at most 2 * limit - 1 requests, when a block lasts at least a window. |
| Throttle.BoundIsReached | apps/api/src/throttle/redis-throttler.storage.ts:6-26 | For every limit and every window of two milliseconds or more some trace admits exactly that many. |
| Throttle.WindowBound | apps/api/src/throttle/redis-throttler.storage.ts:11-25 | A counter window admits at most limit requests. |
| Throttle.CounterBound | apps/api/src/throttle/redis-throttler.storage.ts:11-25 | The same including the millisecond the counter expires in, unless a block as short as the window was set in the millisecond the counter was opened. |
| Throttle.NeverAboveIff | apps/api/src/throttle/redis-throttler.storage.ts:6-26 | With blocks at least a window long, every stretch of one window admits at most limit requests if and only if the limit is at most one or the window at most one millisecond. |
| Throttle.NonePassBlocked | apps/api/src/throttle/redis-throttler.storage.ts:7-10 | A request refused by its count is followed by no passing request until the block is over. |
| Throttle.PassesIff | apps/api/src/throttle/redis-throttler.storage.ts:6-26 | A request passes if and only if no exceeded count lies less than a block's length before it and fewer than limit requests have passed in the window it falls in. |
| Throttle.BlockEnds | apps/api/src/throttle/redis-throttler.storage.ts:7-10 | The first request at or after the end of a block passes and opens a window of its own. |
| Throttle.RepliesTell | apps/api/src/throttle/redis-throttler.storage.ts:6-26 | The reply tells how many have passed in the window and how long it stays, or how long the latest block does. |
| Pagination.AfterCursorIff | apps/api/src/inventory/inventory.service.ts:281-333 | For all six sorts the cursor condition on a row's cursor selects exactly the rows listed after it by date, name or price and then id, the unpriced tail included, in both directions. |
| Pagination.StrictTotalOrder | apps/api/src/inventory/inventory.service.ts:281-290 | Each of the six orders is strict, transitive and total on rows with different ids. |
| Pagination.PageIsStretch | apps/api/src/inventory/inventory.service.ts:87-119 | A page is the next stretch of the list of all rows, each once, ordered by the sorted field and then the id; its cursor is null exactly when nothing is left. |
| Pagination.Walk | apps/api/src/inventory/inventory.service.ts:87-119 | Following nextCursor yields each row once, in the order of the rows' own date, name or price and then id, unpriced rows last, and stops. |

## Left out

- `AdminUsersService.suspend`: it takes inventory rows before user rows, so it is no request of the lock plans, and its user rows and `suspendedAt` are not modelled; the voiding of the user's trades inside it is (`BulkVoid.VoidAllPendingOf`, `LockPlans.BulkPlanAscends`).
- `suspendedAt`, the proposed cards' existence and the proposer's coins are read outside the transaction: they are inputs of `TradeService.Propose` and `TradeService.Counter`, and no invariant depends on them.
- 32-bit columns: quantities, locks and coins are unbounded here; an overflow in the database would roll the transaction back.
- PostgreSQL, Prisma and Redis: transactions are atomic, unique keys hold, a key expires as Redis documents it.
- Two kinds of row locks: ledger keys written after the user rows in trades and pack opens (their conflicts are already ordered by the trade or opening key), and the share locks of foreign keys on rows nobody deletes.
- Records that decide nothing: `resolvedAt`, `acquiredAt` on inventory writes, audit rows, notifications, metrics, cached summaries.
- The HMAC: an arbitrary function from a counter to 32 bytes; the counter is not limited to 64 bits.
- Rng.SeededRng.Int: a stream in which no later word is accepted is excluded, because the source would read it for ever; `Generator.GeneratePack` asks for a stream that always has another low word.
- Generator.SameSeedSamePack: a template whose weights sum to more than 2^32, or a bucket of more cards than that, ends in a RangeError about which no more is said.
- Throttle: the answer when Redis fails (the request is let through), and the rounding of the reply to seconds.
- Pagination: the text encoding of cursors and the filters; a collection that changes between two pages.
- SweepHistory: a catalogue that changes, during a run or between runs; the waiting times; a batch interrupted between its answer and its `recordProgress` counts as not asked, and is asked again. A retry comes before the next job, which is not queued while one can still retry.
- Trade ids: the source's are random strings, so their byte order is not the order of creation; here it is. The order of `ORDER BY id` in the bulk void and of equal ages in the expiry run follows creation in the model only.
- The choice of provider.
- Expiry.ExpiryRun: requests made during the run create their trades after the cutoff, as the clock does.
- PackOpening: the seed, the stored rarities' meaning and the polling interval; the lock's answers are arbitrary, so its token is not modelled.
