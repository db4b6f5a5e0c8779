# A verified model of Muchi's queue, gates, orders and prices

Muchi searches card stores for a buyer. A search splits into items; workers claim them under
leases, ask the stores, and complete them; readers page through what is finished. This project
models that machinery in Dafny and proves what it keeps.

- **The work queue** (`queue*.dfy`, `database.dfy`, `search_store.dfy`, `item_store.dfy`,
  `searched.dfy`). `Queue` gives each transaction as a function from one state of the collections
  to the next. A run is any sequence of transactions, clock steps, damage to stored items and
  removals of lapsed records. The classes `SearchStore`, `ItemStore` and `Worker` are the code: their
  methods write the collections of a `Database` and are proved to take the steps of the model,
  so every theorem about runs holds of them. `QueueItems`, `QueueSearches` and `QueueAnswers` say what
  every stored record and every answer is by the history of a run alone. Where the code calls the database twice,
  `Database.Interfere` stands for anything other processes may do in between, and the ghost field
  `own` lists the events of the run that the code under proof caused itself.
- **Sources** (`sources.dfy`): the slots of the traffic gate and the history of the circuit.
- **Orders** (`orders.dfy`, `order_history.dfy`, `order_store.dfy`): webhooks, sweeps and buyer reports that race for
  one order.
- **Prices** (`integers.dfy`, `decimals.dfy`, `price_printing.dfy`, `sorting.dfy`,
  `selection.dfy`, `suspicion.dfy`): decimal strings compared, read and printed in 64-bit
  arithmetic, the stable selection of the cheapest offers, and flagging by medians.
- **Titles, phrases and prints** (`text.dfy`, `titles.dfy`, `phrases.dfy`, `prints.dfy`): the two
  readers of a store title, phrases on word edges, and the print index against a scan.
- **Carts** (`carts.dfy`): the Shopify permalink and the quote read back.

`wrappers.dfy`, `sets.dfy`, `lists.dfy`, `records.dfy` and `repository.dfy` hold what all share and the one query
primitive. Check everything with `dafny verify dfyconfig.toml`.

## What the proofs found

- A card name with a spaced dash or a bracket inside is matched by titles whose key is another
  name. The comment at internal/model/offer.go:85-86 gives `Kuriboh - Multiply!` as such a name:
  only the first dash of a title is looked at, so `kuriboh - multiply! - sm214` keeps its whole
  title as its key. `Titles.ReadersAgreeIffUnmarked` gives the exact condition.
- `parseCents` wraps at 64 bits, so huge prices that compare as larger strings are read as
  smaller amounts, and the products of the median test wrap too: an offer alone in its group can
  be flagged as far below its own price (`PricePrinting.OverflowReorders`,
  `Suspicion.OverflowFlagsTheMedian`). The exact and the guarded statements stand beside them.
- A negative Shopify price of one to nine hundredths prints as `0.-5` and still reads back; any
  other negative price does not (`PricePrinting.HundredthsRoundTrip`).
- A shipping rate whose text is no finite number is not refused, and one that converts to less
  than zero discards every rate before it (`Carts.BelowZeroDiscards`). The charge undercuts or
  equals every accepted rate if and only if none is below zero (`Carts.CheapestIffNoneBelowZero`).
- A quote writes a notice for a variant if and only if it was asked for and the cart holds another
  number of it; a variant only the cart holds gets none (`Carts.OneNoticeEach`).

## Model

| member | source | states |
|---|---|---|
| `Repository.List` | internal/repositories/repository.go:20-30 | Keeps what matches, ascending by one field, cut at the limit; each listed key is at most every matching key left out, and ties may come in any order |
| `QueueInvariant.Reachable` | internal/repositories/item_store.go:48-202 | The joint invariant of searches, items, offers and completions holds after every prefix of every run: creations, item writes, claims, renewals, completions, cancellations, clock steps, damage and removal of any lapsed record, in any order |
| `QueueInvariant.StepKeeps` | internal/repositories/collections.go:24-30 | Every single transaction or environment step keeps that invariant |
| `QueueInvariant.ReadyClaimableIsOpen` | internal/repositories/item_store.go:17-20 | An item that is ready and claimable was not finished: a finished item is parked a day past its expiry, so it is ready only once it has lapsed |
| `QueueCounters.CountersCountItems` | internal/repositories/item_store.go:156-202 | In every reachable state a live search has Processed = number of finished items = Found + NotFound + Errors <= Total, and each counter counts the items stored with its status |
| `QueueCounters.SequencesAreExact` | internal/repositories/item_store.go:169-171 | The sequences of the finished items of a live search are exactly 1..Processed, no gap and no repeat |
| `QueueCounters.StatusSaysOutcome` | internal/repositories/item_store.go:194-201 | A live search that is not cancelled is completed if and only if it has items, all of them finished and none failed; completed with errors if and only if it has items, all finished and some failed; so one without items is never completed |
| `QueueCounters.CompletionStored` | internal/repositories/item_store.go:169-178 | Every completion of a live search is one stored item with its status, at its sequence, with stored offers |
| `QueueCounters.StoredCompletion` | internal/repositories/item_store.go:162-171 | Every stored finished item is the completion its sequence names |
| `QueueHistory.TerminalForever` | internal/repositories/search_store.go:161-173 | Between any two moments of a run a completed, completed-with-errors or cancelled search keeps its status; no claim, completion or cancellation revives it |
| `QueueHistory.TakenSearchIsOpen` | internal/repositories/item_store.go:89-107 | The claim that writes the running status only ever meets a search that is not closed |
| `QueueHistory.GoneForever` | internal/repositories/keeping.go:51-62 | A removed search never comes back |
| `QueueHistory.RunEvolves` | internal/repositories/item_store.go:89-202 | Between any two moments completions only get appended, births and expiries never change, and until its search expires a finished item and its offers stay stored as they are |
| `QueueLeases.NoClaimDuringLease` | internal/repositories/item_store.go:66-69 | In every run an item is claimed again only at or after the end its last claim or renewal wrote, and never after it was completed |
| `QueueLeases.OnlyHolderActs` | internal/repositories/item_store.go:144-164 | Only the owner that claimed an item last renews or completes it: an earlier owner can do neither |
| `QueueLeases.CompletedOnce` | internal/repositories/item_store.go:156-182 | Every item is completed at most once in a run |
| `QueueItems.ItemTells` | internal/repositories/item_store.go:89-182 | In every reachable state a stored item is, field by field, what its own history says: pending from the creation of its search until it is claimed; then running, with the count of its claims, its last claimer and the end of its last claim or renewal; and once completed the copy it was completed with, without a lease, parked a day past its expiry; damaged exactly if storage damaged it |
| `QueueItems.ItemsAreKept` | internal/repositories/item_store.go:78-87 | Stored are exactly the items their creator saved, less those a claim discarded as dead and those removed after expiry |
| `QueueItems.EntriesTell` | internal/repositories/item_store.go:175-177 | Offers are stored exactly for completed items until removed after expiry, are those of the completion, and expire with the search |
| `QueueItems.ReadyMeans` | internal/repositories/item_store.go:66-70 | An item is ready exactly from a moment its history names: its creation, the end of its lease, or a day past its expiry once finished |
| `QueueItems.HoldsMeans` | internal/repositories/item_store.go:144-164 | A renewal succeeds exactly for the last claimer of an item that is stored, undamaged and not completed, even after the lease has run out |
| `QueueItems.ClaimHandsOut` | internal/repositories/item_store.go:100-115 | What a claim hands out is the item as stored, with one more attempt and a lease of this owner from now on, and completes the item as long as nothing else happens |
| `QueueSearches.SearchTells` | internal/repositories/item_store.go:184-202 | In every reachable state a stored search is, field by field, what its own history of claims, completions and cancellation says: status, counters, card shown, start, end and last change |
| `QueueSearches.RunningIffClaimed` | internal/repositories/item_store.go:100-107 | A search that is not closed is running if and only if one of its items was claimed since it was made, and queued otherwise; it started with the first such claim and shows the card of the last until it is completed |
| `QueueSearches.EndedMeans` | internal/repositories/search_store.go:161-173 | A search is cancelled exactly when a cancellation of it was carried out; it ended with that or with its last completion, and has no end before |
| `QueueAnswers.BirthTells` | internal/repositories/search_store.go:60-68 | What is recorded of a search is what the one event that made it gave, at that instant |
| `QueueAnswers.ReadableMeans` | internal/repositories/keeping.go:51-62 | A search can be read exactly from its making up to and including the instant its time runs out, whatever else happens |
| `QueueAnswers.ClaimableMeans` | internal/repositories/item_store.go:89-99 | A stored item is claimable exactly while undamaged, with a search that lives and was never cancelled |
| `QueueAnswers.CompletableMeans` | internal/repositories/item_store.go:156-168 | A copy completes its item exactly while its owner claimed it last, it is stored, undamaged and not completed, and the search lives; a cancelled search still counts completions |
| `QueueAnswers.KeyTells` | internal/repositories/keeping.go:33-49 | A key answers what the last creation, cancellation or order under it recorded, up to and including the instant that expires, and nothing otherwise |
| `QueueAnswers.CancelAnswers` | internal/repositories/search_store.go:136-173 | In every reachable state, under a key that answers nothing, a cancellation is carried out exactly when the search lives and is neither completed nor cancelled, then stores and answers it as cancelled at that instant and records that; it is refused as not running exactly when the search lives but is closed, as not found when it does not live, and then changes nothing |
| `QueueAnswers.CreateAnswers` | internal/repositories/search_store.go:52-68 | Under a key that answers nothing a creation stores and answers a queued search with all cards ahead of it, alive for its time, and records that |
| `QueueRequests.KeysApart` | internal/repositories/keeping.go:35-49 | Record names of different actions or keys never collide, whatever the keys hold |
| `QueueRequests.Remembers` | internal/repositories/keeping.go:33-49 | The answer recorded for an action and key is still read until its expiry passes, whatever else happens |
| `QueueRequests.CreateIsIdempotent` | internal/repositories/search_store.go:33-58 | While the record of a create is alive no second search is made under its key: the same hash answers that search as it is stored now, another hash conflicts, and nothing changes |
| `QueueRequests.CancelIsIdempotent` | internal/repositories/search_store.go:136-159 | A retried cancel changes nothing: the same hash answers the search it cancelled as it is stored, or not-found exactly when that cannot be read any more; another hash conflicts |
| `QueuePages.ListedInOrder` | internal/repositories/search_store.go:110-115 | A listing after a cursor holds the completions after it, in order and without a gap |
| `QueuePages.ListingShows` | internal/repositories/search_store.go:108-134 | Asking for one record more than fits yields a page of the next completions, and more follow exactly when one more was completed at that read |
| `QueuePages.PagesJoin` | internal/repositories/search_store.go:96-106 | Two pages read through the cursor while workers go on join: sequences run on, none missed and none repeated |
| `Databases.WrittenStays` | internal/repositories/search_store.go:70-89 | The record of which items of a search were written changes only by the writes of its creator |
| `Databases.OthersAddNone` | internal/repositories/search_store.go:70-89 | While only others work, no item of a search that its creator has not written yet is stored |
| `SearchStores.SearchStore.CreateSearch` | internal/repositories/search_store.go:33-58 | Its transaction is the create step of the model; when it made a search, either all items were written or the search is gone; it causes no event but that step and writes of those items, five hundred at a time |
| `SearchStores.SearchStore.CreateItems` | internal/repositories/search_store.go:70-89 | Every card becomes one item under its own id, pending, ready at once, expiring with the search, written in batches between which others work |
| `SearchStores.SearchStore.GetSearch` | internal/repositories/search_store.go:91-94 | Answers the job of a search that has not lapsed, not-found otherwise |
| `SearchStores.SearchStore.CancelSearch` | internal/repositories/search_store.go:136-173 | Its transaction and answer are the cancel step; under a key that answers nothing yet, a readable search that is neither completed nor cancelled is closed at that instant and answered as stored, a closed one is refused as not running, and any other is not found |
| `SearchStores.SearchStore.ListResults` | internal/repositories/search_store.go:96-106 | Writes nothing. Not found exactly when the search is not readable; otherwise it fails exactly when a record among those listed was damaged, and names one; else the page shows those records, which are the completions after the cursor, and carries the offers they were completed with |
| `SearchStores.SearchStore.LoadResultPage` | internal/repositories/search_store.go:108-134 | The listing, its cut and the offers read afterwards, with other processes in between; it fails exactly when a listed record was damaged, the one past the page included |
| `SearchStores.PageAnswers` | internal/repositories/search_store.go:96-134 | A listing of one moment answered at a later one is a page of that moment |
| `SearchStores.StaysStored` | internal/repositories/search_store.go:127-130 | The offers of a listed item stay stored and unchanged while its search lives, so reading them late reads the same |
| `Searched.CollectSearchOffers` | internal/search/searched.go:9-27 | Following the cursor ends and writes nothing; when the search is alive at the end the reader saw its completions from the first on, in order, among them all that existed before it began, and the index holds under each id the last offer of those completions that has it, and nothing else |
| `Searched.IndexPage` | internal/search/searched.go:17-21 | The index after one more page: under each id the last offer of the page that has it, and otherwise what was there before |
| `Searched.GatheredHolds` | internal/search/searched.go:17-21 | Every offer id of every completion that was read is in the index |
| `Searched.LastWithMeans` | internal/search/searched.go:17-21 | Which offer an id stands for: one of the offers, with that id, and none after it has the id |
| `Searched.PageJoins` | internal/search/searched.go:12-26 | One more page extends what was seen without a gap |
| `ItemStores.ItemStore.ClaimSearchItem` | internal/repositories/item_store.go:48-57 | A turn with others working between its transactions: each item it deletes is at that moment the oldest ready one and dead, the one it answers the oldest ready one and live; when it answers not-found nothing ready is left or it deleted twenty-one; it causes no other event |
| `ItemStores.QuietTurn` | internal/repositories/item_store.go:48-57 | A turn at one instant with nobody in between deletes only items that were dead when it began, all ahead of what is left, and answers the first live ready one |
| `ItemStores.ItemStore.ClaimOnce` | internal/repositories/item_store.go:59-87 | The oldest ready item is taken if claimable and deleted if not, in one event; nothing changes exactly when none is ready |
| `ItemStores.ItemStore.ClaimItem` | internal/repositories/item_store.go:89-116 | Its writes are the claim step of the model: refusal exactly for damaged, lapsed, search-less items and missing, lapsed or cancelled searches; otherwise it answers the item as it is stored, and its search is running |
| `ItemStores.ItemStore.RenewItemLease` | internal/repositories/item_store.go:144-154 | Its write is the renewal step: both lease ends move together, for the current owner of a running item only |
| `ItemStores.ItemStore.CompleteSearchItem` | internal/repositories/item_store.go:156-182 | For any copy its writes are the completion function: item, offers and counters in one transaction, or nothing; for a copy a claim could have handed out, with an outcome, that is a step of the run |
| `ItemStores.ItemStore.Count` | internal/repositories/item_store.go:184-202 | Counts one completion and closes the search with its last one, unless it was cancelled |
| `ItemStores.TurnReachesLive` | internal/repositories/item_store.go:13-15 | If such a turn comes back empty although some item was live and ready, more than twenty dead items stood ahead of it |
| `ItemStores.TurnDrains` | internal/repositories/item_store.go:48-57 | Each such empty turn leaves nothing ready or twenty-one ready items fewer |
| `ItemStores.BacklogDrains` | internal/repositories/item_store.go:48-57 | Repeated empty turns take twenty-one each from what is ready until nothing is, and leave every live item live |
| `ItemStores.BacklogIsBounded` | internal/repositories/item_store.go:13-15 | As many empty turns as cover what is ready leave nothing ready, and cannot happen while a live item is |
| `ItemStores.StaysGenuine` | internal/search/worker.go:41-57 | The copy a claim handed out belongs to its search for the rest of the run |
| `ItemStores.Worker.ProcessNext` | internal/search/worker.go:41-71 | Once an item was claimed the turn ends in one completion of it, as found exactly when there are offers, failed exactly when there are none and a source failed, else not found; it succeeds exactly when the item is still held and its search alive, then with those offers stored, and otherwise changes nothing; its only events are claims, renewals of that item and that completion |
| `ItemStores.Worker.RenewLease` | internal/search/worker.go:73-87 | The renewals of a turn, with others in between: all of the claimed item, by this owner, until one is refused |
| `Sources.NextNeverDecreases` | internal/repositories/source_store.go:116-139 | The stored next-allowed time of a domain never decreases, in any interleaving of reservations and delays |
| `Sources.SlotsAreApart` | internal/repositories/source_store.go:128-139 | Two granted slots of a domain are at least the pace of the earlier one apart, whoever moves in between |
| `Sources.ThrottlingHolds` | internal/repositories/source_store.go:118-126 | After a 429 delay of some wait stored at t no later reservation gets a slot before t + wait |
| `Sources.SlotIsExact` | internal/repositories/source_store.go:116-139 | A slot is as late as it must be and no later: the largest of its own instant, a pace after each earlier slot of the domain, and the end of each earlier wait of it |
| `Sources.DomainsApart` | internal/repositories/source_store.go:20-23 | The gate of a domain depends on its own moves alone |
| `Sources.WaitDoublesUpToCeiling` | internal/repositories/source_store.go:173-176 | The 64-bit shifted wait equals min(2^(n-5), 60) minutes for every n >= 5, so it never overflows |
| `Sources.WaitNeverShrinks` | internal/repositories/source_store.go:162-176 | The wait is monotone in the number of falls |
| `Sources.CircuitSaysHistory` | internal/repositories/source_store.go:141-160 | After any history the failure count is the number of falls since the last success, a 429 neither counting nor forgiving; the circuit is set exactly when that is at least 5, to the last fall plus its wait |
| `Sources.HealthSaysHistory` | internal/repositories/source_store.go:141-157 | Last success and last failure are those of the history, a 429 being a failure, and the latency is that of the last call in whole milliseconds, rounded toward zero |
| `Sources.SourceStore.ReserveTraffic` | internal/repositories/source_store.go:128-139 | Answers the stored time of the domain if that is still ahead and the present instant if not, stores a pace more, and appends the reservation to the history; `Sources.SlotIsExact` says which slot a history grants |
| `Sources.SourceStore.DelaySource` | internal/repositories/source_store.go:116-126 | Appends one throttling to the history, never shortening a wait already won |
| `Sources.SourceStore.RecordSource` | internal/repositories/source_store.go:94-106 | A 429 first delays the domain, then every answer is appended to the history its health stands for |
| `Sources.SourceStore.NoteAnswer` | internal/repositories/source_store.go:100-105 | One more answer is appended to the history its health stands for |
| `Sources.SourceStore.Update` | internal/repositories/source_store.go:141-160 | Changes the health in place as the history step does |
| `Sources.SourceStore.Pace` | internal/repositories/source_store.go:53-58 | The configured pace where that is positive, and always a positive one |
| `Sources.SourceStore.Cool` | internal/repositories/source_store.go:60-65 | The configured cooldown where that is positive, and always a positive one |
| `Orders.WebhookOrderStatus` | internal/stores/woocommerce/webhook.go:29-38 | Two store statuses confirm and three release, no other names a move, and each names one a pending order may make |
| `Orders.OrderFollows` | internal/repositories/order_store.go:95-120 | Between any two moments an order is untouched or made the one move its status allows: pending to confirmed or released, linked to reported |
| `Orders.OneMoveWins` | internal/repositories/order_store.go:95-107 | Two events of a run never both move one order: of a confirm, a release and a report one wins |
| `Orders.SettlementMoves` | internal/repositories/order_store.go:98-107 | A settlement moves its order exactly when that is pending, and otherwise changes nothing |
| `Orders.StartsOpen` | internal/repositories/order_store.go:58-64 | Every stored order started as pending or linked, under its own id |
| `OrderHistory.OrderTells` | internal/repositories/order_store.go:44-120 | Every stored order was placed by one event and keeps what that gave it, with its id and that instant; it was moved by the first settlement (placed pending) or report (placed linked) after that, if any, to the status and number that names, at that instant |
| `OrderHistory.FirstMoveMeans` | internal/repositories/order_store.go:98-120 | The move of an order is that of the first event after its placing that could move it, and there is none exactly when no event could |
| `OrderHistory.PlacedIsStored` | internal/repositories/order_store.go:58-71 | An order that was placed is stored from then on, and was answered as stored |
| `OrderHistory.PlacedIffUnanswered` | internal/repositories/order_store.go:46-57 | A call places an order exactly when no answer recorded under its key is alive |
| `Orders.Remembers` | internal/repositories/keeping.go:33-49 | An order key answers the same record until it expires, also while searches write records of their own |
| `Orders.PlaceIsIdempotent` | internal/repositories/order_store.go:41-71 | While its record is alive a key places one order: the same hash answers it as it is stored now, another conflicts, nothing changes |
| `OrderStores.OrderStore.CreateOrder` | internal/repositories/order_store.go:44-71 | Its writes and answer are the placing function for any status; for the two that callers name, pending and linked, that is a step of the run |
| `OrderStores.OrderStore.FindOrderByStoreOrder` | internal/repositories/order_store.go:79-93 | Answers some order of that domain and store number, or not-found when there is none |
| `OrderStores.OrderStore.MoveOrderStatus` | internal/repositories/order_store.go:95-107 | For any two statuses its write and answer are the moving function: a conflict leaves everything as it was; settling a pending order is a step of the run |
| `OrderStores.OrderStore.ReportOrder` | internal/repositories/order_store.go:109-120 | Its write and answer are the reporting step: number and status land together or not at all |
| `OrderStores.OrderStore.ReleaseExpiredOrders` | internal/repositories/order_store.go:122-147 | The only events a sweep causes are one attempt on each order it listed, in order, and it counts exactly the attempts that moved their order; it lists distinct pending orders not touched since the cutoff, those untouched longest first, at most the limit and otherwise all |
| `OrderStores.SweepMeans` | internal/repositories/order_store.go:122-147 | An order whose attempt won stands released since that instant and no other event of the whole run ever moved it; any other listed order was moved before the attempt by an event that is none of the sweep's |
| `OrderStores.OrderService.GetOrder` | internal/search/order_service.go:137-152 | An order is found only through the search that placed it |
| `OrderStores.OrderService.ReportOrder` | internal/search/order_service.go:119-135 | An answered report stands stored under that number; a conflict means the order is no longer linked, and its one event changed nothing; a report that repeats the stored number is answered without an event |
| `OrderStores.OrderService.ConfirmOrder` | internal/search/order_service.go:154-171 | An answered webhook finds the order at the status it reported, and without an event when it stood there already; it causes at most one event, on an order of that domain and number, and when that loses the race the event changes nothing |
| `Integers.DigitsValue` | internal/stores/shopify/product.go:69-71 | Printing a number in decimal and reading it gives it back |
| `Integers.AtoiMeans` | internal/model/offer.go:463-478 | A string is read as a number exactly when it is digits of that number after at most one sign and the number fits 64 bits |
| `Decimals.CompareIsNumeric` | internal/model/offer.go:438-461 | For every two prices of digits with an optional decimal part, of any length, the string comparison has the sign of the difference of their hundredths |
| `Decimals.DecimalsAreOrdered` | internal/model/offer.go:438-461 | On all strings, prices or not, the comparison is a strict weak order, so sorting by it is well defined |
| `Decimals.ParseIsExact` | internal/model/offer.go:463-478 | The 64-bit reading of a price is exact if and only if its hundredths fit an integer |
| `Decimals.CompareAgreesWithParse` | internal/model/offer.go:438-478 | On prices that fit, string order and parsed hundredths agree |
| `PricePrinting.OverflowReorders` | internal/model/offer.go:463-478 | Past that bound they part: a range of larger strings is read as negative hundredths |
| `PricePrinting.HundredthsRoundTrip` | internal/stores/shopify/product.go:67-73 | Over all 64-bit prices, reading what was printed gives the price back if and only if it is above minus ten hundredths |
| `PricePrinting.HundredthsAreCanonical` | internal/stores/shopify/product.go:67-73 | A price that is not negative is printed without zeros ahead, with a point exactly when it is not whole and then two places, and is worth itself |
| `PricePrinting.PrintedMinor` | internal/stores/woocommerce/client.go:104-115 | What is printed is a price, worth the amount rounded down to the hundredth |
| `PricePrinting.MinorIsShaped` | internal/stores/woocommerce/client.go:104-115 | The printed digits are those given, with zeros ahead only where they are too few, and the point stands before exactly as many as the currency has minor places |
| `PricePrinting.MinorRoundTrip` | internal/stores/woocommerce/client.go:104-115 | Exactly the positive amounts of digits alone, below 2^64, of zero to six minor places are printed, and reading back gives floor(v * 100 / 10^m) if and only if that fits an integer |
| `Sorting.SortKeepsItsPromise` | internal/model/offer.go:364-366 | The model sort rearranges stably and sorts, for every weak order |
| `Sorting.StableSortIsSort` | internal/model/offer.go:364-366 | Any sorted and stable rearrangement, whatever algorithm made it, equals the model sort |
| `Sorting.FilterOfSort` | internal/model/offer.go:364-367 | Leaving some out after a stable sort equals sorting without them |
| `Selection.SelectStockOffers` | internal/model/offer.go:362-372 | The answer is the first `limit` of the stable ascending order of the unflagged offers alone |
| `Selection.FilterTrusted` | internal/model/offer.go:428-436 | Keeps the unflagged offers in their order |
| `Selection.ChosenAreTrusted` | internal/model/offer.go:362-372 | As many as asked for or as are unflagged, all unflagged input offers, no copy invented, ascending |
| `Selection.ChosenAreCheapest` | internal/model/offer.go:362-372 | No unflagged offer left out is cheaper than one chosen |
| `Selection.ChosenByAmount` | internal/model/offer.go:362-372 | The same in amounts: chosen hundredths ascend, and every unflagged offer left out costs at least as much as each chosen one |
| `Selection.TiesKeepTheirOrder` | internal/model/offer.go:364-366 | Offers of one price keep the order they came in, and the cut keeps the first of them |
| `Suspicion.GroupOfferPrices` | internal/model/offer.go:390-401 | Each group gets the readable prices of its offers in order, flagged ones included, and no group is empty |
| `Suspicion.FindPriceMedians` | internal/model/offer.go:403-410 | One median per group |
| `Suspicion.ApplySuspicious` | internal/model/offer.go:412-426 | Each offer judged in place against its group, every other field left alone |
| `Suspicion.MarkSuspicious` | internal/model/offer.go:374-382 | In place, every offer is judged as `Suspicion.JudgedByItsPeers` says |
| `Suspicion.JudgedByItsPeers` | internal/model/offer.go:390-426 | Every offer is judged by the middle of the readable prices of exactly the offers of its currency and, under the wide mode or for sealed products, of its card key: at most half of them below it, more than half not above; it is flagged exactly when that middle is positive and its own readable price below the percentage of it in 64 bits, and nothing else of it changes |
| `Suspicion.MedianMeans` | internal/model/offer.go:403-410 | The median is a price of the group with at most half below it and more than half not above it |
| `Suspicion.JudgementIsExactIffPricesFit` | internal/model/offer.go:417-419 | For a percent of 1 to 100 and prices up to a bound, every wrapped judgement is the exact one if and only if a hundred times the bound fits an integer |
| `Suspicion.OverflowFlagsTheMedian` | internal/model/offer.go:417-419 | Past that, a lone offer that is its own median is flagged |
| `Suspicion.AtMostHalf` | internal/model/offer.go:412-426 | For percent up to 100 at most floor(n/2) offers of a group of n prices are newly flagged |
| `Suspicion.OrderDoesNotMatter` | internal/model/offer.go:390-426 | Permuting the offers only permutes the flags |
| `Suspicion.GroupsAreApart` | internal/model/offer.go:246-255 | Offers of another currency never change a judgement, nor under the wide mode or for sealed products those of another card key, whatever else stands in the list |
| `Suspicion.MarkingAgainChangesNothing` | internal/model/offer.go:377-382 | Marking a marked list again changes nothing |
| `Text.IndexOfRest` | internal/model/offer.go:499 | Searching the rest of a title is searching the title from that place |
| `Text.JoinSplits` | internal/stores/shopify/link.go:31 | What was joined comes apart again at the character between, as long as no part holds it |
| `Phrases.StandsInMeans` | internal/model/offer.go:512-523 | Standing on word edges is the title being the phrase between two parts, neither of which ends or begins beside it with a letter or digit of ASCII |
| `Phrases.WordsContain` | internal/model/offer.go:496-510 | For a non-empty phrase the search ends and is true if and only if some occurrence, overlapping ones included, stands on word edges |
| `Phrases.NamesSet` | internal/model/offer.go:480-494 | True if and only if some non-empty set name stands so in the title |
| `Titles.TrimPrintingTail` | internal/model/offer.go:225-244 | The two loops cut at the first bracket, then at a dash that opens with a code, whichever leaves less |
| `Titles.OpensWithCodeMeans` | internal/model/offer.go:237-240 | A tail opens with a code exactly when its first field holds one of 0123456789 |
| `Titles.MatchesMeans` | internal/model/offer.go:296-337 | A title matches a name exactly when it is the name, or the name with a bar or bracket and anything, or with a spaced dash of three kinds and a code, or holds it inside one of three pairs of quotes |
| `Titles.KeyMeans` | internal/model/offer.go:196-244 | With dashes leveled, the key is the name in the first pair of quotes that holds one, pairs in their fixed order, and where none does the title up to the first mark that cuts it, which is no mark at its very start |
| `Titles.UnmarkedNameIsKey` | internal/model/offer.go:196-243 | For every title without quotes that matches an unmarked name, the key is that name |
| `Titles.ReadersAgreeIffUnmarked` | internal/model/offer.go:196-327 | For every normalised quote-free name: matcher and key reader agree on all normalised quote-free titles if and only if no bracket or spaced dash begins inside the name and its dashes are plain |
| `Titles.InnerDashMisread` | internal/model/offer.go:313-327 | A name with a spaced dash inside, such as the documented `Kuriboh - Multiply!`, is matched by its title with a code but read as another key |
| `Titles.QuotedNameIsKey` | internal/model/offer.go:210-223 | A name in one pair of quotes anywhere in a title is matched, and is the key with its dashes leveled |
| `Prints.IndexPrints` | internal/cardmetadata/prints.go:18-44 | Both maps answer what a scan of the list would: the first print of each edition code or name, and the last print under each key |
| `Prints.ImageFor` | internal/cardmetadata/prints.go:46-66 | For every list and title the indexed answer is the answer of the scan |
| `Prints.LongestEdition` | internal/cardmetadata/prints.go:74-87 | The two loops find what the scan of windows finds |
| `Prints.KeyIsPair` | internal/cardmetadata/prints.go:34 | A key of two colon-free halves is the key of no other edition and number, even among editions and numbers that hold colons |
| `Prints.KeyedIsNumbered` | internal/cardmetadata/prints.go:60-62 | So asking by key is asking for the last print with that edition and that number |
| `Prints.BestEditionMeans` | internal/cardmetadata/prints.go:74-87 | The edition found is the longest window of at most six words that names a usable print, and of those the leftmost; none exactly when no window does |
| `Prints.WindowSplits` | internal/cardmetadata/prints.go:80 | A window is its words with single spaces between them |
| `Prints.FirstNumberedMeans` | internal/cardmetadata/prints.go:57-64 | The number used is the first title word that numbers a print of the edition |
| `Prints.FirstNamedMeans` | internal/cardmetadata/prints.go:35-40 | An edition is represented by the first print listed under that code or that name with a number and an image, and by none exactly when there is no such print |
| `Prints.LastNumberedMeans` | internal/cardmetadata/prints.go:34 | An edition and number are represented by the last print with an image listed under that code or name and that number |
| `Prints.ImageIsListed` | internal/cardmetadata/prints.go:46-66 | An answered image belongs to a listed print of the edition found, the one a title word numbers or else the first, and an edition found always answers one |
| `Carts.CartLink` | internal/stores/shopify/link.go:14-32 | Answers exactly when every line names a variant and a positive quantity, each variant once in first-seen order with the 64-bit sum of its lines |
| `Carts.LinkConserves` | internal/stores/shopify/link.go:15-26 | The quantities in the link add up to those of the lines, no variant appears twice, and each is named by a line |
| `Carts.LinkIsInOrder` | internal/stores/shopify/link.go:22-24 | The link names the variants in the order of the first lines that name them |
| `Carts.LinkSplits` | internal/stores/shopify/link.go:27-31 | Taken apart at its commas, the link of variants without commas gives back one part for each |
| `Carts.QuantityIsShare` | internal/stores/shopify/link.go:25 | The quantity of a variant is the sum over the lines that name it and over no other |
| `Carts.LinkIsExact` | internal/stores/shopify/link.go:25-29 | As long as the whole cart fits an integer every part of the link is the variant, a colon and the exact sum over the lines of that variant |
| `Carts.CountAsked` | internal/stores/shopify/quote.go:97-99 | The map holds, for every variant, the 64-bit sum of the lines that ask for it |
| `Carts.CountHeld` | internal/stores/shopify/quote.go:100-102 | The map holds, for every variant, the 64-bit sum of the cart entries of it |
| `Carts.AskedIsShare` | internal/stores/shopify/quote.go:97-99 | What was asked for a variant is the sum over its lines and over no other |
| `Carts.HeldIsShare` | internal/stores/shopify/quote.go:100-102 | What is held of a variant is the sum over its entries and over no other |
| `Carts.EchoLines` | internal/stores/shopify/quote.go:103-111 | Every line is echoed with the price of the last cart entry of its variant |
| `Carts.UnitPriceIsLast` | internal/stores/shopify/quote.go:105-109 | The price echoed for a variant is that of its last entry in the cart |
| `Carts.WriteNotices` | internal/stores/shopify/quote.go:112-118 | The loop that overwrites what is wanted writes the notices of the first line of each differing variant, with the full sums |
| `Carts.OneNoticeEach` | internal/stores/shopify/quote.go:112-118 | For every variant: it gets a notice if and only if it was asked for and the cart holds another number of it, then exactly one, at its first line; so a variant only the cart holds gets none |
| `Carts.NoticeSays` | internal/stores/shopify/quote.go:114-116 | A notice names the offer of its line, then what all lines asked for of its variant, then what the cart holds of it |
| `Carts.DiffersExactly` | internal/stores/shopify/quote.go:112-118 | Where both sums fit an integer, they differ in 64 bits exactly when they differ |
| `Carts.ReadRates` | internal/stores/shopify/quote.go:119-130 | All accepted rates in order, and the lowest since the last one below zero; the hundredths are those the conversion gives, which for `NaN`, `Inf` or overflowing text may be any integer |
| `Carts.RatesAreAccepted` | internal/stores/shopify/quote.go:121-126 | The rates of the quote are the accepted ones, in order, each with its code, name and printed price |
| `Carts.CheapestIsCharge` | internal/stores/shopify/quote.go:119-134 | The charge is the lowest of the accepted rates with none below zero from them on, and nothing when there is no such rate |
| `Carts.CheapestIffNoneBelowZero` | internal/stores/shopify/quote.go:119-130 | Where some rate is accepted, the cheapest undercuts or equals every accepted rate if and only if none is below zero |
| `Carts.CheapestExists` | internal/stores/shopify/quote.go:119-134 | There is a cheapest rate exactly when the last accepted one is not below zero, and then it is one of the rates |
| `Carts.BelowZeroDiscards` | internal/stores/shopify/quote.go:127-129 | A rate below zero discards every rate before it: only those after the last such rate decide |
| `Carts.ReadShipping` | internal/stores/shopify/quote.go:119-135 | The rates, the charge for them, and a notice exactly when none is left to charge |
| `Carts.ReadQuote` | internal/stores/shopify/quote.go:94-137 | The goods read back as the cart total, the shipping as the lowest rate that decides or nothing, and the total as their sum, each if and only if it is above minus ten hundredths and fits an integer; echoed lines, rates and notices as above, with a notice exactly when no rate decides |
| `Carts.TotalReadsBack` | internal/stores/shopify/quote.go:131-135 | A printed 64-bit sum of goods and shipping reads back as the exact one if and only if that is above minus ten hundredths and fits an integer |

## Left out

- SearchStores.SearchStore.CreateSearch: does not promise all items of every stored search, because the code writes them after its transaction and may stop in between; the runs include that.
- SearchStores.SearchStore.ListResults: promises the page while the search has not expired, because any record may be removed after its expiry, in any order.
- Searched.CollectSearchOffers: promises completeness when the search is still alive at the end, for the same reason.
- Orders.PlaceIsIdempotent: covers Muchi's own record, not the store's, because the store is called before the key is looked at.
- OrderStores.OrderStore.FindOrderByStoreOrder: answers any one match, because domain and store number are not kept unique.
- Suspicion.AtMostHalf: holds while the two products fit 64 bits, because a wrapped one can flag a whole group; `Suspicion.JudgementIsExactIffPricesFit` says exactly for which prices they fit.
- Carts.ReadRates: takes a rate's hundredths as given; parsing and rounding the floating-point text is not part of this model.
- Carts.CartLink: takes the variant an offer's address names as given.
- Runs hold the steps that the callers in the repository can cause: completions of claimed copies, orders placed as pending or linked, and settlements of pending orders.
- Each transaction reads the clock once, where the code reads it several times within one.
- Storage fails only by a missing record; retries of a transaction, other storage errors and cancelled contexts.
- Random ids are taken to be fresh, and payload hashes are opaque values.
- Fields of records the protocols never read (game, quantity, faults, options) and the copying between stored records, replies and the model.
- `CountWaitingItems`, stock checks of single offers, how often the renewal timer ticks and a tick that falls after the completion, the sweeper's schedule, logging and metrics.
- Waiting for a reserved slot, and any promise about when calls are sent; the health read and the reservation are separate steps in the code.
- `OfferStore`, `PlaceOrder` and `LinkOrder` before the order is stored, and the stores' replies.
- Normalisation of titles and names (case, accents, spaces), the regular expression that splits a title into words, and byte offsets of multi-byte characters: titles are sequences of characters that are already normalised.
- `ContainsCard`, `CoversCard`, `AcceptsTitle`, `DeduplicateOffers`, `NameCards` and `ReadSealedKey`: one-line rules over the parts that are modelled.
- The wording of quote notices, which are values here, and the quote of WooCommerce.
- A negative selection limit, which makes the code panic.
