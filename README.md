# Multi-exchange orderbook viewer: a Dafny model of its core

The system streams order books and market statistics from several crypto
exchanges to two browser frontends. This project models five parts of it:

- the React frontend's pure helpers, with its store, its socket hook and the
  aggregate ladder it builds;
- the vanilla-JS frontend's utilities, its WebSocket manager and its orders
  page;
- the vanilla stats table;
- the Bitfinex spot adapter on the Go side, which maintains a book from
  snapshots and updates.

Each source file becomes one Dafny module, in the source's own form:

- pure code becomes functions and lemmas;
- objects whose fields change become classes with `modifies` clauses;
- loops become methods with invariants, each proved equal to a specification
  function;
- in-place array sorts keep an `array`.

Shared pieces:

- `sorting.dfy` is the stable sort that `Array.prototype.sort` performs, for
  a comparator given as "may precede" (`cmp(a, b) <= 0`).
- `market_types.dfy` holds the message and level shapes, `Option`, and
  `Distinct` (no element occurs twice).
- `ladder.dfy` is a JavaScript `Map` from price to quantity. It is kept as
  insertion-ordered entries because that order decides ties in the later
  sort.

Conventions:

- `parseFloat` is a parameter `parse: string -> real`.
- Quantities and statistics are carried as their numeric values.
- Timers, animation frames and sockets are fields, and their callbacks are
  methods. The listener calls a frontend makes are logged in a `delivered`
  sequence.
- In the Go adapter, a send to a full channel becomes an `accepted`
  argument, and the updates that reached the channel are logged in `sent`.

Two keying and ordering details are modelled as the code has them:

- The React aggregator keys levels on the literal price text, so "100" and
  "100.0" stay two rows. The vanilla aggregator keys them on the parsed
  number.
- The React exchange grouping compares base names with `localeCompare`,
  which is case-sensitive.

Where the code has a bug (see "## Findings"), the methods and classes
follow the code as written. The intended definition sits beside it, with
its own lemmas, and a lemma on a concrete input shows where the two part.

## Model

| member | source | states |
|---|---|---|
| Sorting.SortSorted | frontend/src/utils/aggregateOrderbook.ts:30-31 | for a consistent comparator, `Array.prototype.sort` returns a permutation of its input in which every element may precede every later one |
| Sorting.SortPermutes | frontend/src/utils/aggregateOrderbook.ts:30-31 | sorting only reorders: the multiset of elements is unchanged |
| Sorting.SortOfSorted | frontend/src/vanilla/utils.js:42-46 | an already ordered input comes back unchanged (the sort is stable) |
| Sorting.AllTiesKeepOrder | frontend/src/vanilla/components/stats-table.js:107-113 | a comparator that always answers 0 leaves the order as it was |
| Sorting.SortInPlace | frontend/src/vanilla/utils.js:42-46 | the in-place sort leaves the array holding the stable sort of its old contents |
| Sorting.InsertIntoSuffix | frontend/src/vanilla/utils.js:42-46 | one insertion step leaves the prefix alone and the suffix as the stable insertion of its first element into the rest |
| MarketTypes.CumulativeNonDecreasing | frontend/src/utils/aggregateOrderbook.ts:33-36 | with non-negative quantities a running total never decreases along the ladder |
| MarketTypes.LastCumulativeIsTotal | frontend/src/utils/aggregateOrderbook.ts:33-36 | the last cumulative of a ladder is the sum of all its quantities |
| Ladder.GroupSpec | frontend/src/utils/aggregateOrderbook.ts:15-27 | merging (price, quantity) pairs into a Map yields each price once, the prices present are exactly the input prices, and each quantity is the sum over that price |
| Ladder.GetOrZeroSpec | frontend/src/utils/aggregateOrderbook.ts:16-26 | reading the Map with a 0 default gives 0 for a missing key and the stored value for a present one |
| Ladder.PutSpec | frontend/src/utils/aggregateOrderbook.ts:16-26 | `m.set` on a new key appends it; on a present key it replaces the value in place and keeps the order |
| Ladder.PutTotal | frontend/src/utils/aggregateOrderbook.ts:16-26 | a `set` changes the total quantity by the new value minus the old (or 0) |
| Ladder.GroupTotal | frontend/src/vanilla/orderbooks-app.js:104-116 | merging keeps the total quantity |
| Ladder.SortKeys | frontend/src/utils/aggregateOrderbook.ts:30-31 | sorting Map entries keeps the keys distinct and the key set unchanged |
| Ladder.SortTotal | frontend/src/utils/aggregateOrderbook.ts:30-31 | sorting keeps the total quantity |
| Ladder.WithCumulative | frontend/src/vanilla/orderbooks-app.js:150-158 | each output level keeps its price and quantity, and its cumulative is the prefix sum up to and including it |
| Ladder.WithCumulativeTotal | frontend/src/vanilla/orderbooks-app.js:150-158 | the last cumulative equals the sum of the quantities |
| Calculations.StripSymbol | frontend/src/utils/calculations.ts:18-21 | the result is the prefix of the key before its first ':', is the whole key when there is none, and never contains ':' |
| Calculations.StripSymbolIdempotent | frontend/src/utils/calculations.ts:18-21 | stripping twice is stripping once |
| Calculations.FilterByMarket | frontend/src/utils/calculations.ts:26-38 | 'all' accepts every key; 'spot' accepts iff the stripped key does not end in 'f'; 'perps' iff it does |
| Calculations.SpotAndPerpsPartition | frontend/src/utils/calculations.ts:30-37 | every key is accepted by exactly one of 'spot' and 'perps', and by 'all' |
| Calculations.IsFutures | frontend/src/utils/calculations.ts:95-98 | a key is futures iff the 'perps' filter accepts it |
| Calculations.BaseName | frontend/src/utils/calculations.ts:87-90 | the base name plus an 'f' for futures gives back the stripped key |
| Calculations.PerpsKeyExample | frontend/src/utils/calculations.ts:87-90 | "okxf:BTCUSDT" has base "okx" and is futures |
| Calculations.SpotKeyExample | frontend/src/utils/calculations.ts:87-90 | "coinbase:ETHUSDT" has base "coinbase" and is spot |
| Calculations.Includes | frontend/src/utils/calculations.ts:11 | `includes` holds iff the text occurs at some position |
| Calculations.FilterByAsset | frontend/src/utils/calculations.ts:6-12 | a key matches an asset iff it contains ':' followed by that asset's USDT pair |
| Calculations.LocaleCompareTransitive | frontend/src/utils/calculations.ts:114 | the string order used in place of `localeCompare` is transitive |
| Calculations.LocaleCompareAntisymmetric | frontend/src/utils/calculations.ts:114 | swapping the operands negates the result |
| Calculations.CompareByGroup | frontend/src/utils/calculations.ts:105-125 | the comparator answers 0 iff base and market type agree, and within one base name spot precedes futures |
| Calculations.CompareByGroupTransitive | frontend/src/utils/calculations.ts:105-125 | the grouping comparator is consistent (transitive) |
| Calculations.CompareByGroupAntisymmetric | frontend/src/utils/calculations.ts:105-125 | for any two keys, at least one of `cmp(a, b)` and `cmp(b, a)` is at most 0 |
| Calculations.GroupLeTotalPreorder | frontend/src/utils/calculations.ts:105-125 | `cmp(a, b) <= 0` is a total preorder, so the stable sort is well defined |
| Calculations.SortExchangesByGroup | frontend/src/utils/calculations.ts:104-126 | the result is a permutation ordered by the grouping comparator, with each spot entry before the futures entry of the same base |
| Calculations.MaxCumulative | frontend/src/utils/calculations.ts:63-68 | the result is at least 1 and at least every cumulative, and it is 1 or one of the cumulatives |
| AggregateOrderbook.AggregateOrderbooks | frontend/src/utils/aggregateOrderbook.ts:7-61 | the `forEach` merge loops and the conversion produce exactly the specified bid and ask ladders |
| AggregateOrderbook.MergeLevels | frontend/src/utils/aggregateOrderbook.ts:16-26 | each merge step sets the price to its previous sum (or 0) plus the quantity, which is merging all pairs seen so far |
| AggregateOrderbook.PriceLeTotalPreorder | frontend/src/utils/aggregateOrderbook.ts:30-46 | both price comparators are consistent |
| AggregateOrderbook.AggregatePricesDistinct | frontend/src/utils/aggregateOrderbook.ts:11-27 | each price text appears at most once in an output side |
| AggregateOrderbook.AggregatePricesFromInput | frontend/src/utils/aggregateOrderbook.ts:11-27 | a price text appears in an output side iff some input book has a level with that price on that side |
| AggregateOrderbook.AggregateQuantities | frontend/src/utils/aggregateOrderbook.ts:16-26 | the output quantity at a price is the sum of the input quantities at that price text |
| AggregateOrderbook.AggregateSorted | frontend/src/utils/aggregateOrderbook.ts:30-46 | bids are non-increasing and asks non-decreasing by parsed price |
| AggregateOrderbook.AggregateCumulative | frontend/src/utils/aggregateOrderbook.ts:30-58 | cumulatives are prefix sums, never decrease, and the last equals the side's total input quantity |
| AggregateOrderbook.AggregateEmpty | frontend/src/utils/aggregateOrderbook.ts:11-60 | no books give empty bids and asks |
| AggregateOrderbook.AggregateReadsOnlyPriceAndQuantity | frontend/src/utils/aggregateOrderbook.ts:16-26 | books that agree on every price and quantity aggregate alike, whatever their cumulatives |
| AggregateOrderbook.MergeExample | frontend/src/utils/aggregateOrderbook.ts:16-26 | two books with 2 and 3 at "100" give one bid level of 5 |
| Store.InitialState | frontend/src/store/useStore.ts:18-20 | empty orderbooks, empty stats, not connected |
| Store.SetOrderbooks | frontend/src/store/useStore.ts:22 | replaces the orderbooks and nothing else |
| Store.SetStats | frontend/src/store/useStore.ts:23 | replaces the stats and nothing else |
| Store.SetIsConnected | frontend/src/store/useStore.ts:24 | changes only the connection flag |
| Store.UpdateOrderbook | frontend/src/store/useStore.ts:25-31 | sets the exchange's book, keeps every other book, adds only that key, and leaves stats and the connection flag alone |
| Store.UpdateStats | frontend/src/store/useStore.ts:32-38 | sets the exchange's stats, keeps every other entry, adds only that key, and leaves orderbooks and the connection flag alone |
| Store.UpdateOrderbookLastWins | frontend/src/store/useStore.ts:25-31 | two updates of one exchange leave the second book |
| Store.UpdateStatsLastWins | frontend/src/store/useStore.ts:32-38 | two stats updates of one exchange leave the second |
| Store.UpdatesCommute | frontend/src/store/useStore.ts:25-38 | updates of different exchanges commute, and a book update commutes with any stats update |
| UseWebSocket.LatestBooksSpec | frontend/src/hooks/useWebSocket.ts:51-55 | after a run of messages, an exchange is buffered iff some orderbook message named it, and it holds the book of the last one |
| UseWebSocket.LatestStatsSpec | frontend/src/hooks/useWebSocket.ts:56-75 | the same for stats messages |
| UseWebSocket.WebSocketHook.constructor | frontend/src/hooks/useWebSocket.ts:5-11 | mounting keeps the given store, starts with empty buffers, no frame or reconnect pending and nothing sent or received, and the effect's first `connect()` leaves one socket connecting |
| UseWebSocket.WebSocketHook.Connect | frontend/src/hooks/useWebSocket.ts:38-41 | a new connecting socket becomes the current one; the store, buffers, pending frame and reconnect, and the message logs are untouched |
| UseWebSocket.WebSocketHook.BufferMessage | frontend/src/hooks/useWebSocket.ts:51-75 | an orderbook message overwrites its exchange's book entry, a stats message its stats entry, and any other message leaves both buffers |
| UseWebSocket.WebSocketHook.OnMessage | frontend/src/hooks/useWebSocket.ts:48-77 | an orderbook or stats message replaces that exchange's buffer entry, and every message, of any type, requests a frame when none is pending |
| UseWebSocket.WebSocketHook.ScheduleBatchUpdate | frontend/src/hooks/useWebSocket.ts:32-36 | a frame is requested only when the ref is unset, and later calls before the flush do nothing |
| UseWebSocket.WebSocketHook.FlushUpdates | frontend/src/hooks/useWebSocket.ts:14-30 | the store receives every buffered book and then every buffered stat; afterwards both buffers are empty and no frame is pending |
| UseWebSocket.WebSocketHook.AnimationFrame | frontend/src/hooks/useWebSocket.ts:34 | a pending frame runs the flush; without one nothing changes |
| UseWebSocket.WebSocketHook.PublishBuffers | frontend/src/hooks/useWebSocket.ts:15-27 | the store gains the book buffer and then the stats buffer; the connection flag stays |
| UseWebSocket.WebSocketHook.PublishOrderbooks | frontend/src/hooks/useWebSocket.ts:16-18 | `updateOrderbook` for every buffered exchange leaves the store's books overridden by the buffer and the rest alone |
| UseWebSocket.WebSocketHook.PublishStats | frontend/src/hooks/useWebSocket.ts:23-25 | `updateStats` for every buffered exchange leaves the store's stats overridden by the buffer and the rest alone |
| UseWebSocket.WebSocketHook.OnOpen | frontend/src/hooks/useWebSocket.ts:43-46 | the store is told the feed is connected |
| UseWebSocket.WebSocketHook.OnClose | frontend/src/hooks/useWebSocket.ts:83-87 | the store is told the feed is down and one reconnect is scheduled |
| UseWebSocket.WebSocketHook.ReconnectTimer | frontend/src/hooks/useWebSocket.ts:86 | the timer opens a fresh socket |
| UseWebSocket.WebSocketHook.Cleanup | frontend/src/hooks/useWebSocket.ts:92-106 | cancels the reconnect and the frame, closes the socket, clears both buffers without flushing, and leaves the batch ref set |
| UseWebSocket.WebSocketHook.SetTickLevel | frontend/src/hooks/useWebSocket.ts:109-113 | `set_tick` is sent only on an open socket; otherwise nothing happens |
| UseWebSocket.FlushPublishesLastBook | frontend/src/hooks/useWebSocket.ts:14-55 | after a flush the store holds, for each exchange, the last book buffered since the previous flush |
| UseWebSocket.FlushKeepsQuietBook | frontend/src/hooks/useWebSocket.ts:15-20 | an exchange with no book since the previous flush keeps its stored book |
| VanillaWebSocket.SetAdd | frontend/src/vanilla/websocket-manager.js:126-130 | `Set.add` makes the listener a member, keeps the others, adds no duplicate, and changes nothing for a present member |
| VanillaWebSocket.SetDelete | frontend/src/vanilla/websocket-manager.js:132-136 | `Set.delete` removes exactly that listener |
| VanillaWebSocket.SetDeleteUndoesAdd | frontend/src/vanilla/websocket-manager.js:126-136 | removing a listener that was just added gives back the old set |
| VanillaWebSocket.SetAddIdempotent | frontend/src/vanilla/websocket-manager.js:126-130 | registering the same callback twice is registering it once |
| VanillaWebSocket.SetDeleteAbsent | frontend/src/vanilla/websocket-manager.js:132-136 | removing an unregistered callback changes nothing |
| VanillaWebSocket.EventOf | frontend/src/vanilla/websocket-manager.js:126-136 | only 'orderbook', 'stats' and 'connection' name a listener set |
| VanillaWebSocket.WebSocketManager.constructor | frontend/src/vanilla/websocket-manager.js:7-27 | empty buffers and listener sets, tick 1, and connecting (or a reconnect pending when the socket cannot be built) |
| VanillaWebSocket.WebSocketManager.Connect | frontend/src/vanilla/websocket-manager.js:29-85 | a new socket becomes current, or a failed construction schedules a reconnect |
| VanillaWebSocket.WebSocketManager.OnOpen | frontend/src/vanilla/websocket-manager.js:33-37 | connected, and every connection listener is told `true` in order |
| VanillaWebSocket.WebSocketManager.OnMessage | frontend/src/vanilla/websocket-manager.js:39-69 | an orderbook or stats message replaces that exchange's buffer entry and schedules a batch; any other message changes nothing |
| VanillaWebSocket.WebSocketManager.ScheduleBatchUpdate | frontend/src/vanilla/websocket-manager.js:87-92 | a frame is requested only when no batch is scheduled |
| VanillaWebSocket.WebSocketManager.FlushUpdates | frontend/src/vanilla/websocket-manager.js:94-117 | a non-empty book buffer goes, as a whole, to every orderbook listener in order, then a non-empty stats buffer to every stats listener; the buffers end empty and no batch is scheduled |
| VanillaWebSocket.WebSocketManager.AnimationFrame | frontend/src/vanilla/websocket-manager.js:90 | a pending frame runs the flush; without one nothing changes |
| VanillaWebSocket.WebSocketManager.FlushCalls | frontend/src/vanilla/websocket-manager.js:98-109 | the calls of one flush: books to the orderbook listeners if any are buffered, then stats to the stats listeners if any are |
| VanillaWebSocket.WebSocketManager.CallBookListeners | frontend/src/vanilla/websocket-manager.js:101 | each orderbook listener receives the same copy once, in insertion order |
| VanillaWebSocket.WebSocketManager.CallStatsListeners | frontend/src/vanilla/websocket-manager.js:108 | each stats listener receives the same copy once, in insertion order |
| VanillaWebSocket.WebSocketManager.SetTickLevel | frontend/src/vanilla/websocket-manager.js:119-124 | the tick is stored, and `set_tick` is sent only on an open socket |
| VanillaWebSocket.WebSocketManager.On | frontend/src/vanilla/websocket-manager.js:126-130 | the callback joins the named set; an unknown event changes nothing |
| VanillaWebSocket.WebSocketManager.Off | frontend/src/vanilla/websocket-manager.js:132-136 | the callback leaves the named set; an unknown event changes nothing |
| VanillaWebSocket.WebSocketManager.NotifyConnectionListeners | frontend/src/vanilla/websocket-manager.js:138-140 | every connection listener is called once, in insertion order, with the flag |
| VanillaWebSocket.WebSocketManager.OnClose | frontend/src/vanilla/websocket-manager.js:75-80 | disconnected, listeners told `false`, and one reconnect scheduled |
| VanillaWebSocket.WebSocketManager.ReconnectTimer | frontend/src/vanilla/websocket-manager.js:78-79 | the timer runs `connect()` once |
| VanillaWebSocket.WebSocketManager.Destroy | frontend/src/vanilla/websocket-manager.js:142-152 | cancels the reconnect, closes the socket, and empties all three listener sets; the buffers and the scheduled frame stay |
| VanillaUtils.FilterByMarket | frontend/src/vanilla/utils.js:23-28 | 'spot' accepts iff the key does not end in 'f', 'perps' iff it does, and every other filter accepts all |
| VanillaUtils.SpotAndPerpsPartition | frontend/src/vanilla/utils.js:23-28 | every key is accepted by exactly one of 'spot' and 'perps' |
| VanillaUtils.NoSymbolStripping | frontend/src/vanilla/utils.js:25-26 | the vanilla filter looks at the whole key: "okxf:BTCUSDT" counts as spot here but as perps in the React helper |
| VanillaUtils.MarketType | frontend/src/vanilla/utils.js:69-71 | 'Perps' iff the 'perps' filter accepts the key, 'Spot' iff the 'spot' filter does |
| VanillaUtils.IconName | frontend/src/vanilla/utils.js:49-67 | the name of the first of binance, bybit, coinbase, kraken, okx, bitfinex that the lower-cased key contains, or the key itself |
| VanillaUtils.IconNameExamples | frontend/src/vanilla/utils.js:52-61 | "okxf" is shown as OKX and "binance" as Binance |
| VanillaUtils.UnlistedRank | frontend/src/vanilla/utils.js:31-44 | a name without a space is not in the rank table and ranks 999 |
| VanillaUtils.TableNamesHaveSpace | frontend/src/vanilla/utils.js:31-40 | every name in the rank table contains a space |
| VanillaUtils.RankLeTotalPreorder | frontend/src/vanilla/utils.js:42-46 | `aGroup - bGroup` is a consistent comparator |
| VanillaUtils.SortExchangesByGroupAsWritten | frontend/src/vanilla/utils.js:30-47 | the array is sorted in place by the rank of the key itself |
| VanillaUtils.AsWrittenKeepsOrder | frontend/src/vanilla/utils.js:42-46 | as written, keys without spaces all rank 999, so the sort keeps the input order |
| VanillaUtils.SortExchangesByGroup | frontend/src/vanilla/utils.js:30-47 | corrected: the array is sorted in place by the rank of the exchange's card label |
| VanillaUtils.GroupOrderSpec | frontend/src/vanilla/utils.js:30-47 | the corrected order is a permutation with label ranks never decreasing |
| VanillaUtils.LabelExamples | frontend/src/vanilla/utils.js:32-39 | "okx" ranks 7 (OKX Spot) and "binance" ranks 1 (Binance Spot) |
| VanillaUtils.GroupOrderFinding | frontend/src/vanilla/utils.js:42-45 | ["okx", "binance"] stays put as written and becomes ["binance", "okx"] as intended |
| VanillaUtils.MaxCumulative | frontend/src/vanilla/utils.js:18-21 | 0 for a missing or empty ladder, otherwise the largest cumulative |
| VanillaUtils.ForwardedSpacing | frontend/src/vanilla/utils.js:81-89 | forwarded calls are at least `delay` after the previous forwarded one (or after the start) |
| VanillaUtils.ForwardedSnoc | frontend/src/vanilla/utils.js:85-88 | a new call is forwarded iff it is at least `delay` after the last forwarded call |
| VanillaUtils.Throttle.constructor | frontend/src/vanilla/utils.js:81-82 | `lastCall` starts at 0 with the given delay, and nothing has been forwarded |
| VanillaUtils.Throttle.Call | frontend/src/vanilla/utils.js:83-89 | forwards iff `now - lastCall >= delay`, and only a forwarded call moves `lastCall` |
| OrderbooksApp.ShownSpec | frontend/src/vanilla/orderbooks-app.js:101-102 | the aggregate reads exactly the books whose keys the market filter accepts |
| OrderbooksApp.UpdateAggregate | frontend/src/vanilla/orderbooks-app.js:95-135 | the loop, the two ladders and the summary give the specified aggregate of the shown books |
| OrderbooksApp.MergeShownBooks | frontend/src/vanilla/orderbooks-app.js:101-117 | the per-side Maps are the merge of the shown books' levels by parsed price, and the running totals are their total quantities |
| OrderbooksApp.MergeNumLevels | frontend/src/vanilla/orderbooks-app.js:104-116 | each level adds its quantity at its parsed price and to the running total |
| OrderbooksApp.MergeBook | frontend/src/vanilla/orderbooks-app.js:104-116 | one shown book adds its bids to the bid Map and total, then its asks to the ask Map and total |
| OrderbooksApp.AggregateAndCalculateCumulative | frontend/src/vanilla/orderbooks-app.js:146-159 | the entries are sorted descending for 'desc' and ascending otherwise, and the cumulative is the running prefix sum |
| OrderbooksApp.NumLeTotalPreorder | frontend/src/vanilla/orderbooks-app.js:148 | the numeric price comparator is consistent in both directions |
| OrderbooksApp.AggregateTotals | frontend/src/vanilla/orderbooks-app.js:98-135 | the total of a non-empty side is its last cumulative; totalDelta is bids minus asks; spread is bestAsk minus bestBid |
| OrderbooksApp.AggregateMergesEqualPrices | frontend/src/vanilla/orderbooks-app.js:104-116 | each parsed price appears once per side, exactly the input prices appear, and the quantity is the sum at that price |
| OrderbooksApp.AggregateSorted | frontend/src/vanilla/orderbooks-app.js:119-120 | aggregated bids are non-increasing and asks non-decreasing by price |
| OrderbooksApp.BestPricesBound | frontend/src/vanilla/orderbooks-app.js:122-123 | the best bid is at least every shown bid price and the best ask at most every shown ask price |
| OrderbooksApp.MergeByValueExample | frontend/src/vanilla/orderbooks-app.js:105-107 | "100" and "100.0" merge into one bid of 5 |
| OrderbooksApp.AssignKeys | frontend/src/vanilla/orderbooks-app.js:41-42 | after the copy, the keys are the old keys plus the batch keys |
| OrderbooksApp.AssignUntouched | frontend/src/vanilla/orderbooks-app.js:41-42 | a key not in the batch keeps its value |
| OrderbooksApp.AssignLast | frontend/src/vanilla/orderbooks-app.js:41-42 | a batch key holds its last value in the batch |
| OrderbooksApp.AddKeysSpec | frontend/src/vanilla/orderbooks-app.js:42 | Map insertion order: old keys keep their places, and new keys follow once each |
| OrderbooksApp.OrderbooksPage.constructor | frontend/src/vanilla/orderbooks-app.js:11-16 | empty maps, the saved filter or 'all', aggregate off |
| OrderbooksApp.OrderbooksPage.HandleOrderbookUpdates | frontend/src/vanilla/orderbooks-app.js:40-52 | every batch entry is copied in, and the aggregate is rebuilt when it is shown |
| OrderbooksApp.OrderbooksPage.HandleStatsUpdates | frontend/src/vanilla/orderbooks-app.js:54-58 | every batch entry is copied into the stats; nothing else changes |
| OrderbooksApp.OrderbooksPage.UpdateMarketFilter | frontend/src/vanilla/orderbooks-app.js:186-192 | the filter is replaced |
| OrderbooksApp.OrderbooksPage.ToggleAggregate | frontend/src/vanilla/orderbooks-app.js:204-217 | flips the flag and, when it turns on, builds the aggregate |
| StatsTable.FilteredKeysSpec | frontend/src/vanilla/components/stats-table.js:95-97 | a key survives the filter iff it is a stats key that the market filter accepts; keys stay distinct |
| StatsTable.DisplayAsWrittenRows | frontend/src/vanilla/components/stats-table.js:95-125 | as written, the table shows exactly the accepted exchanges, each once, each next to its own stats |
| StatsTable.DisplayAsWrittenColumnOrder | frontend/src/vanilla/components/stats-table.js:106-114 | as written, with a sort column, rows ascend by `getSortValue` as written, or descend for 'desc' |
| StatsTable.DisplayAsWrittenKeepsOrder | frontend/src/vanilla/components/stats-table.js:95-114 | as written, with no sort column or the 'exchange' column, the rows keep the order of the stats object's keys |
| StatsTable.DisplayFinding | frontend/src/vanilla/components/stats-table.js:95-114 | stats {okx, binance}, filter 'all', no sort column: as written OKX stays on top; as intended Binance comes first |
| StatsTable.DisplayRows | frontend/src/vanilla/components/stats-table.js:95-125 | corrected: the intended table shows the same exchanges, each once, each next to its own stats |
| StatsTable.DisplayColumnOrder | frontend/src/vanilla/components/stats-table.js:106-114 | corrected: with a sort column, rows ascend by the intended sort value, or descend for 'desc' |
| StatsTable.ColumnLeAsWrittenTotalPreorder | frontend/src/vanilla/components/stats-table.js:107-113 | the comparator as written, negated or not, is consistent |
| StatsTable.ColumnLeTotalPreorder | frontend/src/vanilla/components/stats-table.js:107-113 | the intended comparator, negated or not, is consistent |
| StatsTable.SortValueAsWritten | frontend/src/vanilla/components/stats-table.js:133-136 | 'exchange' yields `stat.exchange` (undefined for these objects); any other column yields its number, or 0 |
| StatsTable.SortValue | frontend/src/vanilla/components/stats-table.js:133-136 | corrected: 'exchange' yields the row's exchange key; any other column yields its number, or 0 |
| StatsTable.Compare | frontend/src/vanilla/components/stats-table.js:111 | -1, 0 or 1 by `<` and `>`; 0 whenever a side is undefined |
| StatsTable.ExchangeColumnAsWrittenKeepsOrder | frontend/src/vanilla/components/stats-table.js:106-136 | as written, sorting by 'exchange' never changes the order |
| StatsTable.ExchangeColumnFinding | frontend/src/vanilla/components/stats-table.js:134 | rows okx, binance stay put as written and become binance, okx as intended |
| StatsTable.DeltaClass | frontend/src/vanilla/components/stats-table.js:178-183 | 'positive' iff above 0, 'negative' iff below 0, 'neutral' iff 0 |
| StatsTable.DeltaClassNegate | frontend/src/vanilla/components/stats-table.js:178-183 | negating a value swaps 'positive' and 'negative' |
| StatsTable.NextSort | frontend/src/vanilla/components/stats-table.js:73-78 | a click on the current column flips the direction; on another column it selects that column, ascending |
| StatsTable.NextSortTwice | frontend/src/vanilla/components/stats-table.js:73-78 | two clicks on the sorted column restore its direction |
| StatsTable.StatsTableView.constructor | frontend/src/vanilla/components/stats-table.js:9-16 | no stats, filter 'all', no sort column, ascending, no rows |
| StatsTable.StatsTableView.SetFilter | frontend/src/vanilla/components/stats-table.js:22-25 | the filter is replaced and the table redrawn as written; `rowElements` holds exactly the stats keys the new filter accepts |
| StatsTable.StatsTableView.SetStats | frontend/src/vanilla/components/stats-table.js:27-30 | the stats are replaced and the table redrawn as written; `rowElements` holds exactly the new keys the filter accepts |
| StatsTable.StatsTableView.HandleSort | frontend/src/vanilla/components/stats-table.js:72-89 | the sort moves as `NextSort` says, then the table is redrawn as written |
| StatsTable.StatsTableView.Update | frontend/src/vanilla/components/stats-table.js:91-131 | the rows are the table as written (`DisplayAsWritten`), and `rowElements` has exactly the accepted stats keys as keys |
| StatsTable.OrderedNames | frontend/src/vanilla/components/stats-table.js:100 | the filtered keys come back sorted by `sortExchangesByGroup` as written, which ranks each key itself |
| StatsTable.SortRows | frontend/src/vanilla/components/stats-table.js:107-113 | the rows come back in the stable order of the column comparator with `getSortValue` as written |
| StatsTable.RowKeys | frontend/src/vanilla/components/stats-table.js:121-125 | the registered keys are exactly the rows' exchanges |
| BitfinexSpot.FormatSymbol | internal/exchange/bitfinex/spot.go:72-80 | the result starts with 't' and follows it with the symbol; the final character is dropped exactly when the symbol has at least 6 characters and ends in "USDT" |
| BitfinexSpot.FormatSymbolInverse | internal/exchange/bitfinex/spot.go:72-80 | a shortened symbol ends in "USD", and putting back the "T" restores the configured symbol |
| BitfinexSpot.FormatSymbolExamples | internal/exchange/bitfinex/spot.go:71-79 | BTCUSDT becomes tBTCUSD; ETHBTC and USDT only gain the 't' |
| BitfinexSpot.AbsFloat | internal/exchange/bitfinex/spot.go:465-470 | never negative, and equal to x or -x |
| BitfinexSpot.AbsFloatSymmetric | internal/exchange/bitfinex/spot.go:465-470 | x and -x have the same absolute value, which is 0 only for 0 |
| BitfinexSpot.Truncate | internal/exchange/bitfinex/spot.go:275 | Go's `int(f)` drops the fraction toward zero |
| BitfinexSpot.ParseEntry | internal/exchange/bitfinex/spot.go:337-347 | an entry is well formed iff it has at least three elements and the first three are numbers |
| BitfinexSpot.Dispatch | internal/exchange/bitfinex/spot.go:261-294 | a frame is ignored unless it has two elements, a numeric channel that truncates to the subscribed id, and a non-empty data array; then an array first element means a snapshot, anything else a single update |
| BitfinexSpot.DispatchIgnores | internal/exchange/bitfinex/spot.go:275-293 | heartbeats and frames for other channels are ignored |
| BitfinexSpot.DispatchTruncatesChannel | internal/exchange/bitfinex/spot.go:266-277 | the channel is compared after truncation (17.9 matches 17, and -0.5 matches 0) |
| BitfinexSpot.SnapshotSideSpec | internal/exchange/bitfinex/spot.go:301-329 | a snapshot side holds a price iff some well-formed item with that sign has it, and amounts are never negative |
| BitfinexSpot.SnapshotIsConverted | internal/exchange/bitfinex/spot.go:297-462 | the map `handleSnapshot` builds is the list `convertSnapshot` makes, entered into a map in order |
| BitfinexSpot.ToMapSpec | internal/exchange/bitfinex/spot.go:322-328 | filling a map holds each listed price with its last listed amount |
| BitfinexSpot.ConvertSideOrigin | internal/exchange/bitfinex/spot.go:423-451 | each listed level is the price and absolute amount of a well-formed item with that sign |
| BitfinexSpot.ConvertSideComplete | internal/exchange/bitfinex/spot.go:423-451 | every well-formed item is listed on its side |
| BitfinexSpot.ConvertSidesSplit | internal/exchange/bitfinex/spot.go:439-451 | every well-formed item lands on exactly one side, with no merging: the two lists together are as long as the well-formed items |
| BitfinexSpot.ApplyEntrySpec | internal/exchange/bitfinex/spot.go:354-371 | count 0 deletes the price from the side its amount's sign names; otherwise it sets the absolute amount there; the other side and other prices are untouched |
| BitfinexSpot.AddThenDelete | internal/exchange/bitfinex/spot.go:354-371 | adding a new level and then deleting it on the same side gives back the book |
| BitfinexSpot.SpotExchange.constructor | internal/exchange/bitfinex/spot.go:41-69 | formatted symbol, channel 0, empty books, no updates |
| BitfinexSpot.SpotExchange.HandleEventMessage | internal/exchange/bitfinex/spot.go:244-257 | only "subscribed" changes state, by taking the message's channel id |
| BitfinexSpot.SpotExchange.HandleUpdateMessage | internal/exchange/bitfinex/spot.go:260-294 | ignored frames change nothing; snapshots replace the book; updates apply one entry; applied frames advance the update ID |
| BitfinexSpot.SpotExchange.HandleSnapshot | internal/exchange/bitfinex/spot.go:297-333 | the old book is discarded, the snapshot sides are built from the well-formed items, and one update is emitted |
| BitfinexSpot.SpotExchange.HandleUpdate | internal/exchange/bitfinex/spot.go:336-374 | a malformed entry changes neither the book nor the update ID; a well-formed one is applied and emitted |
| BitfinexSpot.SpotExchange.SendUpdate | internal/exchange/bitfinex/spot.go:394-415 | the update ID goes up by 1 even when the send is dropped; an emitted update has First = Final = the new ID and Prev one less, and IDs stay strictly increasing |
| BitfinexSpot.SpotExchange.ConvertSnapshot | internal/exchange/bitfinex/spot.go:419-462 | the loop lists each well-formed item on its side, in input order |

## Left out

- Rendering: DOM, React components, canvas charts, row markup, header classes and the card elements are not modelled. The stats table's `rowElements` is modelled by its key set.
- Transport: constructing the `WebSocket`, `JSON.parse` and `JSON.stringify`, `requestAnimationFrame`, `setTimeout` and their cancellation are modelled as fields and event methods. A frame that fails to parse is outside the model.
- Floating point: `parseFloat` is a parameter. NaN, `|| 0`, `toString` and `strconv.FormatFloat` are not modelled. Prices and quantities are real numbers.
- BitfinexSpot: the maps are keyed by the price number, not its `FormatFloat` text. This merges -0 and 0, which Go keeps as two keys.
- BitfinexSpot: Go's 64-bit `int` and `int64` (the channel id and `lastUpdateID`) are unbounded. An out-of-range `int(f)` is not modelled.
- BitfinexSpot: networking and concurrency are left out: `Connect`, `Close`, `GetSnapshot`'s HTTP request, the `readMessages` goroutine, locks, health counters, logging and timestamps. `readMessages` only routes to the handlers that are modelled.
- BitfinexSpot.FormatSymbol: the `len(symbol) >= 6` test counts characters, while Go's `len` counts UTF-8 bytes. The two agree on ASCII symbols. "éUSDT" (6 bytes, 5 characters) is shortened by Go but not by the model.
- BitfinexSpot.DepthUpdate and BitfinexSpot.SpotExchange.ConvertSnapshot: the constant fields are not carried. These are the update's `Exchange`, `Symbol` and `EventTime`, and the snapshot's `Exchange`, `Symbol`, `LastUpdateID: 0` and `Timestamp`. `ConvertSnapshot` yields only the two level lists.
- BitfinexSpot.DepthUpdate: level order comes from Go's map iteration, which is unspecified, so an emitted update carries its sides as maps.
- Calculations.LocaleCompare: `localeCompare` is modelled as lexicographic order on Unicode code points, without locale collation.
- StatsTable.Compare: texts are compared by code points as well, while JavaScript's `<` compares UTF-16 code units. The two orders agree below U+10000 and can differ when a text holds a character above U+FFFF, whose surrogate pair sorts below U+E000 to U+FFFF in UTF-16 order.
- VanillaUtils.Lower: `toLowerCase` is modelled on ASCII letters only.
- VanillaUtils: the rank table is looked up with a plain key. A key that names an `Object.prototype` member, such as "constructor", is not modelled.
- VanillaWebSocket.WebSocketManager.On: does not model the TypeError for an `Object.prototype` member name. For "constructor", "toString" or "__proto__", `this.listeners[event]` finds a truthy value that is not a `Set`, so the code throws; the model leaves the listener sets as they were.
- VanillaWebSocket.WebSocketManager.Off: does not model the TypeError for an `Object.prototype` member name. For "constructor", "toString" or "__proto__", `this.listeners[event]` finds a truthy value that is not a `Set`, so the code throws; the model leaves the listener sets as they were.
- `calculateReferenceMidPrice`, `formatNumber`, `formatLargeNumber`, `formatPrice`, `formatQuantity` and `debounce` are presentation or timer plumbing and are not modelled. `platform.ts` and the build configuration are not part of this model.
- VanillaUtils.Throttle.Call: the clock is passed in as `now`, and calling the wrapped function is the `true` result.
- UseWebSocket.WebSocketHook, VanillaWebSocket.WebSocketManager and Store.StoreState: the buffers `orderbookBuffer` and `statsBuffer` and the store's `orderbooks` and `stats` are maps, so the insertion order of the JavaScript `Map`s and objects is lost. In the React page that order decides the order in which `Object.values(orderbooks)` lists the books. That in turn decides how equal-valued price texts such as "100" and "100.0" tie in the aggregate; `AggregateOrderbook` takes the books as a sequence in whatever order it is given. In the vanilla page the manager's batch order decides the order of new keys in `OrderbooksApp`'s key list and in the stats object the table keeps. The model tracks that order from the handed-over batch onward (`HandleOrderbookUpdates` and `HandleStatsUpdates` take ordered entries), not how the manager's buffer produces it.
- StatsTable: the stats object's entries are taken in insertion order. JavaScript's `Object.entries` lists integer-like keys first, in ascending numeric order; the model does not, which matters only for an exchange key such as "42".
- Listener callbacks are opaque: a delivery records the listener and its payload. A listener that re-enters the manager is not modelled.
- UseWebSocket.WebSocketHook.OnClose and VanillaWebSocket.WebSocketManager.OnClose: the `onclose` handler stays attached after teardown. A close that teardown itself starts can therefore still schedule a reconnect; the model allows this, as the code does.
- Logging (`console.*`, `log.Printf`) and `performance.now` timing warnings are not modelled.

## Findings

| source | as written | input that shows it | evidently intended | confidence | as-written member | corrected member |
|---|---|---|---|---|---|---|
| frontend/src/vanilla/utils.js:42-45 | The rank table is keyed by card labels such as 'Binance Spot', but it is looked up with the raw exchange keys. Every key therefore ranks 999, and the sort keeps the input order. | `["okx", "binance"]` stays `["okx", "binance"]` | Rank each exchange by its card label (`getExchangeIcon(k).name + ' ' + getMarketType(k)`), giving `["binance", "okx"]` | not executed | VanillaUtils.SortExchangesByGroupAsWritten, VanillaUtils.GroupOrderFinding, StatsTable.DisplayFinding | VanillaUtils.SortExchangesByGroup, StatsTable.Display |
| frontend/src/vanilla/components/stats-table.js:134 | The 'exchange' column sorts by `stat.exchange`, a field the stats objects never have (frontend/src/vanilla/websocket-manager.js:48-65 builds them without it). Every value is undefined, every comparison is 0, and the sort changes nothing. | rows `okx`, `binance` sorted by 'exchange' ascending stay `okx`, `binance` | Sort by the row's exchange key, giving `binance`, `okx` | not executed | StatsTable.ExchangeColumnAsWrittenKeepsOrder, StatsTable.ExchangeColumnFinding | StatsTable.SortValue, StatsTable.DisplayColumnOrder |
