# Order book depth feed: ingestion and analytics

This project models the frame-ingestion and analytics logic of the `OrderBook`
React component of a live crypto order-book viewer, and proves properties of
that model in Dafny.

The component subscribes to a venue's top-20 partial depth stream for one
trading pair. On every socket message it does four things:

1. It parses the frame and maps each raw `[price, quantity]` pair of both sides
   to a `{price, amount, total}` level.
2. It fills in each level's `total` in place as the running sum of that side's
   amounts.
3. It publishes the new book.
4. It samples two indicators into bounded histories. The spread percentage of
   the best ask and best bid goes into a 30-entry history. The bid/ask volume
   imbalance goes into a 100-entry history.

A malformed frame throws before the book is published and is caught and logged, so it
changes nothing. A pair switch clears the book and both histories.

Modules, one per concern of the component:

- `Numbers` (`numbers.dfy`): the JavaScript numbers the analytics produce. A
  division by zero gives NaN or an infinity, not an exception.
  `parseFloat(x.toFixed(4))` is modelled as rounding to four decimals, ties
  away from zero.
- `Depth` (`depth.dfy`): the raw frame, the per-level `map`, the side sums,
  the running totals (a specification function and the in-place loop), and the
  book a frame yields.
- `Metrics` (`metrics.dfy`): spread and imbalance samples, `slice(-n)`, the two
  history updaters, and their first-in-first-out properties.
- `OrderBookComponent` (`orderbook.dfy`): the `TRADING_PAIRS` table and the
  component as a class. Its fields are `selectedPair`, `orderbook`,
  `spreadHistory`, `imbalanceHistory` and `isLoading`. Its handlers are
  `OnMessage` and `HandlePairChange`.

Representation:

- Prices are integers in hundredths. This matches `toFixed(2)`.
- Amounts and totals are integers in ten-thousandths. This matches `toFixed(4)`.
- Spread percentages and imbalance ratios are `real`s, wrapped in `Num` so that
  NaN and the infinities stay explicit.
- The two timestamps (`toLocaleTimeString()` for spread samples,
  `toISOString()` for imbalance samples) are opaque strings passed to
  `OnMessage`.

The class keeps two ghost logs: every spread sample and every imbalance sample
taken since the last pair switch. Its invariant says that each history is the
newest 30 (or 100) entries of its log, in arrival order.

Behaviour of the code worth noting:

- Every frame handed to `OnMessage` is applied. Frames carry no generation id,
  and nothing filters out frames of a previous pair.
- A book with a zero total volume is not skipped. It appends a NaN imbalance
  sample. If the two totals sum to zero but are not both zero, the sample is an
  infinity.
- An empty side does not skip the imbalance sample. Only the spread sample needs
  both best levels.
- `isLoading` is set and cleared within `handlePairChange`, so no "switching"
  state that blocks pair changes is ever observable. The invariant states
  `!isLoading`.
- Reconnection is not cancellable. That part is transport code and is left out
  below.

## Model

| member | source | states |
|---|---|---|
| `Numbers.Quotient` | src/components/orderbook/Orderbook.tsx:104 | division gives a finite value exactly when the denominator is non-zero, and that value times the denominator is the numerator; 0/0 gives NaN; n/0 gives an infinity with the sign of n |
| `Numbers.RoundHalfAway` | src/components/orderbook/Orderbook.tsx:108 | the digit rounding inside `toFixed` gives an integer within 1/2 of its argument with the argument's sign, and a tie goes away from zero |
| `Numbers.Round4` | src/components/orderbook/Orderbook.tsx:108 | `parseFloat(x.toFixed(4))` on a finite x is a multiple of 1/10000 within 1/20000 of x; it keeps x's sign and keeps values in [-1, 1] inside [-1, 1] |
| `Numbers.RoundNum` | src/components/orderbook/Orderbook.tsx:108 | a finite imbalance stays finite and moves by at most 1/20000; NaN and the infinities survive the round trip through text unchanged |
| `Depth.Normalise` | src/components/orderbook/Orderbook.tsx:56-67 | the per-pair `map` succeeds exactly when no entry is `null`; it then keeps length and order, and level i holds raw pair i's price and amount with a zero total |
| `Depth.RunningTotals` | src/components/orderbook/Orderbook.tsx:70-78 | filling in totals keeps each side's length, and each level's price and amount |
| `Depth.FillTotals` | src/components/orderbook/Orderbook.tsx:70-78 | the side-effecting `reduce` leaves the array equal to the side with running totals filled in |
| `Depth.RunningTotalsRecurrence` | src/components/orderbook/Orderbook.tsx:70-78 | the first level's total is its own amount; every later total is the previous total plus its own amount |
| `Depth.RunningTotalsMonotone` | src/components/orderbook/Orderbook.tsx:70-78 | with non-negative amounts, totals never decrease moving away from the best level |
| `Depth.RunningTotalsIdempotent` | src/components/orderbook/Orderbook.tsx:70-78 | a side whose totals were filled in is left unchanged by filling them in again (the book invariant `Cumulative`) |
| `Depth.LastTotalIsSideSum` | src/components/orderbook/Orderbook.tsx:102-103 | the deepest level's total equals the side sum `bidTotal`/`askTotal` that the imbalance uses |
| `Depth.SumAmountsOnlyReadsAmounts` | src/components/orderbook/Orderbook.tsx:102-103 | the side sum depends only on the amounts, so it is the same before and after totals are filled in |
| `Depth.SumAmounts` | src/components/orderbook/Orderbook.tsx:102-103 | the side sum `reduce((acc, bid) => acc + parseFloat(bid.amount), 0)` of non-negative amounts is non-negative, and of non-positive amounts non-positive |
| `Depth.Snapshot` | src/components/orderbook/Orderbook.tsx:52-78 | a frame yields a book exactly when it parses, has both arrays and has no `null` entry; the book keeps each side's length and order, pairs prices and amounts by index, and carries running totals |
| `Metrics.TakeLast` | src/components/orderbook/Orderbook.tsx:110 | `slice(-n)` keeps min(length, n) elements |
| `Metrics.TakeLastSuffix` | src/components/orderbook/Orderbook.tsx:95 | the elements `slice(-n)` keeps are the last ones of the input, in order |
| `Metrics.PushSpread` | src/components/orderbook/Orderbook.tsx:89-98 | the updated spread history has 1 to 30 entries and ends with the new sample; below 30 it is the old history plus the sample; at 30 only the oldest entry is dropped |
| `Metrics.PushImbalance` | src/components/orderbook/Orderbook.tsx:105-111 | the updated imbalance history has 1 to 100 entries and ends with the new sample; below 100 it is the old history plus the sample; at 100 only the oldest entry is dropped |
| `Metrics.PushSpreadKeepsNewest` | src/components/orderbook/Orderbook.tsx:89-98 | if the spread history is the newest 30 samples of a log, then after one update it is the newest 30 of the log plus the new sample |
| `Metrics.PushImbalanceKeepsNewest` | src/components/orderbook/Orderbook.tsx:105-111 | if the imbalance history is the newest 100 samples of a log, then after one update it is the newest 100 of the log plus the new sample |
| `Metrics.SpreadPercent` | src/components/orderbook/Orderbook.tsx:84-87 | the spread percentage is finite exactly when the best ask price is non-zero, and then it times the ask equals (ask − bid) × 100; with a zero ask it is NaN exactly when the bid is zero too, and otherwise an infinity, negative exactly when the bid is positive |
| `Metrics.SpreadPercentRange` | src/components/orderbook/Orderbook.tsx:84-87 | with a positive ask and a non-negative bid, an uncrossed book has a spread in [0, 100] percent and a crossed book a negative spread |
| `Metrics.Imbalance` | src/components/orderbook/Orderbook.tsx:102-110 | the imbalance is finite exactly when the totals do not sum to zero, and NaN exactly when both totals are zero; a finite value is within 1/20000 of (bid − ask) / (bid + ask); an infinity is negative exactly when the bid total is the smaller |
| `Metrics.ImbalanceInRange` | src/components/orderbook/Orderbook.tsx:298 | with non-negative amounts and some volume, the imbalance is finite and lies in [-1, 1], the chart axis's domain |
| `OrderBookComponent.CatalogDistinct` | src/components/orderbook/Orderbook.tsx:7-12 | no two rows of the pair table share a display symbol |
| `OrderBookComponent.Ingest` | src/components/orderbook/Orderbook.tsx:52-78 | parsing, mapping and the in-place totals yield exactly the book `Snapshot` describes, or nothing when the handler would throw |
| `OrderBookComponent.OrderBook.constructor` | src/components/orderbook/Orderbook.tsx:15-19 | the initial state is the first catalog pair, an empty book, empty histories and not loading |
| `OrderBookComponent.OrderBook.HandlePairChange` | src/components/orderbook/Orderbook.tsx:23-36 | a pair change selects the requested pair, empties both book sides and both histories, and leaves `isLoading` false |
| `OrderBookComponent.OrderBook.OnMessage` | src/components/orderbook/Orderbook.tsx:51-115 | a frame that fails to parse, lacks `bids` or `asks`, or holds a `null` entry leaves the book, both histories, the pair, the loading flag and both sample logs unchanged; an accepted frame is published as `Publish` states |
| `OrderBookComponent.OrderBook.Publish` | src/components/orderbook/Orderbook.tsx:80-111 | an accepted book replaces the old one even with an empty side; a spread sample is appended only when both best levels exist; one imbalance sample is always appended; each sample taken is also appended to its log, so each history stays the newest 30 or 100 samples since the last pair switch, and the histories stay within 30 and 100 |
| `OrderBookComponent.OrderBook.SampleSpread` | src/components/orderbook/Orderbook.tsx:89-98 | the spread updater appends the sample to the spread log, keeps the history equal to the newest 30 logged samples, and leaves the book, the imbalance history and log, the pair and the loading flag unchanged |
| `OrderBookComponent.OrderBook.SampleImbalance` | src/components/orderbook/Orderbook.tsx:105-111 | the imbalance updater appends the sample to the imbalance log, keeps the history equal to the newest 100 logged samples, and leaves the book, the spread history and log, the pair and the loading flag unchanged |
| `OrderBookComponent.WorkedExample` | src/components/orderbook/Orderbook.tsx:56-110 | bids 100.00×2, 99.50×1 and asks 100.50×1.5, 101.00×0.5 give totals 2, 3 and 1.5, 2; a spread of 0.50/100.50 × 100 percent; and an imbalance of exactly 0.2 |

## Left out

- WebSocket creation, `onopen`, `onerror`, `onclose`, the 3000 ms reconnect timers, and the effect's cleanup (src/components/orderbook/Orderbook.tsx:39-141). These are asynchronous transport code.
- The closing of the old socket in `handlePairChange` is also transport code. Its `onclose` schedules a reconnect to the pair captured when that socket was opened, and nothing cancels it. Frames from such a connection would reach `OnMessage` and be applied like any other frame.
- The endpoint URL built from `wsSymbol` is not modelled. It is plumbing.
- The effect's early return while `isLoading` holds is not modelled. `isLoading` is never true between handlers.
- Text-to-number parsing of prices and quantities is not modelled. Raw entries carry fixed-point integers already at the display precision. Rounding of more precise text by `toFixed`, non-numeric text (which gives a "NaN" level), and entries that are neither a pair nor `null` are not modelled.
- Floating-point error is not modelled. Sums are exact integers, and spread and imbalance are computed on exact reals. The four-decimal rounding of the imbalance is modelled on reals.
- Console logging is not modelled: the `console.warn` in the message handler's catch block (src/components/orderbook/Orderbook.tsx:113) and the `console.log` calls of `onopen` and `onclose` have no effect on state.
- Timestamps come from the clock. They are opaque string parameters of `OnMessage`.
- React's state batching is not modelled. The three state updates of one message are applied in order, at once.
- Scroll handling, the displayed spread, and all JSX and chart rendering (src/components/orderbook/Orderbook.tsx:143-380) are presentation only.
- src/components/orderbook/LoadingCandles.tsx and src/app/page.tsx hold markup only, with no logic.
- Metrics.TakeLast: its contract states only the length. The suffix property is a separate lemma, `TakeLastSuffix`, to keep the handlers' proofs small.
