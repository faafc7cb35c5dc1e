/** The `OrderBook` component's state and its two state-changing handlers:
    the socket's message handler, which publishes a new book and samples
    the spread and the imbalance, and the pair switch, which clears all
    derived state. */
module OrderBookComponent {
  import opened Numbers
  import opened Depth
  import opened Metrics

  /** A catalog row: the symbol shown on the button and the lower-case
      stream name interpolated into the depth-feed endpoint. */
  datatype TradingPair = TradingPair(symbol: string, wsSymbol: string)

  const TradingPairs: seq<TradingPair> := [
    TradingPair("BTC/USDT", "btcusdt"),
    TradingPair("ETH/USDT", "ethusdt"),
    TradingPair("SOL/USDT", "solusdt"),
    TradingPair("DOGE/USDT", "dogeusdt")
  ]

  /** No two rows share a display symbol, so the pair buttons, which React
      keys by `pair.symbol` and highlights by comparing it with the selected
      pair's, are told apart. */
  lemma CatalogDistinct()
    ensures forall i, j :: 0 <= i < j < |TradingPairs| ==>
      TradingPairs[i].symbol != TradingPairs[j].symbol
  {
  }

  /** The part of the message handler before anything is published:
      parse, map each side's pairs to levels, and fill in the running totals
      in place. `None` stands for the exception the catch block swallows. */
  method Ingest(frame: Frame) returns (book: Option<Book>)
    ensures book == Snapshot(frame)
  {
    if frame.Malformed? || frame.bids.Absent? {
      return None;
    }
    var bids := Normalise(frame.bids.entries);
    if bids.None? || frame.asks.Absent? {
      return None;
    }
    var asks := Normalise(frame.asks.entries);
    if asks.None? {
      return None;
    }
    var bidSide := new Level[|bids.value|](i requires 0 <= i < |bids.value| => bids.value[i]);
    var askSide := new Level[|asks.value|](i requires 0 <= i < |asks.value| => asks.value[i]);
    assert bidSide[..] == bids.value;
    assert askSide[..] == asks.value;
    FillTotals(bidSide);
    FillTotals(askSide);
    book := Some(Book(bidSide[..], askSide[..]));
  }

  class OrderBook {
    var selectedPair: TradingPair
    var orderbook: Book
    var spreadHistory: seq<SpreadSample>
    var imbalanceHistory: seq<ImbalanceSample>
    var isLoading: bool

    /** Every sample taken since the last pair change, oldest first. */
    ghost var spreadLog: seq<SpreadSample>
    ghost var imbalanceLog: seq<ImbalanceSample>

    /** The published book carries running totals, each history is the
        newest samples of the current pair in arrival order, and no loading
        state is ever left visible. */
    ghost predicate Valid()
      reads this
    {
      && !isLoading
      && Cumulative(orderbook.bids) && Cumulative(orderbook.asks)
      && spreadHistory == TakeLast(spreadLog, SpreadCapacity)
      && imbalanceHistory == TakeLast(imbalanceLog, ImbalanceCapacity)
    }

    /** The initial state: the first catalog pair, an empty book and empty histories. */
    constructor ()
      ensures Valid()
      ensures selectedPair == TradingPairs[0]
      ensures orderbook == EmptyBook && spreadHistory == [] && imbalanceHistory == []
      ensures spreadLog == [] && imbalanceLog == []
    {
      selectedPair := TradingPairs[0];
      orderbook := EmptyBook;
      spreadHistory := [];
      imbalanceHistory := [];
      isLoading := false;
      spreadLog := [];
      imbalanceLog := [];
    }

    /** A pair switch: clear the book and both histories, select the pair.
        Closing the old socket is transport work outside this model. */
    method HandlePairChange(pair: TradingPair)
      modifies this
      ensures Valid()
      ensures selectedPair == pair && !isLoading
      ensures orderbook == EmptyBook && spreadHistory == [] && imbalanceHistory == []
      ensures spreadLog == [] && imbalanceLog == []
    {
      isLoading := true;
      orderbook := EmptyBook;
      spreadHistory := [];
      imbalanceHistory := [];
      spreadLog := [];
      imbalanceLog := [];
      selectedPair := pair;
      isLoading := false;
    }

    /** The message handler. A frame that throws before the book is
        published changes nothing; an accepted one is published. */
    method OnMessage(frame: Frame, localTime: string, isoTime: string)
      requires Valid()
      modifies this
      ensures Valid()
      ensures Snapshot(frame).None? ==>
        && orderbook == old(orderbook)
        && spreadHistory == old(spreadHistory)
        && imbalanceHistory == old(imbalanceHistory)
        && selectedPair == old(selectedPair) && isLoading == old(isLoading)
        && spreadLog == old(spreadLog) && imbalanceLog == old(imbalanceLog)
      ensures Snapshot(frame).Some? ==> Published(Snapshot(frame).value, localTime, isoTime)
    {
      var accepted := Ingest(frame);
      if accepted.Some? {
        Publish(accepted.value, localTime, isoTime);
      }
    }

    /** The new state after `book` has been accepted at the given times. */
    twostate predicate Published(book: Book, localTime: string, isoTime: string)
      reads this
    {
      && selectedPair == old(selectedPair) && isLoading == old(isLoading)
      && orderbook == book
      && spreadHistory ==
           (if book.asks != [] && book.bids != []
            then PushSpread(old(spreadHistory), SpreadSample(localTime, SpreadPercent(book.asks[0], book.bids[0])))
            else old(spreadHistory))
      && imbalanceHistory == PushImbalance(old(imbalanceHistory), ImbalanceSample(isoTime, Imbalance(book)))
      && spreadLog ==
           (if book.asks != [] && book.bids != []
            then old(spreadLog) + [SpreadSample(localTime, SpreadPercent(book.asks[0], book.bids[0]))]
            else old(spreadLog))
      && imbalanceLog == old(imbalanceLog) + [ImbalanceSample(isoTime, Imbalance(book))]
    }

    /** The rest of the handler once the book is built: replace the book,
        sample the spread when both sides have a best level, and always
        sample the imbalance. */
    method Publish(formatted: Book, localTime: string, isoTime: string)
      requires Valid()
      requires Cumulative(formatted.bids) && Cumulative(formatted.asks)
      modifies this
      ensures Valid()
      ensures |spreadHistory| <= SpreadCapacity && |imbalanceHistory| <= ImbalanceCapacity
      ensures Published(formatted, localTime, isoTime)
    {
      orderbook := formatted;
      if |formatted.asks| > 0 && |formatted.bids| > 0 {
        SampleSpread(SpreadSample(localTime, SpreadPercent(formatted.asks[0], formatted.bids[0])));
      }
      SampleImbalance(ImbalanceSample(isoTime, Imbalance(formatted)));
    }

    /** The `setSpreadHistory` updater applied to the current history. */
    method SampleSpread(sample: SpreadSample)
      requires Valid()
      modifies this
      ensures Valid()
      ensures spreadHistory == PushSpread(old(spreadHistory), sample)
      ensures spreadLog == old(spreadLog) + [sample]
      ensures orderbook == old(orderbook) && imbalanceHistory == old(imbalanceHistory)
      ensures imbalanceLog == old(imbalanceLog)
      ensures selectedPair == old(selectedPair) && isLoading == old(isLoading)
    {
      PushSpreadKeepsNewest(spreadLog, sample);
      spreadHistory := PushSpread(spreadHistory, sample);
      spreadLog := spreadLog + [sample];
    }

    /** The `setImbalanceHistory` updater applied to the current history. */
    method SampleImbalance(sample: ImbalanceSample)
      requires Valid()
      modifies this
      ensures Valid()
      ensures imbalanceHistory == PushImbalance(old(imbalanceHistory), sample)
      ensures imbalanceLog == old(imbalanceLog) + [sample]
      ensures orderbook == old(orderbook) && spreadHistory == old(spreadHistory)
      ensures spreadLog == old(spreadLog)
      ensures selectedPair == old(selectedPair) && isLoading == old(isLoading)
    {
      PushImbalanceKeepsNewest(imbalanceLog, sample);
      imbalanceHistory := PushImbalance(imbalanceHistory, sample);
      imbalanceLog := imbalanceLog + [sample];
    }
  }

  /** The depth frame worked through by hand: bids 100.00 x 2 and 99.50 x 1,
      asks 100.50 x 1.5 and 101.00 x 0.5. */
  lemma WorkedExample()
    ensures var frame := Payload(
        Entries([Pair(10000, 20000), Pair(9950, 10000)]),
        Entries([Pair(10050, 15000), Pair(10100, 5000)]));
      && Snapshot(frame) == Some(Book(
           [Level(10000, 20000, 20000), Level(9950, 10000, 30000)],
           [Level(10050, 15000, 15000), Level(10100, 5000, 20000)]))
      && SpreadPercent(Level(10050, 15000, 15000), Level(10000, 20000, 20000)) == Finite(5000.0 / 10050.0)
      && Imbalance(Snapshot(frame).value) == Finite(0.2)
  {
    var b := [Level(10000, 20000, 0), Level(9950, 10000, 0)];
    var a := [Level(10050, 15000, 0), Level(10100, 5000, 0)];
    var rawBids := [Pair(10000, 20000), Pair(9950, 10000)];
    var rawAsks := [Pair(10050, 15000), Pair(10100, 5000)];
    assert rawBids[0].Pair? && rawBids[1].Pair? && rawAsks[0].Pair? && rawAsks[1].Pair?;
    assert Normalise(rawBids).value == b;
    assert Normalise(rawAsks).value == a;
    RunningTotalsRecurrence(b);
    RunningTotalsRecurrence(a);
    assert RunningTotals(b) == [Level(10000, 20000, 20000), Level(9950, 10000, 30000)];
    assert RunningTotals(a) == [Level(10050, 15000, 15000), Level(10100, 5000, 20000)];
    WorkedSpread();
    WorkedImbalance();
  }

  /** The example's spread: (100.50 - 100.00) / 100.50 x 100 percent. */
  lemma WorkedSpread()
    ensures SpreadPercent(Level(10050, 15000, 15000), Level(10000, 20000, 20000)) == Finite(5000.0 / 10050.0)
  {
  }

  /** The example's imbalance: (3 - 2) / (3 + 2). */
  lemma WorkedImbalance()
    ensures Imbalance(Book(
        [Level(10000, 20000, 20000), Level(9950, 10000, 30000)],
        [Level(10050, 15000, 15000), Level(10100, 5000, 20000)])) == Finite(0.2)
  {
    var b := [Level(10000, 20000, 20000), Level(9950, 10000, 30000)];
    var a := [Level(10050, 15000, 15000), Level(10100, 5000, 20000)];
    assert SumAmounts(b) == 30000 && SumAmounts(a) == 20000;
  }
}
