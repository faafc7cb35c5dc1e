/** The analytics taken from each accepted book: the spread percentage and
    the volume imbalance, each kept in a bounded history that holds the
    newest samples in arrival order. */
module Metrics {
  import opened Numbers
  import opened Depth

  const SpreadCapacity: nat := 30
  const ImbalanceCapacity: nat := 100

  /** A spread-history entry; `time` is the opaque `toLocaleTimeString()` text. */
  datatype SpreadSample = SpreadSample(time: string, spread: Num)

  /** An imbalance-history entry; `time` is the opaque `toISOString()` text. */
  datatype ImbalanceSample = ImbalanceSample(time: string, imbalance: Num)

  /** A price in hundredths as the number `parseFloat(level.price)` reads. */
  function PriceValue(cents: int): real
  {
    cents as real / 100.0
  }

  /** An amount in ten-thousandths as the number the side sums add up. */
  function AmountValue(units: int): real
  {
    units as real / 10000.0
  }

  /** JavaScript's `array.slice(-n)` for a positive `n`: the last `n`
      elements, or all of them when there are fewer. */
  function TakeLast<T>(s: seq<T>, n: nat): (r: seq<T>)
    requires n > 0
    ensures |r| == if |s| < n then |s| else n
  {
    s[if |s| > n then |s| - n else 0..]
  }

  /** `slice(-n)` keeps a suffix: element `i` of the result is the element
      `|r| - i` places from the end of the input. */
  lemma TakeLastSuffix<T>(s: seq<T>, n: nat, i: nat)
    requires n > 0 && i < |TakeLast(s, n)|
    ensures TakeLast(s, n)[i] == s[|s| - |TakeLast(s, n)| + i]
  {
  }

  /** The spread-history updater: append, then cut back to the newest 30
      once the list has grown past them. */
  function PushSpread(history: seq<SpreadSample>, sample: SpreadSample): (r: seq<SpreadSample>)
    ensures 0 < |r| <= SpreadCapacity
    ensures r[|r| - 1] == sample
    ensures |history| < SpreadCapacity ==> r == history + [sample]
    ensures |history| == SpreadCapacity ==> r == history[1..] + [sample]
  {
    var grown := history + [sample];
    if |grown| > SpreadCapacity then TakeLast(grown, SpreadCapacity) else grown
  }

  /** The imbalance-history updater: append, then keep `slice(-100)`. */
  function PushImbalance(history: seq<ImbalanceSample>, sample: ImbalanceSample): (r: seq<ImbalanceSample>)
    ensures 0 < |r| <= ImbalanceCapacity
    ensures r[|r| - 1] == sample
    ensures |history| < ImbalanceCapacity ==> r == history + [sample]
    ensures |history| == ImbalanceCapacity ==> r == history[1..] + [sample]
  {
    TakeLast(history + [sample], ImbalanceCapacity)
  }

  /** Fed the samples of a session one at a time from an empty list, the
      spread history is always the newest 30 of them in arrival order. */
  lemma PushSpreadKeepsNewest(log: seq<SpreadSample>, sample: SpreadSample)
    ensures PushSpread(TakeLast(log, SpreadCapacity), sample) == TakeLast(log + [sample], SpreadCapacity)
  {
  }

  /** Likewise the imbalance history is always the newest 100 samples. */
  lemma PushImbalanceKeepsNewest(log: seq<ImbalanceSample>, sample: ImbalanceSample)
    ensures PushImbalance(TakeLast(log, ImbalanceCapacity), sample) == TakeLast(log + [sample], ImbalanceCapacity)
  {
  }

  /** `(askPrice - bidPrice) / askPrice * 100` from the best levels. */
  function SpreadPercent(bestAsk: Level, bestBid: Level): (r: Num)
    ensures r.Finite? <==> bestAsk.price != 0
    ensures r.Finite? ==> r.value * bestAsk.price as real == (bestAsk.price - bestBid.price) as real * 100.0
    ensures r.NaN? <==> bestAsk.price == 0 && bestBid.price == 0
    ensures r.Infinity? ==> (r.negative <==> bestBid.price > 0)
  {
    var askPrice := PriceValue(bestAsk.price);
    var bidPrice := PriceValue(bestBid.price);
    match Quotient(askPrice - bidPrice, askPrice)
    case Finite(v) => Finite(v * 100.0)
    case other => other
  }

  /** An uncrossed book with a positive ask has a spread between 0% and 100%;
      a crossed one has a negative spread. */
  lemma SpreadPercentRange(bestAsk: Level, bestBid: Level)
    requires bestAsk.price > 0 && bestBid.price >= 0
    ensures SpreadPercent(bestAsk, bestBid).Finite?
    ensures bestBid.price <= bestAsk.price ==> 0.0 <= SpreadPercent(bestAsk, bestBid).value <= 100.0
    ensures bestBid.price > bestAsk.price ==> SpreadPercent(bestAsk, bestBid).value < 0.0
  {
    var r := SpreadPercent(bestAsk, bestBid);
    PercentOfPositive(r.value, bestAsk.price as real, bestBid.price as real);
  }

  /** A percentage `v` with `v * ask == (ask - bid) * 100` lies in [0, 100]
      when `0 <= bid <= ask`, and is negative when `bid > ask`. */
  lemma PercentOfPositive(v: real, ask: real, bid: real)
    requires ask > 0.0 && bid >= 0.0
    requires v * ask == (ask - bid) * 100.0
    ensures bid <= ask ==> 0.0 <= v <= 100.0
    ensures bid > ask ==> v < 0.0
  {
  }

  /** The exact imbalance of two side totals, before any rounding. */
  function VolumeRatio(bidTotal: int, askTotal: int): real
    requires bidTotal + askTotal != 0
  {
    (bidTotal - askTotal) as real / (bidTotal + askTotal) as real
  }

  /** `(bidTotal - askTotal) / (bidTotal + askTotal)`, rounded by
      `parseFloat(imbalance.toFixed(4))`. There is no guard: zero volume on
      both sides yields NaN, and a zero sum of opposite non-zero totals an
      infinity. */
  function Imbalance(book: Book): (r: Num)
    ensures r.Finite? <==> SumAmounts(book.bids) + SumAmounts(book.asks) != 0
    ensures r.NaN? <==> SumAmounts(book.bids) == 0 && SumAmounts(book.asks) == 0
    ensures r.Infinity? ==> (r.negative <==> SumAmounts(book.bids) < SumAmounts(book.asks))
    ensures r.Finite? ==>
      -0.00005 <= r.value - VolumeRatio(SumAmounts(book.bids), SumAmounts(book.asks)) <= 0.00005
  {
    var bidTotal := AmountValue(SumAmounts(book.bids));
    var askTotal := AmountValue(SumAmounts(book.asks));
    ScaledRatio(SumAmounts(book.bids) as real, SumAmounts(book.asks) as real, 10000.0);
    RoundNum(Quotient(bidTotal - askTotal, bidTotal + askTotal))
  }

  /** Expressing both totals in a common unit does not change their ratio. */
  lemma ScaledRatio(x: real, y: real, unit: real)
    requires unit > 0.0
    ensures x + y != 0.0 ==> (x / unit - y / unit) / (x / unit + y / unit) == (x - y) / (x + y)
  {
  }

  /** The normalised difference of two non-negative volumes lies in [-1, 1]. */
  lemma NormalisedDifferenceBounded(x: real, y: real)
    requires x >= 0.0 && y >= 0.0 && x + y > 0.0
    ensures -1.0 <= (x - y) / (x + y) <= 1.0
  {
  }

  /** With non-negative volume on both sides and some volume in all, the
      imbalance is a number in [-1, 1], the range the chart's axis shows. */
  lemma ImbalanceInRange(book: Book)
    requires forall k :: 0 <= k < |book.bids| ==> book.bids[k].amount >= 0
    requires forall k :: 0 <= k < |book.asks| ==> book.asks[k].amount >= 0
    requires SumAmounts(book.bids) + SumAmounts(book.asks) > 0
    ensures Imbalance(book).Finite?
    ensures -1.0 <= Imbalance(book).value <= 1.0
  {
    var b := AmountValue(SumAmounts(book.bids));
    var a := AmountValue(SumAmounts(book.asks));
    var q := (b - a) / (b + a);
    NormalisedDifferenceBounded(b, a);
    assert -1.0 <= q <= 1.0;
    assert Imbalance(book) == RoundNum(Finite(q));
  }
}
