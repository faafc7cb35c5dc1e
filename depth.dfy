/** Normalisation of one depth frame into a book snapshot: each raw
    `[price, quantity]` pair becomes a level, and every level of a side is
    annotated with the running total of that side's amounts.

    Prices are fixed-point integers in hundredths (the two digits kept by
    `toFixed(2)`), amounts and totals in ten-thousandths (the four digits
    kept by `toFixed(4)`). */
module Depth {

  datatype Option<T> = None | Some(value: T)

  /** One element of a side's array in the parsed frame: a price/quantity
      pair, or `null`, on which indexing throws. */
  datatype Entry = Pair(price: int, amount: int) | Null

  /** The `bids` or `asks` member of the parsed frame: an array of entries,
      or absent (missing, or anything without a `map`), on which `map` throws. */
  datatype Field = Absent | Entries(entries: seq<Entry>)

  /** A frame as delivered by the socket: text `JSON.parse` rejects (or the
      literal `null`, on which member access throws), or an object with a
      `bids` and an `asks` member. */
  datatype Frame = Malformed | Payload(bids: Field, asks: Field)

  /** One normalised level: `{price, amount, total}`. */
  datatype Level = Level(price: int, amount: int, total: int)

  /** The published order book, best level first on each side. */
  datatype Book = Book(bids: seq<Level>, asks: seq<Level>)

  const EmptyBook: Book := Book([], [])

  /** The per-entry `map` that builds levels with a zero total; `None` when
      some entry is `null`, where the handler throws. */
  function Normalise(entries: seq<Entry>): (r: Option<seq<Level>>)
    ensures r.Some? <==> forall i :: 0 <= i < |entries| ==> entries[i].Pair?
    ensures r.Some? ==> |r.value| == |entries|
    ensures r.Some? ==> forall i :: 0 <= i < |entries| ==>
      r.value[i] == Level(entries[i].price, entries[i].amount, 0)
  {
    if entries == [] then Some([])
    else match entries[0]
      case Null => None
      case Pair(p, q) =>
        match Normalise(entries[1..])
        case None => None
        case Some(rest) => Some([Level(p, q, 0)] + rest)
  }

  /** The side sum `reduce((acc, l) => acc + l.amount, 0)`, a left fold. */
  function SumAmounts(levels: seq<Level>): (r: int)
    ensures (forall k :: 0 <= k < |levels| ==> levels[k].amount >= 0) ==> r >= 0
    ensures (forall k :: 0 <= k < |levels| ==> levels[k].amount <= 0) ==> r <= 0
  {
    if levels == [] then 0
    else SumAmounts(levels[..|levels| - 1]) + levels[|levels| - 1].amount
  }

  /** The side with every level's total set to the sum of the amounts from
      the best level up to and including it. */
  function RunningTotals(levels: seq<Level>): (r: seq<Level>)
    ensures |r| == |levels|
    ensures forall i :: 0 <= i < |r| ==>
      r[i].price == levels[i].price && r[i].amount == levels[i].amount
  {
    seq(|levels|, i requires 0 <= i < |levels| => levels[i].(total := SumAmounts(levels[..i + 1])))
  }

  /** A side as the component publishes it: totals already filled in. */
  ghost predicate Cumulative(levels: seq<Level>)
  {
    RunningTotals(levels) == levels
  }

  /** The fold reads only amounts: sides that agree on amounts agree on sums. */
  lemma {:induction false} SumAmountsOnlyReadsAmounts(a: seq<Level>, b: seq<Level>)
    requires |a| == |b|
    requires forall i :: 0 <= i < |a| ==> a[i].amount == b[i].amount
    ensures SumAmounts(a) == SumAmounts(b)
  {
    if a != [] {
      SumAmountsOnlyReadsAmounts(a[..|a| - 1], b[..|b| - 1]);
    }
  }

  /** The first total is the first amount; each later total is the previous
      total plus the level's own amount. */
  lemma RunningTotalsRecurrence(levels: seq<Level>)
    ensures |levels| > 0 ==> RunningTotals(levels)[0].total == levels[0].amount
    ensures forall i :: 0 < i < |levels| ==>
      RunningTotals(levels)[i].total == RunningTotals(levels)[i - 1].total + levels[i].amount
  {
    var r := RunningTotals(levels);
    if |levels| > 0 {
      assert levels[..1][..0] == [];
      assert SumAmounts(levels[..1]) == levels[0].amount;
    }
    forall i | 0 < i < |levels|
      ensures r[i].total == r[i - 1].total + levels[i].amount
    {
      assert levels[..i + 1][..i] == levels[..i];
    }
  }

  /** With non-negative amounts, totals never decrease away from the best level. */
  lemma {:induction false} RunningTotalsMonotone(levels: seq<Level>, i: nat, j: nat)
    requires forall k :: 0 <= k < |levels| ==> levels[k].amount >= 0
    requires i <= j < |levels|
    ensures RunningTotals(levels)[i].total <= RunningTotals(levels)[j].total
    decreases j - i
  {
    if i < j {
      RunningTotalsRecurrence(levels);
      RunningTotalsMonotone(levels, i, j - 1);
    }
  }

  /** The deepest level's total is the side sum the imbalance is computed from. */
  lemma LastTotalIsSideSum(levels: seq<Level>)
    requires |levels| > 0
    ensures RunningTotals(levels)[|levels| - 1].total == SumAmounts(levels)
  {
    assert levels[..|levels|] == levels;
  }

  /** Filling in totals a second time changes nothing. */
  lemma RunningTotalsIdempotent(levels: seq<Level>)
    ensures Cumulative(RunningTotals(levels))
  {
    var r := RunningTotals(levels);
    forall i | 0 <= i < |r|
      ensures RunningTotals(r)[i] == r[i]
    {
      SumAmountsOnlyReadsAmounts(r[..i + 1], levels[..i + 1]);
    }
  }

  /** The side-effecting `reduce` that writes each level's total in place. */
  method FillTotals(side: array<Level>)
    modifies side
    ensures side[..] == RunningTotals(old(side[..]))
  {
    ghost var levels := side[..];
    var acc := 0;
    var i := 0;
    while i < side.Length
      invariant 0 <= i <= side.Length
      invariant acc == SumAmounts(levels[..i])
      invariant forall k :: 0 <= k < i ==> side[k] == RunningTotals(levels)[k]
      invariant forall k :: i <= k < side.Length ==> side[k] == levels[k]
    {
      assert levels[..i + 1][..i] == levels[..i];
      side[i] := side[i].(total := acc + side[i].amount);
      acc := side[i].total;
      i := i + 1;
    }
  }

  /** The book a frame yields, or `None` when the handler throws before
      publishing anything: the frame does not parse, lacks an array, or
      holds a `null` entry. An accepted frame keeps each side's length and
      order, level `i` carrying the price and amount of raw pair `i` and
      the running total up to it. */
  function Snapshot(frame: Frame): (r: Option<Book>)
    ensures r.Some? <==>
      && frame.Payload?
      && frame.bids.Entries? && frame.asks.Entries?
      && (forall i :: 0 <= i < |frame.bids.entries| ==> frame.bids.entries[i].Pair?)
      && (forall i :: 0 <= i < |frame.asks.entries| ==> frame.asks.entries[i].Pair?)
    ensures r.Some? ==>
      && |r.value.bids| == |frame.bids.entries|
      && |r.value.asks| == |frame.asks.entries|
      && (forall i :: 0 <= i < |r.value.bids| ==>
            r.value.bids[i].price == frame.bids.entries[i].price
            && r.value.bids[i].amount == frame.bids.entries[i].amount)
      && (forall i :: 0 <= i < |r.value.asks| ==>
            r.value.asks[i].price == frame.asks.entries[i].price
            && r.value.asks[i].amount == frame.asks.entries[i].amount)
    ensures r.Some? ==> Cumulative(r.value.bids) && Cumulative(r.value.asks)
  {
    match frame
    case Malformed => None
    case Payload(Entries(bids), Entries(asks)) =>
      (match (Normalise(bids), Normalise(asks))
       case (Some(b), Some(a)) =>
         RunningTotalsIdempotent(b);
         RunningTotalsIdempotent(a);
         Some(Book(RunningTotals(b), RunningTotals(a)))
       case _ => None)
    case Payload(_, _) => None
  }
}
