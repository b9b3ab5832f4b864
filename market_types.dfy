/**
 * Data shapes shared by the frontend: ladder levels, order books, the stats
 * snapshot of one exchange, decoded feed messages and the socket's state.
 *
 * Decimal fields travel as strings and are parsed where they are used. The
 * model keeps a price as its wire text (`Level<string>`), because the React
 * aggregator groups on that text, or as its parsed value (`Level<real>`);
 * quantities, cumulative totals and stats fields are kept as parsed values.
 */
module MarketTypes {

  datatype Option<T> = None | Some(value: T)

  /** No element occurs twice. */
  predicate Distinct<T(==)>(s: seq<T>) {
    forall i, j :: 0 <= i < j < |s| ==> s[i] != s[j]
  }

  /** One rung of a ladder, with the running total up to and including it. */
  datatype Level<P> = Level(price: P, quantity: real, cumulative: real)

  /** The book of one exchange key as the feed delivers it. */
  datatype Book = Book(bids: seq<Level<string>>, asks: seq<Level<string>>)

  datatype Side = Bids | Asks

  function SideOf(b: Book, side: Side): seq<Level<string>> {
    match side
    case Bids => b.bids
    case Asks => b.asks
  }

  /** The sixteen fields of a stats message, replaced as a whole per exchange. */
  datatype Stats = Stats(
    bestBid: real, bestAsk: real, midPrice: real, spread: real,
    bidLiquidity05Pct: real, askLiquidity05Pct: real, deltaLiquidity05Pct: real,
    bidLiquidity2Pct: real, askLiquidity2Pct: real, deltaLiquidity2Pct: real,
    bidLiquidity10Pct: real, askLiquidity10Pct: real, deltaLiquidity10Pct: real,
    totalBidsQty: real, totalAsksQty: real, totalDelta: real)

  /** An inbound message after JSON decoding, discriminated by its `type`. */
  datatype Message =
    | OrderbookMessage(exchange: string, bids: seq<Level<string>>, asks: seq<Level<string>>)
    | StatsMessage(exchange: string, stats: Stats)
    | OtherMessage(kind: string)

  /** The one outbound message: `{type: 'set_tick', tick}`. */
  datatype Outbound = SetTick(tick: real)

  /** `WebSocket.readyState`. */
  datatype ReadyState = Connecting | Open | Closing | Closed

  /** Sum of the quantities of `ls`, added left to right. */
  function QuantitySum<P>(ls: seq<Level<P>>): real
  {
    if ls == [] then 0.0 else QuantitySum(ls[..|ls| - 1]) + ls[|ls| - 1].quantity
  }

  /** Every level's cumulative is the sum of the quantities up to it. */
  ghost predicate PrefixSums<P>(ls: seq<Level<P>>) {
    forall i :: 0 <= i < |ls| ==> ls[i].cumulative == QuantitySum(ls[..i + 1])
  }

  /** A running total grows by exactly the level's own quantity. */
  lemma CumulativeStep<P>(ls: seq<Level<P>>, i: nat)
    requires PrefixSums(ls)
    requires 0 < i < |ls|
    ensures ls[i].cumulative == ls[i - 1].cumulative + ls[i].quantity
  {
    assert ls[..i + 1][..i] == ls[..i];
  }

  /** With no negative quantity, cumulative totals never decrease. */
  lemma {:induction false} CumulativeNonDecreasing<P>(ls: seq<Level<P>>, i: nat, j: nat)
    requires PrefixSums(ls)
    requires forall k :: 0 <= k < |ls| ==> ls[k].quantity >= 0.0
    requires i <= j < |ls|
    ensures ls[i].cumulative <= ls[j].cumulative
    decreases j - i
  {
    if i < j {
      CumulativeStep(ls, j);
      CumulativeNonDecreasing(ls, i, j - 1);
    }
  }

  /** The last running total is the total quantity of the ladder. */
  lemma LastCumulativeIsTotal<P>(ls: seq<Level<P>>)
    requires PrefixSums(ls)
    requires ls != []
    ensures ls[|ls| - 1].cumulative == QuantitySum(ls)
  {
    assert ls[..|ls|] == ls;
  }
}
