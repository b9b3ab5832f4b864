/**
 * The React aggregator (frontend/src/utils/aggregateOrderbook.ts): every
 * exchange's book is folded into one `Map` per side keyed by the price TEXT,
 * the entries are sorted by parsed price (bids high to low, asks low to high)
 * and each entry gets the running total of the quantities up to it.
 *
 * `parse` stands for `parseFloat` on a price text. Two texts that parse to the
 * same number ("100" and "100.0") stay two rows here, as in the source.
 */
module AggregateOrderbook {
  import opened MarketTypes
  import opened Sorting
  import opened Ladder

  /** The two fields the merge reads from a level. */
  function Pair(l: Level<string>): (string, real) {
    (l.price, l.quantity)
  }

  function LevelPairs(ls: seq<Level<string>>): (r: seq<(string, real)>)
    ensures |r| == |ls|
    ensures forall i :: 0 <= i < |ls| ==> r[i] == Pair(ls[i])
  {
    seq(|ls|, i requires 0 <= i < |ls| => Pair(ls[i]))
  }

  /** Every level of one side, book after book, in the order `forEach` visits them. */
  function SidePairs(books: seq<Book>, side: Side): seq<(string, real)>
  {
    if books == [] then []
    else SidePairs(books[..|books| - 1], side) + LevelPairs(SideOf(books[|books| - 1], side))
  }

  /** The comparator of the side as "may precede": bids `pb - pa <= 0`, asks `pa - pb <= 0`. */
  function PriceLe(parse: string -> real, side: Side): ((string, real), (string, real)) -> bool {
    match side
    case Bids => (a: (string, real), b: (string, real)) => parse(b.0) - parse(a.0) <= 0.0
    case Asks => (a: (string, real), b: (string, real)) => parse(a.0) - parse(b.0) <= 0.0
  }

  lemma PriceLeTotalPreorder(parse: string -> real, side: Side)
    ensures TotalPreorder(PriceLe(parse, side))
  {
  }

  /** The ladder `aggregateOrderbooks` returns for one side. */
  function AggregateSide(books: seq<Book>, side: Side, parse: string -> real): seq<Level<string>>
  {
    WithCumulative(Sort(Group(SidePairs(books, side)), PriceLe(parse, side)))
  }

  /**
   * `aggregateOrderbooks`: the two `forEach` passes fill the Maps in place;
   * sorting and the running totals are then computed from their entries.
   */
  method AggregateOrderbooks(books: seq<Book>, parse: string -> real)
    returns (bids: seq<Level<string>>, asks: seq<Level<string>>)
    ensures bids == AggregateSide(books, Bids, parse)
    ensures asks == AggregateSide(books, Asks, parse)
  {
    var bidMap: Entries<string> := [];
    var askMap: Entries<string> := [];
    for b := 0 to |books|
      invariant bidMap == Group(SidePairs(books[..b], Bids))
      invariant askMap == Group(SidePairs(books[..b], Asks))
    {
      SidePairsStep(books, b, Bids);
      SidePairsStep(books, b, Asks);
      bidMap := MergeLevels(bidMap, SidePairs(books[..b], Bids), books[b].bids);
      askMap := MergeLevels(askMap, SidePairs(books[..b], Asks), books[b].asks);
    }
    assert books[..|books|] == books;
    bids := WithCumulative(Sort(bidMap, PriceLe(parse, Bids)));
    asks := WithCumulative(Sort(askMap, PriceLe(parse, Asks)));
  }

  /** One `book.bids.forEach` (or asks) pass: `m.set(price, (m.get(price) || 0) + qty)` per level. */
  method MergeLevels(m: Entries<string>, ghost visited: seq<(string, real)>, levels: seq<Level<string>>)
    returns (r: Entries<string>)
    requires m == Group(visited)
    ensures r == Group(visited + LevelPairs(levels))
  {
    r := m;
    ghost var seen := visited;
    for i := 0 to |levels|
      invariant seen == visited + LevelPairs(levels[..i])
      invariant r == Group(seen)
    {
      var level := Pair(levels[i]);  // (price, quantity)
      MergeStep(seen, level, r);
      r := Put(r, level.0, GetOrZero(r, level.0) + level.1);
      seen := seen + [level];
      LevelPairsStep(levels, i);
    }
    assert levels[..|levels|] == levels;
  }

  /** One `set` of the pass extends the grouped prefix by one pair. */
  lemma MergeStep(seen: seq<(string, real)>, x: (string, real), m: Entries<string>)
    requires m == Group(seen)
    ensures Put(m, x.0, GetOrZero(m, x.0) + x.1) == Group(seen + [x])
  {
    GroupSnoc(seen, x);
  }

  /** The pairs of one more level. */
  lemma LevelPairsStep(ls: seq<Level<string>>, i: nat)
    requires i < |ls|
    ensures LevelPairs(ls[..i + 1]) == LevelPairs(ls[..i]) + [Pair(ls[i])]
  {
  }

  /** One more book visited. */
  lemma SidePairsStep(books: seq<Book>, b: nat, side: Side)
    requires b < |books|
    ensures SidePairs(books[..b + 1], side) == SidePairs(books[..b], side) + LevelPairs(SideOf(books[b], side))
  {
    assert books[..b + 1][..b] == books[..b];
  }

  /** Some input level on `side` carries the price text `p`. */
  ghost predicate InputHasPrice(books: seq<Book>, side: Side, p: string) {
    exists b, i :: 0 <= b < |books| && 0 <= i < |SideOf(books[b], side)| && SideOf(books[b], side)[i].price == p
  }

  /** `x` is the (price, quantity) of some input level on `side`. */
  ghost predicate InputPair(books: seq<Book>, side: Side, x: (string, real)) {
    exists b, i :: 0 <= b < |books| && 0 <= i < |SideOf(books[b], side)| && x == Pair(SideOf(books[b], side)[i])
  }

  /** The pairs the merge visits are exactly the (price, quantity) of the input levels. */
  lemma {:induction false} SidePairsOrigin(books: seq<Book>, side: Side)
    ensures forall j :: 0 <= j < |SidePairs(books, side)| ==> InputPair(books, side, SidePairs(books, side)[j])
    ensures forall b, i :: 0 <= b < |books| && 0 <= i < |SideOf(books[b], side)| ==>
      Pair(SideOf(books[b], side)[i]) in SidePairs(books, side)
  {
    if books != [] {
      var n := |books| - 1;
      var init := books[..n];
      SidePairsOrigin(init, side);
      var sp := SidePairs(books, side);
      var ip := SidePairs(init, side);
      var lp := LevelPairs(SideOf(books[n], side));
      assert sp == ip + lp;
      forall j | 0 <= j < |sp| ensures InputPair(books, side, sp[j]) {
        if j < |ip| {
          assert InputPair(init, side, ip[j]);
          var b, i :| 0 <= b < |init| && 0 <= i < |SideOf(init[b], side)| && ip[j] == Pair(SideOf(init[b], side)[i]);
          assert init[b] == books[b];
        } else {
          assert sp[j] == Pair(SideOf(books[n], side)[j - |ip|]);
        }
      }
      forall b, i | 0 <= b < |books| && 0 <= i < |SideOf(books[b], side)|
        ensures Pair(SideOf(books[b], side)[i]) in sp
      {
        if b < n {
          assert init[b] == books[b];
        } else {
          assert sp[|ip| + i] == lp[i];
        }
      }
    }
  }

  /** Each price text appears at most once in the output. */
  lemma AggregatePricesDistinct(books: seq<Book>, side: Side, parse: string -> real)
    ensures var r := AggregateSide(books, side, parse);
      forall i, j :: 0 <= i < j < |r| ==> r[i].price != r[j].price
  {
    GroupSpec(SidePairs(books, side));
    SortKeys(Group(SidePairs(books, side)), PriceLe(parse, side));
  }

  /** A price text is visited by the merge iff some input level carries it. */
  lemma SidePairsHasKey(books: seq<Book>, side: Side, p: string)
    ensures HasKey(SidePairs(books, side), p) <==> InputHasPrice(books, side, p)
  {
    var ps := SidePairs(books, side);
    SidePairsOrigin(books, side);
    if HasKey(ps, p) {
      var j :| 0 <= j < |ps| && ps[j].0 == p;
      assert InputPair(books, side, ps[j]);
    }
    if InputHasPrice(books, side, p) {
      var b, k :| 0 <= b < |books| && 0 <= k < |SideOf(books[b], side)| && SideOf(books[b], side)[k].price == p;
      var j :| 0 <= j < |ps| && ps[j] == Pair(SideOf(books[b], side)[k]);
      assert ps[j].0 == p;
    }
  }

  /** The output prices are exactly the price texts of the input levels. */
  lemma AggregatePricesFromInput(books: seq<Book>, side: Side, parse: string -> real, p: string)
    ensures var r := AggregateSide(books, side, parse);
      (exists i :: 0 <= i < |r| && r[i].price == p) <==> InputHasPrice(books, side, p)
  {
    var ps := SidePairs(books, side);
    var g := Group(ps);
    var s := Sort(g, PriceLe(parse, side));
    var r := AggregateSide(books, side, parse);
    assert r == WithCumulative(s);
    GroupSpec(ps);
    SortKeys(g, PriceLe(parse, side));
    SidePairsHasKey(books, side, p);
    if exists i :: 0 <= i < |r| && r[i].price == p {
      var i :| 0 <= i < |r| && r[i].price == p;
      assert s[i].0 == p;
    }
    if HasKey(s, p) {
      var i :| 0 <= i < |s| && s[i].0 == p;
      assert r[i].price == p;
    }
  }

  /** The quantity of a row is the total over every input level with its price text. */
  lemma AggregateQuantities(books: seq<Book>, side: Side, parse: string -> real)
    ensures var r := AggregateSide(books, side, parse);
      forall i :: 0 <= i < |r| ==> r[i].quantity == SumAt(SidePairs(books, side), r[i].price)
  {
    var ps := SidePairs(books, side);
    var g := Group(ps);
    var r := AggregateSide(books, side, parse);
    GroupSpec(ps);
    forall i | 0 <= i < |r| ensures r[i].quantity == SumAt(ps, r[i].price) {
      SortedEntryIsEntry(g, PriceLe(parse, side), i);
    }
  }

  /** Bids come out from the highest parsed price down, asks from the lowest up. */
  lemma AggregateSorted(books: seq<Book>, side: Side, parse: string -> real)
    ensures forall i, j :: 0 <= i < j < |AggregateSide(books, side, parse)| ==>
      if side == Bids then parse(AggregateSide(books, side, parse)[i].price) >= parse(AggregateSide(books, side, parse)[j].price)
      else parse(AggregateSide(books, side, parse)[i].price) <= parse(AggregateSide(books, side, parse)[j].price)
  {
    var le := PriceLe(parse, side);
    PriceLeTotalPreorder(parse, side);
    SortSorted(Group(SidePairs(books, side)), le);
  }

  lemma {:induction false} SumAtNonNegative(ps: seq<(string, real)>, k: string)
    requires forall j :: 0 <= j < |ps| ==> ps[j].1 >= 0.0
    ensures SumAt(ps, k) >= 0.0
  {
    if ps != [] {
      SumAtNonNegative(ps[..|ps| - 1], k);
    }
  }

  /**
   * Each cumulative is the total of the output quantities up to it; with no
   * negative input quantity the cumulatives never decrease, and the last one
   * is the total quantity of the side across all books.
   */
  lemma AggregateCumulative(books: seq<Book>, side: Side, parse: string -> real)
    requires forall b, i :: 0 <= b < |books| && 0 <= i < |SideOf(books[b], side)| ==> SideOf(books[b], side)[i].quantity >= 0.0
    ensures PrefixSums(AggregateSide(books, side, parse))
    ensures forall i, j :: 0 <= i <= j < |AggregateSide(books, side, parse)| ==>
      AggregateSide(books, side, parse)[i].cumulative <= AggregateSide(books, side, parse)[j].cumulative
    ensures AggregateSide(books, side, parse) != [] ==>
      AggregateSide(books, side, parse)[|AggregateSide(books, side, parse)| - 1].cumulative == PairSum(SidePairs(books, side))
  {
    var ps := SidePairs(books, side);
    var r := AggregateSide(books, side, parse);
    var le := PriceLe(parse, side);
    SidePairsOrigin(books, side);
    forall j | 0 <= j < |ps| ensures ps[j].1 >= 0.0 {
      assert InputPair(books, side, ps[j]);
    }
    AggregateQuantities(books, side, parse);
    forall k | 0 <= k < |r| ensures r[k].quantity >= 0.0 {
      SumAtNonNegative(ps, r[k].price);
    }
    forall i, j | 0 <= i <= j < |r| ensures r[i].cumulative <= r[j].cumulative {
      CumulativeNonDecreasing(r, i, j);
    }
    if r != [] {
      GroupTotal(ps);
      SortTotal(Group(ps), le);
      WithCumulativeTotal(Sort(Group(ps), le));
    }
  }

  /** No books, no levels. */
  lemma AggregateEmpty(parse: string -> real)
    ensures AggregateSide([], Bids, parse) == [] && AggregateSide([], Asks, parse) == []
  {
  }

  /**
   * Only the price and quantity of the input levels of that side are read:
   * books that agree on them aggregate alike, whatever their cumulatives and
   * their other side hold.
   */
  lemma {:induction false} AggregateReadsOnlyPriceAndQuantity(books: seq<Book>, others: seq<Book>, side: Side, parse: string -> real)
    requires |books| == |others|
    requires forall b :: 0 <= b < |books| ==> |SideOf(books[b], side)| == |SideOf(others[b], side)|
    requires forall b, i :: 0 <= b < |books| && 0 <= i < |SideOf(books[b], side)| ==>
      SideOf(books[b], side)[i].price == SideOf(others[b], side)[i].price &&
      SideOf(books[b], side)[i].quantity == SideOf(others[b], side)[i].quantity
    ensures AggregateSide(books, side, parse) == AggregateSide(others, side, parse)
  {
    SidePairsAgree(books, others, side);
  }

  lemma {:induction false} SidePairsAgree(books: seq<Book>, others: seq<Book>, side: Side)
    requires |books| == |others|
    requires forall b :: 0 <= b < |books| ==> |SideOf(books[b], side)| == |SideOf(others[b], side)|
    requires forall b, i :: 0 <= b < |books| && 0 <= i < |SideOf(books[b], side)| ==>
      SideOf(books[b], side)[i].price == SideOf(others[b], side)[i].price &&
      SideOf(books[b], side)[i].quantity == SideOf(others[b], side)[i].quantity
    ensures SidePairs(books, side) == SidePairs(others, side)
  {
    if books != [] {
      var n := |books| - 1;
      SidePairsAgree(books[..n], others[..n], side);
      assert LevelPairs(SideOf(books[n], side)) == LevelPairs(SideOf(others[n], side));
    }
  }

  /** Two levels at the same price text merge into one row holding their sum. */
  lemma MergeExample(parse: string -> real)
    ensures AggregateSide([Book([Level("100", 2.0, 2.0)], []), Book([Level("100", 3.0, 3.0)], [])], Bids, parse)
      == [Level("100", 5.0, 5.0)]
  {
    var books := [Book([Level("100", 2.0, 2.0)], []), Book([Level("100", 3.0, 3.0)], [])];
    var x1: (string, real) := ("100", 2.0);
    var x2: (string, real) := ("100", 3.0);
    SidePairsStep(books, 0, Bids);
    SidePairsStep(books, 1, Bids);
    assert LevelPairs(books[0].bids) == [x1];
    assert LevelPairs(books[1].bids) == [x2];
    assert books[..0] == [] && books[..2] == books;
    assert SidePairs(books, Bids) == [x1] + [x2];
    GroupSnoc([], x1);
    assert [] + [x1] == [x1];
    assert Group([x1]) == [x1];
    GroupSnoc([x1], x2);
    assert Group([x1] + [x2]) == [("100", 5.0)];
    var e: seq<(string, real)> := [("100", 5.0)];
    assert Sort(e, PriceLe(parse, Bids)) == e;
    assert e[..1] == e;
    assert PairSum(e) == 5.0;
  }
}
