/**
 * The vanilla orderbooks page (frontend/src/vanilla/orderbooks-app.js): it
 * keeps the latest book and stats per exchange key and, when the aggregate
 * view is on, merges the books the market filter shows into one ladder per
 * side.
 *
 * Unlike the React aggregator, this one keys its Maps on the PARSED price, so
 * "100" and "100.0" fall into one row. A number is turned back into text only
 * for display; the model keeps it as a number. `parse` stands for
 * `parseFloat`.
 */
module OrderbooksApp {
  import opened MarketTypes
  import opened Sorting
  import opened Ladder
  import VanillaUtils

  /** `(parseFloat(level.price), parseFloat(level.quantity))`. */
  function NumPair(parse: string -> real, l: Level<string>): (real, real) {
    (parse(l.price), l.quantity)
  }

  function NumPairs(parse: string -> real, ls: seq<Level<string>>): (r: seq<(real, real)>)
    ensures |r| == |ls|
    ensures forall i :: 0 <= i < |ls| ==> r[i] == NumPair(parse, ls[i])
  {
    seq(|ls|, i requires 0 <= i < |ls| => NumPair(parse, ls[i]))
  }

  /** Every level of one side, book after book. */
  function NumSidePairs(books: seq<Book>, side: Side, parse: string -> real): seq<(real, real)> {
    if books == [] then []
    else NumSidePairs(books[..|books| - 1], side, parse) + NumPairs(parse, SideOf(books[|books| - 1], side))
  }

  lemma NumSidePairsSnoc(books: seq<Book>, b: Book, side: Side, parse: string -> real)
    ensures NumSidePairs(books + [b], side, parse) == NumSidePairs(books, side, parse) + NumPairs(parse, SideOf(b, side))
  {
    assert (books + [b])[..|books|] == books;
  }

  /**
   * The books `updateAggregateOrderbook` merges: those of the keys the market
   * filter shows, in the Map's order.
   */
  function Shown(keys: seq<string>, books: map<string, Book>, filter: string): seq<Book>
    requires forall i :: 0 <= i < |keys| ==> keys[i] in books
  {
    if keys == [] then []
    else
      var k := keys[|keys| - 1];
      Shown(keys[..|keys| - 1], books, filter) + (if VanillaUtils.FilterByMarket(k, filter) then [books[k]] else [])
  }

  /** `b` is the book of some key the filter shows. */
  ghost predicate ShownFrom(keys: seq<string>, books: map<string, Book>, filter: string, b: Book) {
    exists i :: 0 <= i < |keys| && keys[i] in books && VanillaUtils.FilterByMarket(keys[i], filter) && b == books[keys[i]]
  }

  /** Exactly the books of the keys the filter shows are merged. */
  lemma {:induction false} ShownSpec(keys: seq<string>, books: map<string, Book>, filter: string)
    requires forall i :: 0 <= i < |keys| ==> keys[i] in books
    ensures forall b :: b in Shown(keys, books, filter) ==> ShownFrom(keys, books, filter, b)
    ensures forall i :: 0 <= i < |keys| && VanillaUtils.FilterByMarket(keys[i], filter) ==>
      books[keys[i]] in Shown(keys, books, filter)
  {
    if keys != [] {
      var n := |keys| - 1;
      var init := keys[..n];
      ShownSpec(init, books, filter);
      var r := Shown(keys, books, filter);
      var ri := Shown(init, books, filter);
      assert r == ri + (if VanillaUtils.FilterByMarket(keys[n], filter) then [books[keys[n]]] else []);
      forall b | b in r ensures ShownFrom(keys, books, filter, b) {
        if b in ri {
          assert ShownFrom(init, books, filter, b);
          var i :| 0 <= i < |init| && init[i] in books && VanillaUtils.FilterByMarket(init[i], filter) && b == books[init[i]];
          assert init[i] == keys[i];
        } else {
          assert 0 <= n < |keys| && keys[n] in books && VanillaUtils.FilterByMarket(keys[n], filter) && b == books[keys[n]];
        }
      }
      forall i | 0 <= i < |keys| && VanillaUtils.FilterByMarket(keys[i], filter) ensures books[keys[i]] in r {
        if i < n {
          assert init[i] == keys[i];
          assert books[init[i]] in ri;
        }
      }
    }
  }

  lemma ShownStep(keys: seq<string>, books: map<string, Book>, filter: string, i: nat)
    requires i < |keys|
    requires forall j :: 0 <= j < |keys| ==> keys[j] in books
    ensures Shown(keys[..i + 1], books, filter) ==
      Shown(keys[..i], books, filter) + (if VanillaUtils.FilterByMarket(keys[i], filter) then [books[keys[i]]] else [])
  {
    assert keys[..i + 1][..i] == keys[..i];
  }

  /** The sort of `aggregateAndCalculateCumulative`: 'desc' is `b - a`, anything else `a - b`. */
  function NumLe(order: string): ((real, real), (real, real)) -> bool {
    if order == "desc" then (a: (real, real), b: (real, real)) => b.0 - a.0 <= 0.0
    else (a: (real, real), b: (real, real)) => a.0 - b.0 <= 0.0
  }

  lemma NumLeTotalPreorder(order: string)
    ensures TotalPreorder(NumLe(order))
  {
  }

  /** What `aggregateAndCalculateCumulative` returns for the Map's entries. */
  function Cumulated(entries: Entries<real>, order: string): seq<Level<real>> {
    WithCumulative(Sort(entries, NumLe(order)))
  }

  datatype AggregatedStats = AggregatedStats(
    bestBid: real, bestAsk: real, midPrice: real, spread: real,
    totalBidsQty: real, totalAsksQty: real, totalDelta: real)

  /** What the 'Aggregated' card is given. */
  datatype Aggregate = Aggregate(bids: seq<Level<real>>, asks: seq<Level<real>>, stats: AggregatedStats)

  /** The first price of a ladder, or the '0' of an empty one. */
  function BestPrice(ls: seq<Level<real>>): real {
    if ls == [] then 0.0 else ls[0].price
  }

  /** The aggregate of the shown books. */
  function AggregateOf(books: seq<Book>, parse: string -> real): Aggregate {
    var bidPairs := NumSidePairs(books, Bids, parse);
    var askPairs := NumSidePairs(books, Asks, parse);
    Summary(Cumulated(Group(bidPairs), "desc"), Cumulated(Group(askPairs), "asc"), PairSum(bidPairs), PairSum(askPairs))
  }

  /** The card's data: both ladders, their best prices, mid, spread and totals. */
  function Summary(bids: seq<Level<real>>, asks: seq<Level<real>>, totalBids: real, totalAsks: real): Aggregate {
    var bestBid := BestPrice(bids);
    var bestAsk := BestPrice(asks);
    Aggregate(bids, asks,
      AggregatedStats(bestBid, bestAsk, (bestBid + bestAsk) / 2.0, bestAsk - bestBid,
                      totalBids, totalAsks, totalBids - totalAsks))
  }

  /**
   * `updateAggregateOrderbook` (its computation): one pass over the books,
   * filling a Map per side and the two running totals, then the sorted ladders
   * and the summary fields.
   */
  method UpdateAggregate(keys: seq<string>, books: map<string, Book>, filter: string, parse: string -> real)
    returns (agg: Aggregate)
    requires forall i :: 0 <= i < |keys| ==> keys[i] in books
    ensures agg == AggregateOf(Shown(keys, books, filter), parse)
  {
    var bidMap, askMap, totalBidsQty, totalAsksQty := MergeShownBooks(keys, books, filter, parse);
    var bids := AggregateAndCalculateCumulative(bidMap, "desc");
    var asks := AggregateAndCalculateCumulative(askMap, "asc");
    agg := Summary(bids, asks, totalBidsQty, totalAsksQty);
  }

  /** The `this.orderbooks.forEach` pass: shown books only, both sides, with their totals. */
  method MergeShownBooks(keys: seq<string>, books: map<string, Book>, filter: string, parse: string -> real)
    returns (bidMap: Entries<real>, askMap: Entries<real>, totalBidsQty: real, totalAsksQty: real)
    requires forall i :: 0 <= i < |keys| ==> keys[i] in books
    ensures bidMap == Group(NumSidePairs(Shown(keys, books, filter), Bids, parse))
    ensures askMap == Group(NumSidePairs(Shown(keys, books, filter), Asks, parse))
    ensures totalBidsQty == PairSum(NumSidePairs(Shown(keys, books, filter), Bids, parse))
    ensures totalAsksQty == PairSum(NumSidePairs(Shown(keys, books, filter), Asks, parse))
  {
    bidMap, askMap := [], [];
    totalBidsQty, totalAsksQty := 0.0, 0.0;
    ghost var shown: seq<Book> := [];
    for i := 0 to |keys|
      invariant shown == Shown(keys[..i], books, filter)
      invariant bidMap == Group(NumSidePairs(shown, Bids, parse)) && totalBidsQty == PairSum(NumSidePairs(shown, Bids, parse))
      invariant askMap == Group(NumSidePairs(shown, Asks, parse)) && totalAsksQty == PairSum(NumSidePairs(shown, Asks, parse))
    {
      ShownStep(keys, books, filter, i);
      if VanillaUtils.FilterByMarket(keys[i], filter) {
        bidMap, askMap, totalBidsQty, totalAsksQty :=
          MergeBook(bidMap, askMap, totalBidsQty, totalAsksQty, shown, books[keys[i]], parse);
        shown := shown + [books[keys[i]]];
      }
    }
    assert keys[..|keys|] == keys;
  }

  /** One shown exchange: its bids, then its asks. */
  method MergeBook(bidMap: Entries<real>, askMap: Entries<real>, totalBidsQty: real, totalAsksQty: real,
                   ghost shown: seq<Book>, data: Book, parse: string -> real)
    returns (bidMap': Entries<real>, askMap': Entries<real>, totalBidsQty': real, totalAsksQty': real)
    requires bidMap == Group(NumSidePairs(shown, Bids, parse)) && totalBidsQty == PairSum(NumSidePairs(shown, Bids, parse))
    requires askMap == Group(NumSidePairs(shown, Asks, parse)) && totalAsksQty == PairSum(NumSidePairs(shown, Asks, parse))
    ensures bidMap' == Group(NumSidePairs(shown + [data], Bids, parse))
    ensures totalBidsQty' == PairSum(NumSidePairs(shown + [data], Bids, parse))
    ensures askMap' == Group(NumSidePairs(shown + [data], Asks, parse))
    ensures totalAsksQty' == PairSum(NumSidePairs(shown + [data], Asks, parse))
  {
    NumSidePairsSnoc(shown, data, Bids, parse);
    NumSidePairsSnoc(shown, data, Asks, parse);
    bidMap', totalBidsQty' := MergeNumLevels(bidMap, totalBidsQty, NumSidePairs(shown, Bids, parse), data.bids, parse);
    askMap', totalAsksQty' := MergeNumLevels(askMap, totalAsksQty, NumSidePairs(shown, Asks, parse), data.asks, parse);
  }

  /** One `data.bids.forEach` (or asks): the Map update and the running total per level. */
  method MergeNumLevels(m: Entries<real>, total: real, ghost visited: seq<(real, real)>,
                        levels: seq<Level<string>>, parse: string -> real)
    returns (r: Entries<real>, newTotal: real)
    requires m == Group(visited) && total == PairSum(visited)
    ensures r == Group(visited + NumPairs(parse, levels))
    ensures newTotal == PairSum(visited + NumPairs(parse, levels))
  {
    r := m;
    newTotal := total;
    ghost var seen := visited;
    for i := 0 to |levels|
      invariant seen == visited + NumPairs(parse, levels[..i])
      invariant r == Group(seen) && newTotal == PairSum(seen)
    {
      var level := NumPair(parse, levels[i]);  // (price, qty)
      MergeStep(seen, visited, levels, i, parse);
      r := Put(r, level.0, GetOrZero(r, level.0) + level.1);
      newTotal := newTotal + level.1;
      seen := seen + [level];
    }
    assert levels[..|levels|] == levels;
  }

  /** One level more: one more `set` and one more addend. */
  lemma MergeStep(seen: seq<(real, real)>, visited: seq<(real, real)>, levels: seq<Level<string>>, i: nat, parse: string -> real)
    requires i < |levels|
    requires seen == visited + NumPairs(parse, levels[..i])
    ensures var level := NumPair(parse, levels[i]);
      && seen + [level] == visited + NumPairs(parse, levels[..i + 1])
      && Group(seen + [level]) == Put(Group(seen), level.0, GetOrZero(Group(seen), level.0) + level.1)
      && PairSum(seen + [level]) == PairSum(seen) + level.1
  {
    var level := NumPair(parse, levels[i]);
    GroupSnoc(seen, level);
    assert (seen + [level])[..|seen|] == seen;
    NumPairsPrefix(parse, levels, i);
  }

  lemma NumPairsPrefix(parse: string -> real, levels: seq<Level<string>>, i: nat)
    requires i < |levels|
    ensures NumPairs(parse, levels[..i + 1]) == NumPairs(parse, levels[..i]) + [NumPair(parse, levels[i])]
  {
    var a := NumPairs(parse, levels[..i + 1]);
    var b := NumPairs(parse, levels[..i]) + [NumPair(parse, levels[i])];
    assert |a| == |b|;
    forall k | 0 <= k < |a| ensures a[k] == b[k] {
      assert levels[..i + 1][k] == levels[k];
      if k < i {
        assert levels[..i][k] == levels[k];
      }
    }
  }

  /**
   * `aggregateAndCalculateCumulative`: the Map's entries sorted by price,
   * then each with the running total of the quantities up to it.
   */
  method AggregateAndCalculateCumulative(priceMap: Entries<real>, order: string) returns (levels: seq<Level<real>>)
    ensures levels == Cumulated(priceMap, order)
  {
    var entries := new (real, real)[|priceMap|](i requires 0 <= i < |priceMap| => priceMap[i]);
    assert entries[..] == priceMap;
    SortInPlace(entries, NumLe(order));
    var sorted := entries[..];
    var cumulative := 0.0;
    levels := [];
    for i := 0 to |sorted|
      invariant |levels| == i
      invariant cumulative == PairSum(sorted[..i])
      invariant forall k :: 0 <= k < i ==> levels[k] == Level(sorted[k].0, sorted[k].1, PairSum(sorted[..k + 1]))
    {
      assert sorted[..i + 1][..i] == sorted[..i];
      cumulative := cumulative + sorted[i].1;
      levels := levels + [Level(sorted[i].0, sorted[i].1, cumulative)];
    }
  }

  /** A side's total is the last cumulative of its ladder, when it has one. */
  lemma LadderTotal(ps: seq<(real, real)>, order: string)
    ensures var r := Cumulated(Group(ps), order);
      r != [] ==> PairSum(ps) == r[|r| - 1].cumulative
  {
    GroupTotal(ps);
    SortTotal(Group(ps), NumLe(order));
    if Group(ps) != [] {
      WithCumulativeTotal(Sort(Group(ps), NumLe(order)));
    }
  }

  /**
   * With at least one level, a side's total is the last cumulative of its
   * ladder; the delta is bids minus asks and the spread best ask minus best bid.
   */
  lemma AggregateTotals(books: seq<Book>, parse: string -> real)
    ensures var a := AggregateOf(books, parse);
      && (a.bids != [] ==> a.stats.totalBidsQty == a.bids[|a.bids| - 1].cumulative)
      && (a.asks != [] ==> a.stats.totalAsksQty == a.asks[|a.asks| - 1].cumulative)
      && a.stats.totalDelta == a.stats.totalBidsQty - a.stats.totalAsksQty
      && a.stats.spread == a.stats.bestAsk - a.stats.bestBid
  {
    LadderTotal(NumSidePairs(books, Bids, parse), "desc");
    LadderTotal(NumSidePairs(books, Asks, parse), "asc");
  }

  /** A ladder holds each price of `ps` once, with the total quantity at it. */
  lemma LadderSpec(ps: seq<(real, real)>, order: string)
    ensures var r := Cumulated(Group(ps), order);
      && (forall i, j :: 0 <= i < j < |r| ==> r[i].price != r[j].price)
      && (forall i :: 0 <= i < |r| ==> r[i].quantity == SumAt(ps, r[i].price))
      && (forall p :: (exists i :: 0 <= i < |r| && r[i].price == p) <==> HasKey(ps, p))
  {
    var g := Group(ps);
    var le := NumLe(order);
    var s := Sort(g, le);
    var r := WithCumulative(s);
    GroupSpec(ps);
    SortKeys(g, le);
    forall i | 0 <= i < |r| ensures r[i].quantity == SumAt(ps, r[i].price) {
      SortedEntryIsEntry(g, le, i);
    }
    forall p ensures (exists i :: 0 <= i < |r| && r[i].price == p) <==> HasKey(ps, p) {
      if HasKey(s, p) {
        var i :| 0 <= i < |s| && s[i].0 == p;
        assert r[i].price == p;
      }
    }
  }

  /** The side's ladder: one row per distinct parsed price, holding the total quantity at it. */
  lemma AggregateMergesEqualPrices(books: seq<Book>, side: Side, parse: string -> real)
    ensures var ps := NumSidePairs(books, side, parse);
      var r := if side == Bids then AggregateOf(books, parse).bids else AggregateOf(books, parse).asks;
      && (forall i, j :: 0 <= i < j < |r| ==> r[i].price != r[j].price)
      && (forall i :: 0 <= i < |r| ==> r[i].quantity == SumAt(ps, r[i].price))
      && (forall p :: (exists i :: 0 <= i < |r| && r[i].price == p) <==> HasKey(ps, p))
  {
    var ps := NumSidePairs(books, side, parse);
    if side == Bids {
      LadderSpec(ps, "desc");
      assert AggregateOf(books, parse).bids == Cumulated(Group(ps), "desc");
    } else {
      LadderSpec(ps, "asc");
      assert AggregateOf(books, parse).asks == Cumulated(Group(ps), "asc");
    }
  }

  /** A ladder runs in its order: down for 'desc', up otherwise. */
  lemma LadderSorted(ps: seq<(real, real)>, order: string)
    ensures order == "desc" ==> var r := Cumulated(Group(ps), order);
      forall i, j :: 0 <= i < j < |r| ==> r[i].price >= r[j].price
    ensures order != "desc" ==> var r := Cumulated(Group(ps), order);
      forall i, j :: 0 <= i < j < |r| ==> r[i].price <= r[j].price
  {
    NumLeTotalPreorder(order);
    SortSorted(Group(ps), NumLe(order));
  }

  /** Bids run from the highest price down, asks from the lowest up. */
  lemma AggregateSorted(books: seq<Book>, parse: string -> real)
    ensures var a := AggregateOf(books, parse);
      && (forall i, j :: 0 <= i < j < |a.bids| ==> a.bids[i].price >= a.bids[j].price)
      && (forall i, j :: 0 <= i < j < |a.asks| ==> a.asks[i].price <= a.asks[j].price)
  {
    var a := AggregateOf(books, parse);
    assert "asc" != "desc" by { assert |"asc"| != |"desc"|; }
    assert a.bids == Cumulated(Group(NumSidePairs(books, Bids, parse)), "desc");
    assert a.asks == Cumulated(Group(NumSidePairs(books, Asks, parse)), "asc");
    LadderSorted(NumSidePairs(books, Bids, parse), "desc");
    LadderSorted(NumSidePairs(books, Asks, parse), "asc");
  }

  /** The first price of a ladder bounds every price merged into it, from above for 'desc'. */
  lemma LadderBest(ps: seq<(real, real)>, order: string)
    ensures var best := BestPrice(Cumulated(Group(ps), order));
      forall x :: x in ps ==> (if order == "desc" then x.0 <= best else best <= x.0)
  {
    var r := Cumulated(Group(ps), order);
    LadderSpec(ps, order);
    LadderSorted(ps, order);
    forall x | x in ps ensures if order == "desc" then x.0 <= BestPrice(r) else BestPrice(r) <= x.0 {
      var j :| 0 <= j < |ps| && ps[j] == x;
      assert HasKey(ps, x.0);
      var i :| 0 <= i < |r| && r[i].price == x.0;
      assert i == 0 || 0 < i;
    }
  }

  /** Every parsed bid price is at most the best bid; every ask price at least the best ask. */
  lemma BestPricesBound(books: seq<Book>, parse: string -> real)
    ensures var a := AggregateOf(books, parse);
      && (forall x :: x in NumSidePairs(books, Bids, parse) ==> x.0 <= a.stats.bestBid)
      && (forall x :: x in NumSidePairs(books, Asks, parse) ==> a.stats.bestAsk <= x.0)
  {
    assert "asc" != "desc" by { assert |"asc"| != |"desc"|; }
    LadderBest(NumSidePairs(books, Bids, parse), "desc");
    LadderBest(NumSidePairs(books, Asks, parse), "asc");
  }

  /** Two exchanges quoting "100" and "100.0", which parse alike, give one row of 5. */
  lemma MergeByValueExample(parse: string -> real)
    requires parse("100") == parse("100.0")
    ensures AggregateOf([Book([Level("100", 2.0, 2.0)], []), Book([Level("100.0", 3.0, 3.0)], [])], parse).bids ==
      [Level(parse("100"), 5.0, 5.0)]
  {
    var b1 := Book([Level("100", 2.0, 2.0)], []);
    var b2 := Book([Level("100.0", 3.0, 3.0)], []);
    var p := parse("100");
    NumSidePairsSnoc([], b1, Bids, parse);
    assert [b1, b2] == [b1] + [b2];
    NumSidePairsSnoc([b1], b2, Bids, parse);
    var ps := NumSidePairs([b1, b2], Bids, parse);
    assert ps == [(p, 2.0), (p, 3.0)];
    GroupSnoc([(p, 2.0)], (p, 3.0));
    assert Group([(p, 2.0)]) == [(p, 2.0)];
    assert Group(ps) == [(p, 5.0)];
    assert Sort([(p, 5.0)], NumLe("desc")) == [(p, 5.0)];
    assert PairSum([(p, 5.0)]) == 5.0;
  }

  /** `m.set(k, v)` for every entry of `updates`, in order. */
  function Assign<V>(m: map<string, V>, updates: seq<(string, V)>): map<string, V> {
    if updates == [] then m
    else Assign(m, updates[..|updates| - 1])[updates[|updates| - 1].0 := updates[|updates| - 1].1]
  }

  /** After the copy, the keys are the old ones and the updated ones. */
  lemma {:induction false} AssignKeys<V>(m: map<string, V>, updates: seq<(string, V)>)
    ensures forall k :: k in Assign(m, updates) <==> k in m || exists i :: 0 <= i < |updates| && updates[i].0 == k
  {
    if updates != [] {
      var n := |updates| - 1;
      var init := updates[..n];
      AssignKeys(m, init);
      forall k | exists i :: 0 <= i < |updates| && updates[i].0 == k ensures k in Assign(m, updates) {
        var i :| 0 <= i < |updates| && updates[i].0 == k;
        if i < n {
          assert init[i].0 == k;
        }
      }
      assert forall i :: 0 <= i < n ==> init[i] == updates[i];
    }
  }

  /** A key no update names keeps its old value. */
  lemma {:induction false} AssignUntouched<V>(m: map<string, V>, updates: seq<(string, V)>, k: string)
    requires k in m
    requires forall i :: 0 <= i < |updates| ==> updates[i].0 != k
    ensures k in Assign(m, updates) && Assign(m, updates)[k] == m[k]
  {
    if updates != [] {
      var n := |updates| - 1;
      forall i | 0 <= i < n ensures updates[..n][i].0 != k {
        assert updates[..n][i] == updates[i];
      }
      AssignUntouched(m, updates[..n], k);
    }
  }

  /** A key holds the value of the last update naming it. */
  lemma {:induction false} AssignLast<V>(m: map<string, V>, updates: seq<(string, V)>, i: nat)
    requires i < |updates|
    requires forall j :: i < j < |updates| ==> updates[j].0 != updates[i].0
    ensures updates[i].0 in Assign(m, updates) && Assign(m, updates)[updates[i].0] == updates[i].1
  {
    var n := |updates| - 1;
    if i < n {
      var init := updates[..n];
      assert init[i] == updates[i];
      forall j | i < j < n ensures init[j].0 != init[i].0 {
        assert init[j] == updates[j];
      }
      AssignLast(m, init, i);
    }
  }

  /** The Map's key order after the copy: new keys go last, in the order first set. */
  function AddKeys<V>(keys: seq<string>, updates: seq<(string, V)>): seq<string> {
    if updates == [] then keys
    else
      var init := AddKeys(keys, updates[..|updates| - 1]);
      var k := updates[|updates| - 1].0;
      if k in init then init else init + [k]
  }

  /** The old keys keep their places; the new ones are the updated keys not already present, each once. */
  lemma {:induction false} AddKeysSpec<V>(keys: seq<string>, updates: seq<(string, V)>)
    ensures var r := AddKeys(keys, updates);
      |r| >= |keys| && r[..|keys|] == keys
    ensures forall k :: k in AddKeys(keys, updates) <==> k in keys || exists i :: 0 <= i < |updates| && updates[i].0 == k
    ensures (forall i, j :: 0 <= i < j < |keys| ==> keys[i] != keys[j]) ==>
      var r := AddKeys(keys, updates);
      forall i, j :: 0 <= i < j < |r| ==> r[i] != r[j]
  {
    if updates != [] {
      var n := |updates| - 1;
      var init := updates[..n];
      AddKeysSpec(keys, init);
      var ri := AddKeys(keys, init);
      var r := AddKeys(keys, updates);
      assert r[..|ri|] == ri;
      assert r[..|keys|] == ri[..|keys|];
      forall k | exists i :: 0 <= i < |updates| && updates[i].0 == k ensures k in r {
        var i :| 0 <= i < |updates| && updates[i].0 == k;
        if i < n {
          assert init[i].0 == k;
        }
      }
      assert forall i :: 0 <= i < n ==> init[i] == updates[i];
    }
  }

  /** The page's state: the two Maps, the filter, the aggregate switch and what the aggregate card shows. */
  class OrderbooksPage {
    /** The keys of `this.orderbooks`, in the Map's order. */
    var orderbookKeys: seq<string>
    var orderbooks: map<string, Book>
    var stats: map<string, Stats>
    var marketFilter: string
    var showAggregate: bool
    var aggregated: Option<Aggregate>
    const parse: string -> real

    ghost predicate Valid()
      reads this
    {
      && (forall k :: k in orderbooks <==> k in orderbookKeys)
      && (forall i, j :: 0 <= i < j < |orderbookKeys| ==> orderbookKeys[i] != orderbookKeys[j])
    }

    /** The saved filter, or 'all' when none (or an empty one) was saved. */
    constructor(savedFilter: Option<string>, parse: string -> real)
      ensures Valid()
      ensures orderbookKeys == [] && orderbooks == map[] && stats == map[]
      ensures marketFilter == (if savedFilter.Some? && savedFilter.value != "" then savedFilter.value else "all")
      ensures !showAggregate && aggregated == None && this.parse == parse
    {
      orderbookKeys := [];
      orderbooks := map[];
      stats := map[];
      marketFilter := if savedFilter.Some? && savedFilter.value != "" then savedFilter.value else "all";
      showAggregate := false;
      aggregated := None;
      this.parse := parse;
    }

    /**
     * `handleOrderbookUpdates`: every entry of the batch is set in the Map;
     * with the aggregate view on, the aggregate is rebuilt from the result.
     */
    method HandleOrderbookUpdates(updates: seq<(string, Book)>)
      requires Valid()
      modifies this
      ensures Valid()
      ensures orderbooks == Assign(old(orderbooks), updates)
      ensures orderbookKeys == AddKeys(old(orderbookKeys), updates)
      ensures showAggregate ==> aggregated == Some(AggregateOf(Shown(orderbookKeys, orderbooks, marketFilter), parse))
      ensures !showAggregate ==> aggregated == old(aggregated)
      ensures stats == old(stats) && marketFilter == old(marketFilter) && showAggregate == old(showAggregate)
    {
      for i := 0 to |updates|
        invariant Valid()
        invariant orderbooks == Assign(old(orderbooks), updates[..i])
        invariant orderbookKeys == AddKeys(old(orderbookKeys), updates[..i])
        invariant stats == old(stats) && aggregated == old(aggregated)
        invariant marketFilter == old(marketFilter) && showAggregate == old(showAggregate)
      {
        assert updates[..i + 1][..i] == updates[..i];
        var exchange := updates[i].0;
        if exchange !in orderbooks {
          orderbookKeys := orderbookKeys + [exchange];
        }
        orderbooks := orderbooks[exchange := updates[i].1];
      }
      assert updates[..|updates|] == updates;
      if showAggregate {
        var agg := UpdateAggregate(orderbookKeys, orderbooks, marketFilter, parse);
        aggregated := Some(agg);
      }
    }

    /** `handleStatsUpdates`: every entry of the batch is set in the stats Map. */
    method HandleStatsUpdates(updates: seq<(string, Stats)>)
      modifies this
      ensures stats == Assign(old(stats), updates)
      ensures orderbookKeys == old(orderbookKeys) && orderbooks == old(orderbooks)
      ensures marketFilter == old(marketFilter) && showAggregate == old(showAggregate) && aggregated == old(aggregated)
    {
      for i := 0 to |updates|
        invariant stats == Assign(old(stats), updates[..i])
        invariant orderbookKeys == old(orderbookKeys) && orderbooks == old(orderbooks)
        invariant marketFilter == old(marketFilter) && showAggregate == old(showAggregate) && aggregated == old(aggregated)
      {
        assert updates[..i + 1][..i] == updates[..i];
        stats := stats[updates[i].0 := updates[i].1];
      }
      assert updates[..|updates|] == updates;
    }

    /** `updateMarketFilter`: only the filter changes; the cards are redrawn. */
    method UpdateMarketFilter(filter: string)
      modifies this
      ensures marketFilter == filter
      ensures orderbookKeys == old(orderbookKeys) && orderbooks == old(orderbooks) && stats == old(stats)
      ensures showAggregate == old(showAggregate) && aggregated == old(aggregated)
    {
      marketFilter := filter;
    }

    /** `toggleAggregate`: the switch flips; turning it on rebuilds the aggregate. */
    method ToggleAggregate()
      requires Valid()
      modifies this
      ensures Valid()
      ensures showAggregate == !old(showAggregate)
      ensures showAggregate ==> aggregated == Some(AggregateOf(Shown(orderbookKeys, orderbooks, marketFilter), parse))
      ensures !showAggregate ==> aggregated == old(aggregated)
      ensures orderbookKeys == old(orderbookKeys) && orderbooks == old(orderbooks) && stats == old(stats)
      ensures marketFilter == old(marketFilter)
    {
      showAggregate := !showAggregate;
      if showAggregate {
        var agg := UpdateAggregate(orderbookKeys, orderbooks, marketFilter, parse);
        aggregated := Some(agg);
      }
    }
  }
}
