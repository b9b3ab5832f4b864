/**
 * The vanilla stats table (frontend/src/vanilla/components/stats-table.js):
 * which exchanges get a row, in which order, and how a click on a column
 * head changes the sort.
 *
 * `stats` is the object the page hands over, as its entries in insertion
 * order. That is `Object.entries` order for keys that are not integer-like,
 * which JavaScript would list first. Rows are kept as (exchange, stats)
 * pairs; the markup of a row is not modelled.
 */
module StatsTable {
  import opened MarketTypes
  import opened Sorting
  import Calculations
  import VanillaUtils

  datatype Direction = Asc | Desc

  /** Some entry of `entries` has key `k`. */
  predicate HasEntry(entries: seq<(string, Stats)>, k: string) {
    exists i :: 0 <= i < |entries| && entries[i].0 == k
  }

  ghost predicate DistinctNames(entries: seq<(string, Stats)>) {
    forall i, j :: 0 <= i < j < |entries| ==> entries[i].0 != entries[j].0
  }

  /** A stats value with every field zero. */
  const ZeroStats := Stats(0.0, 0.0, 0.0, 0.0, 0.0, 0.0, 0.0, 0.0, 0.0, 0.0, 0.0, 0.0, 0.0, 0.0, 0.0, 0.0)

  /** `this.stats[exchange]`: the value of the entry with that key (a present key is always looked up). */
  function StatOf(entries: seq<(string, Stats)>, k: string): (r: Stats)
    ensures forall i :: 0 <= i < |entries| && entries[i].0 == k && DistinctNames(entries) ==> r == entries[i].1
  {
    if entries == [] then ZeroStats
    else if entries[0].0 == k then entries[0].1
    else
      var r := StatOf(entries[1..], k);
      assert forall i :: 1 <= i < |entries| ==> entries[i] == entries[1..][i - 1];
      r
  }

  /** The keys of the entries the market filter passes, in entry order. */
  function FilteredKeys(entries: seq<(string, Stats)>, filter: string): seq<string> {
    if entries == [] then []
    else
      var k := entries[|entries| - 1].0;
      FilteredKeys(entries[..|entries| - 1], filter) + (if VanillaUtils.FilterByMarket(k, filter) then [k] else [])
  }

  /** A key is kept iff it is an entry's key that the filter passes; distinct keys stay distinct. */
  lemma {:induction false} FilteredKeysSpec(entries: seq<(string, Stats)>, filter: string)
    ensures forall k :: k in FilteredKeys(entries, filter) <==> HasEntry(entries, k) && VanillaUtils.FilterByMarket(k, filter)
    ensures DistinctNames(entries) ==> Distinct(FilteredKeys(entries, filter))
  {
    if entries != [] {
      var n := |entries| - 1;
      var init := entries[..n];
      FilteredKeysSpec(init, filter);
      assert forall i :: 0 <= i < n ==> init[i] == entries[i];
      forall k ensures HasEntry(entries, k) <==> HasEntry(init, k) || entries[n].0 == k {
        if HasEntry(entries, k) && entries[n].0 != k {
          var i :| 0 <= i < |entries| && entries[i].0 == k;
          assert init[i].0 == k;
        }
      }
      if DistinctNames(entries) {
        assert DistinctNames(init);
        assert !HasEntry(init, entries[n].0);
      }
    }
  }

  /** The (exchange, stats) pairs `.map(exchange => [exchange, this.stats[exchange]])` builds. */
  function Rows(names: seq<string>, entries: seq<(string, Stats)>): (r: seq<(string, Stats)>)
    ensures |r| == |names|
    ensures forall i :: 0 <= i < |names| ==> r[i] == (names[i], StatOf(entries, names[i]))
  {
    seq(|names|, i requires 0 <= i < |names| => (names[i], StatOf(entries, names[i])))
  }

  /** The number `parseFloat(stat[column]) || 0` gives: the field the column names, 0 for any other. */
  function FieldOrZero(stat: Stats, column: string): real {
    if column == "bestBid" then stat.bestBid
    else if column == "bestAsk" then stat.bestAsk
    else if column == "midPrice" then stat.midPrice
    else if column == "spread" then stat.spread
    else if column == "bidLiquidity05Pct" then stat.bidLiquidity05Pct
    else if column == "askLiquidity05Pct" then stat.askLiquidity05Pct
    else if column == "deltaLiquidity05Pct" then stat.deltaLiquidity05Pct
    else if column == "bidLiquidity2Pct" then stat.bidLiquidity2Pct
    else if column == "askLiquidity2Pct" then stat.askLiquidity2Pct
    else if column == "deltaLiquidity2Pct" then stat.deltaLiquidity2Pct
    else if column == "bidLiquidity10Pct" then stat.bidLiquidity10Pct
    else if column == "askLiquidity10Pct" then stat.askLiquidity10Pct
    else if column == "deltaLiquidity10Pct" then stat.deltaLiquidity10Pct
    else if column == "totalBidsQty" then stat.totalBidsQty
    else if column == "totalAsksQty" then stat.totalAsksQty
    else if column == "totalDelta" then stat.totalDelta
    else 0.0
  }

  /** A sort value: a missing property, a number or a text. */
  datatype SortKey = Undefined | Num(n: real) | Text(t: string)

  /**
   * `aValue < bValue ? -1 : aValue > bValue ? 1 : 0`. Both `<` and `>` are
   * false when a side is undefined; texts compare by code points. A column's
   * values are all of one kind, so a number is never compared with a text.
   */
  function Compare(a: SortKey, b: SortKey): (r: int)
    ensures -1 <= r <= 1
    ensures a.Undefined? || b.Undefined? ==> r == 0
    ensures a.Num? && b.Num? ==> (r < 0 <==> a.n < b.n) && (r > 0 <==> a.n > b.n)
    ensures a.Text? && b.Text? ==> (r == 0 <==> a.t == b.t)
  {
    match (a, b)
    case (Num(x), Num(y)) => if x < y then -1 else if x > y then 1 else 0
    case (Text(x), Text(y)) => Calculations.LocaleCompare(x, y)
    case _ => 0
  }

  /** `getSortValue` as written: the 'exchange' column reads `stat.exchange`, which no stats object has. */
  function SortValueAsWritten(stat: Stats, column: string): (r: SortKey)
    ensures column == "exchange" ==> r == Undefined
    ensures column != "exchange" ==> r == Num(FieldOrZero(stat, column))
  {
    if column == "exchange" then Undefined else Num(FieldOrZero(stat, column))
  }

  /** `getSortValue` as intended: the 'exchange' column sorts by the row's exchange key. */
  function SortValue(row: (string, Stats), column: string): (r: SortKey)
    ensures column == "exchange" ==> r == Text(row.0)
    ensures column != "exchange" ==> r == Num(FieldOrZero(row.1, column))
  {
    if column == "exchange" then Text(row.0) else Num(FieldOrZero(row.1, column))
  }

  /** The column comparator, negated for 'desc', as "may precede". */
  function ColumnLeAsWritten(column: string, dir: Direction): ((string, Stats), (string, Stats)) -> bool {
    (a: (string, Stats), b: (string, Stats)) =>
      var c := Compare(SortValueAsWritten(a.1, column), SortValueAsWritten(b.1, column));
      (if dir == Asc then c else -c) <= 0
  }

  lemma ColumnLeAsWrittenTotalPreorder(column: string, dir: Direction)
    ensures TotalPreorder(ColumnLeAsWritten(column, dir))
  {
  }

  /** The column comparator with `getSortValue` as intended. */
  function ColumnLe(column: string, dir: Direction): ((string, Stats), (string, Stats)) -> bool {
    (a: (string, Stats), b: (string, Stats)) =>
      var c := Compare(SortValue(a, column), SortValue(b, column));
      (if dir == Asc then c else -c) <= 0
  }

  lemma ColumnLeTotalPreorder(column: string, dir: Direction)
    ensures TotalPreorder(ColumnLe(column, dir))
  {
    var le := ColumnLe(column, dir);
    forall a: (string, Stats), b: (string, Stats) ensures le(a, b) || le(b, a) {
      Calculations.LocaleCompareAntisymmetric(a.0, b.0);
    }
    forall a: (string, Stats), b: (string, Stats), c: (string, Stats) | le(a, b) && le(b, c) ensures le(a, c) {
      if column == "exchange" {
        if dir == Asc {
          Calculations.LocaleCompareTransitive(a.0, b.0, c.0);
        } else {
          Calculations.LocaleCompareAntisymmetric(a.0, b.0);
          Calculations.LocaleCompareAntisymmetric(b.0, c.0);
          Calculations.LocaleCompareAntisymmetric(a.0, c.0);
          Calculations.LocaleCompareTransitive(c.0, b.0, a.0);
        }
      }
    }
  }

  /**
   * The rows `update` draws, top to bottom, as written: the keys are ranked
   * by `sortExchangesByGroup` as written and the rows by `getSortValue` as
   * written.
   */
  function DisplayAsWritten(entries: seq<(string, Stats)>, filter: string, column: Option<string>, dir: Direction): seq<(string, Stats)> {
    var names := Sort(FilteredKeys(entries, filter), VanillaUtils.RankLe(VanillaUtils.Rank));
    var rows := Rows(names, entries);
    if column.Some? then Sort(rows, ColumnLeAsWritten(column.value, dir)) else rows
  }

  /** The rows `update` was meant to draw: keys ranked by card label, the 'exchange' column by key. */
  function Display(entries: seq<(string, Stats)>, filter: string, column: Option<string>, dir: Direction): seq<(string, Stats)> {
    var names := Sort(FilteredKeys(entries, filter), VanillaUtils.RankLe(VanillaUtils.LabelRank));
    var rows := Rows(names, entries);
    if column.Some? then Sort(rows, ColumnLe(column.value, dir)) else rows
  }

  /** Equal multisets: a sequence without repeats has a permutation without repeats. */
  lemma DistinctPermutation<T>(a: seq<T>, b: seq<T>)
    requires multiset(a) == multiset(b) && Distinct(a)
    ensures Distinct(b)
  {
    forall x ensures multiset(a)[x] <= 1 {
      DistinctCount(a, x);
    }
    forall i, j | 0 <= i < j < |b| ensures b[i] != b[j] {
      if b[i] == b[j] {
        RepeatCount(b, i, j);
        assert false;
      }
    }
  }

  lemma {:induction false} DistinctCount<T>(s: seq<T>, x: T)
    requires Distinct(s)
    ensures multiset(s)[x] <= 1
  {
    if s != [] {
      assert s == [s[0]] + s[1..];
      assert Distinct(s[1..]) by {
        forall i, j | 0 <= i < j < |s[1..]| ensures s[1..][i] != s[1..][j] {
          assert s[1..][i] == s[i + 1] && s[1..][j] == s[j + 1];
        }
      }
      DistinctCount(s[1..], x);
      if s[0] == x {
        assert x !in s[1..] by {
          forall i | 0 <= i < |s[1..]| ensures s[1..][i] != x {
            assert s[1..][i] == s[i + 1];
          }
        }
      }
    }
  }

  lemma RepeatCount<T>(s: seq<T>, i: nat, j: nat)
    requires i < j < |s| && s[i] == s[j]
    ensures multiset(s)[s[i]] >= 2
  {
    assert s == s[..i] + [s[i]] + s[i + 1..j] + [s[j]] + s[j + 1..];
  }

  /** Every row carries the stats its exchange key looks up. */
  ghost predicate LookedUp(rows: seq<(string, Stats)>, entries: seq<(string, Stats)>) {
    forall i :: 0 <= i < |rows| ==> rows[i].1 == StatOf(entries, rows[i].0)
  }

  /** The rank-ordered names: the filtered keys, each once, whatever the ranking. */
  lemma SortedNames(entries: seq<(string, Stats)>, filter: string, rank: string -> int)
    requires DistinctNames(entries)
    ensures var names := Sort(FilteredKeys(entries, filter), VanillaUtils.RankLe(rank));
      && Distinct(names)
      && forall k :: k in names <==> HasEntry(entries, k) && VanillaUtils.FilterByMarket(k, filter)
  {
    var keys := FilteredKeys(entries, filter);
    FilteredKeysSpec(entries, filter);
    var names := Sort(keys, VanillaUtils.RankLe(rank));
    SortPermutes(keys, VanillaUtils.RankLe(rank));
    DistinctPermutation(keys, names);
    forall k ensures k in names <==> k in keys {
      assert k in names <==> k in multiset(names);
    }
  }

  /** A permutation of looked-up rows with distinct names has the same names, each once. */
  lemma PermutedRows(rows: seq<(string, Stats)>, d: seq<(string, Stats)>, entries: seq<(string, Stats)>)
    requires multiset(d) == multiset(rows)
    requires LookedUp(rows, entries) && DistinctNames(rows)
    ensures LookedUp(d, entries) && DistinctNames(d)
    ensures forall k :: HasEntry(d, k) <==> HasEntry(rows, k)
  {
    assert Distinct(rows);
    DistinctPermutation(rows, d);
    forall i | 0 <= i < |d| ensures d[i] in rows {
      assert d[i] in multiset(d);
    }
    forall k ensures HasEntry(d, k) <==> HasEntry(rows, k) {
      if HasEntry(rows, k) {
        var t :| 0 <= t < |rows| && rows[t].0 == k;
        assert rows[t] in multiset(d);
        var i :| 0 <= i < |d| && d[i] == rows[t];
      }
    }
  }

  /** The rows shown, in any order: the exchanges the filter passes, each once, next to its own stats. */
  ghost predicate ShowsFiltered(d: seq<(string, Stats)>, entries: seq<(string, Stats)>, filter: string) {
    && (forall k :: HasEntry(d, k) <==> HasEntry(entries, k) && VanillaUtils.FilterByMarket(k, filter))
    && (forall i, j :: 0 <= i < j < |d| ==> d[i].0 != d[j].0)
    && (forall i, e :: 0 <= i < |d| && 0 <= e < |entries| && entries[e].0 == d[i].0 ==> d[i].1 == entries[e].1)
  }

  /** Any reordering of the rank-ordered rows shows the filtered exchanges, each once, with their stats. */
  lemma ReorderedRows(entries: seq<(string, Stats)>, filter: string, rank: string -> int, d: seq<(string, Stats)>)
    requires DistinctNames(entries)
    requires multiset(d) == multiset(Rows(Sort(FilteredKeys(entries, filter), VanillaUtils.RankLe(rank)), entries))
    ensures ShowsFiltered(d, entries, filter)
  {
    var names := Sort(FilteredKeys(entries, filter), VanillaUtils.RankLe(rank));
    SortedNames(entries, filter, rank);
    var rows := Rows(names, entries);
    forall k ensures HasEntry(rows, k) <==> k in names {
      if k in names {
        var t :| 0 <= t < |names| && names[t] == k;
        assert rows[t].0 == k;
      }
    }
    PermutedRows(rows, d, entries);
  }

  /**
   * The table as written shows exactly the exchanges of `stats` the market
   * filter passes, each once, next to its own stats.
   */
  lemma DisplayAsWrittenRows(entries: seq<(string, Stats)>, filter: string, column: Option<string>, dir: Direction)
    requires DistinctNames(entries)
    ensures var d := DisplayAsWritten(entries, filter, column, dir);
      && (forall k :: HasEntry(d, k) <==> HasEntry(entries, k) && VanillaUtils.FilterByMarket(k, filter))
      && (forall i, j :: 0 <= i < j < |d| ==> d[i].0 != d[j].0)
      && (forall i, e :: 0 <= i < |d| && 0 <= e < |entries| && entries[e].0 == d[i].0 ==> d[i].1 == entries[e].1)
  {
    var rows := Rows(Sort(FilteredKeys(entries, filter), VanillaUtils.RankLe(VanillaUtils.Rank)), entries);
    var d := DisplayAsWritten(entries, filter, column, dir);
    assert multiset(d) == multiset(rows) by {
      if column.Some? {
        SortPermutes(rows, ColumnLeAsWritten(column.value, dir));
      }
    }
    ReorderedRows(entries, filter, VanillaUtils.Rank, d);
  }

  /** The intended table shows the same exchanges, each once, with their stats. */
  lemma DisplayRows(entries: seq<(string, Stats)>, filter: string, column: Option<string>, dir: Direction)
    requires DistinctNames(entries)
    ensures var d := Display(entries, filter, column, dir);
      && (forall k :: HasEntry(d, k) <==> HasEntry(entries, k) && VanillaUtils.FilterByMarket(k, filter))
      && (forall i, j :: 0 <= i < j < |d| ==> d[i].0 != d[j].0)
      && (forall i, e :: 0 <= i < |d| && 0 <= e < |entries| && entries[e].0 == d[i].0 ==> d[i].1 == entries[e].1)
  {
    var rows := Rows(Sort(FilteredKeys(entries, filter), VanillaUtils.RankLe(VanillaUtils.LabelRank)), entries);
    var d := Display(entries, filter, column, dir);
    assert multiset(d) == multiset(rows) by {
      if column.Some? {
        SortPermutes(rows, ColumnLe(column.value, dir));
      }
    }
    ReorderedRows(entries, filter, VanillaUtils.LabelRank, d);
  }

  /**
   * As written, with a sort column, each row may precede every row below it
   * under the column's comparator on `getSortValue` as written.
   */
  lemma DisplayAsWrittenColumnOrder(entries: seq<(string, Stats)>, filter: string, column: string, dir: Direction)
    ensures var d := DisplayAsWritten(entries, filter, Some(column), dir);
      forall i, j :: 0 <= i < j < |d| ==>
        var c := Compare(SortValueAsWritten(d[i].1, column), SortValueAsWritten(d[j].1, column));
        if dir == Asc then c <= 0 else c >= 0
  {
    ColumnLeAsWrittenTotalPreorder(column, dir);
    SortSorted(Rows(Sort(FilteredKeys(entries, filter), VanillaUtils.RankLe(VanillaUtils.Rank)), entries), ColumnLeAsWritten(column, dir));
  }

  /** As intended, the same holds with `getSortValue` reading the row's exchange key. */
  lemma DisplayColumnOrder(entries: seq<(string, Stats)>, filter: string, column: string, dir: Direction)
    ensures var d := Display(entries, filter, Some(column), dir);
      forall i, j :: 0 <= i < j < |d| ==>
        var c := Compare(SortValue(d[i], column), SortValue(d[j], column));
        if dir == Asc then c <= 0 else c >= 0
  {
    ColumnLeTotalPreorder(column, dir);
    SortSorted(Rows(Sort(FilteredKeys(entries, filter), VanillaUtils.RankLe(VanillaUtils.LabelRank)), entries), ColumnLe(column, dir));
  }

  /**
   * As written, with no sort column or the 'exchange' column, the table
   * keeps the order of `stats`: no feed key has a space, so every key ranks
   * the same, and every 'exchange' comparison is a tie.
   */
  lemma {:induction false} DisplayAsWrittenKeepsOrder(entries: seq<(string, Stats)>, filter: string, column: Option<string>, dir: Direction)
    requires forall i :: 0 <= i < |entries| ==> ' ' !in entries[i].0
    requires column == None || column == Some("exchange")
    ensures DisplayAsWritten(entries, filter, column, dir) == Rows(FilteredKeys(entries, filter), entries)
  {
    var keys := FilteredKeys(entries, filter);
    FilteredKeysSpec(entries, filter);
    forall i | 0 <= i < |keys| ensures ' ' !in keys[i] {
      assert HasEntry(entries, keys[i]);
    }
    VanillaUtils.AsWrittenKeepsOrder(keys);
    if column.Some? {
      ExchangeColumnAsWrittenKeepsOrder(Rows(keys, entries), dir);
    }
  }

  /** `stats` = {okx, binance}, filter 'all', no sort column: as written OKX stays on top; as intended Binance does. */
  lemma DisplayFinding(s: Stats, t: Stats)
    ensures DisplayAsWritten([("okx", s), ("binance", t)], "all", None, Asc) == [("okx", s), ("binance", t)]
    ensures Display([("okx", s), ("binance", t)], "all", None, Asc) == [("binance", t), ("okx", s)]
  {
    var entries := [("okx", s), ("binance", t)];
    assert "okx" != "binance" by {
      assert |"okx"| != |"binance"|;
    }
    assert DistinctNames(entries);
    assert FilteredKeys(entries, "all") == ["okx", "binance"] by {
      assert entries[..1] == [("okx", s)];
      assert [("okx", s)][..0] == [];
      assert FilteredKeys([("okx", s)], "all") == ["okx"];
    }
    VanillaUtils.GroupOrderFinding();
    assert StatOf(entries, "okx") == s && StatOf(entries, "binance") == t;
    assert ' ' !in "okx" && ' ' !in "binance";
    DisplayAsWrittenKeepsOrder(entries, "all", None, Asc);
  }

  /** As written, sorting by the 'exchange' column changes nothing: every comparison is a tie. */
  lemma ExchangeColumnAsWrittenKeepsOrder(rows: seq<(string, Stats)>, dir: Direction)
    ensures Sort(rows, ColumnLeAsWritten("exchange", dir)) == rows
  {
    AllTiesKeepOrder(rows, ColumnLeAsWritten("exchange", dir));
  }

  /** Two rows, "okx" above "binance": as written they stay; as intended Binance moves up. */
  lemma ExchangeColumnFinding(s: Stats)
    ensures Sort([("okx", s), ("binance", s)], ColumnLeAsWritten("exchange", Asc)) == [("okx", s), ("binance", s)]
    ensures Sort([("okx", s), ("binance", s)], ColumnLe("exchange", Asc)) == [("binance", s), ("okx", s)]
  {
    var okx, binance := ("okx", s), ("binance", s);
    ExchangeColumnAsWrittenKeepsOrder([okx, binance], Asc);
    var le := ColumnLe("exchange", Asc);
    assert Calculations.LocaleCompare("okx", "binance") == 1 by {
      assert "okx"[0] == 'o' && "binance"[0] == 'b';
    }
    assert !le(okx, binance);
    assert [okx, binance][1..] == [binance];
    assert Sort([binance], le) == [binance] by {
      assert [binance][1..] == [];
    }
    assert Insert(okx, [binance], le) == [binance, okx] by {
      assert [binance][1..] == [];
    }
  }

  /** `getDeltaClass`: the sign of the value as a CSS class. */
  function DeltaClass(value: real): (r: string)
    ensures r == "positive" <==> value > 0.0
    ensures r == "negative" <==> value < 0.0
    ensures r == "neutral" <==> value == 0.0
  {
    if value > 0.0 then "positive" else if value < 0.0 then "negative" else "neutral"
  }

  /** Negating a value swaps 'positive' and 'negative' and keeps 'neutral'. */
  lemma DeltaClassNegate(value: real)
    ensures DeltaClass(-value) == (if DeltaClass(value) == "positive" then "negative"
                                   else if DeltaClass(value) == "negative" then "positive" else "neutral")
  {
  }

  /** The column and direction after a click on `column`. */
  function NextSort(sortColumn: Option<string>, dir: Direction, column: string): (r: (Option<string>, Direction))
    ensures r.0 == Some(column)
    ensures sortColumn == Some(column) ==> r.1 != dir
    ensures sortColumn != Some(column) ==> r.1 == Asc
  {
    if sortColumn == Some(column) then (sortColumn, if dir == Asc then Desc else Asc)
    else (Some(column), Asc)
  }

  /** Two clicks on the sorted column give back its direction; on another column they leave it 'desc'. */
  lemma NextSortTwice(sortColumn: Option<string>, dir: Direction, column: string)
    ensures var once := NextSort(sortColumn, dir, column);
      var twice := NextSort(once.0, once.1, column);
      twice.0 == Some(column) && twice.1 == (if sortColumn == Some(column) then dir else Desc)
  {
  }

  class StatsTableView {
    var stats: seq<(string, Stats)>
    var filter: string
    var sortColumn: Option<string>
    var sortDirection: Direction
    /** The table body, top to bottom. */
    var rows: seq<(string, Stats)>
    /** The keys of `rowElements`. */
    var rowElements: set<string>

    ghost predicate Valid()
      reads this
    {
      DistinctNames(stats)
    }

    constructor()
      ensures Valid()
      ensures stats == [] && filter == "all" && sortColumn == None && sortDirection == Asc
      ensures rows == [] && rowElements == {}
    {
      stats := [];
      filter := "all";
      sortColumn := None;
      sortDirection := Asc;
      rows := [];
      rowElements := {};
    }

    /** `setFilter`: the filter changes and the table is redrawn. */
    method SetFilter(filter: string)
      requires Valid()
      modifies this
      ensures Valid()
      ensures this.filter == filter
      ensures rows == DisplayAsWritten(stats, filter, sortColumn, sortDirection)
      ensures rowElements == set i | 0 <= i < |rows| :: rows[i].0
      ensures forall k :: k in rowElements <==> HasEntry(stats, k) && VanillaUtils.FilterByMarket(k, filter)
      ensures stats == old(stats) && sortColumn == old(sortColumn) && sortDirection == old(sortDirection)
    {
      this.filter := filter;
      Update();
    }

    /** `setStats`: the object is replaced and the table is redrawn. */
    method SetStats(stats: seq<(string, Stats)>)
      requires DistinctNames(stats)
      modifies this
      ensures Valid()
      ensures this.stats == stats
      ensures rows == DisplayAsWritten(stats, filter, sortColumn, sortDirection)
      ensures rowElements == set i | 0 <= i < |rows| :: rows[i].0
      ensures forall k :: k in rowElements <==> HasEntry(stats, k) && VanillaUtils.FilterByMarket(k, filter)
      ensures filter == old(filter) && sortColumn == old(sortColumn) && sortDirection == old(sortDirection)
    {
      this.stats := stats;
      Update();
    }

    /** `handleSort`: the click moves the sort as `NextSort` says, then the table is redrawn. */
    method HandleSort(column: string)
      requires Valid()
      modifies this
      ensures Valid()
      ensures (sortColumn, sortDirection) == NextSort(old(sortColumn), old(sortDirection), column)
      ensures rows == DisplayAsWritten(stats, filter, sortColumn, sortDirection)
      ensures rowElements == set i | 0 <= i < |rows| :: rows[i].0
      ensures forall k :: k in rowElements <==> HasEntry(stats, k) && VanillaUtils.FilterByMarket(k, filter)
      ensures stats == old(stats) && filter == old(filter)
    {
      if sortColumn == Some(column) {
        sortDirection := if sortDirection == Asc then Desc else Asc;
      } else {
        sortColumn := Some(column);
        sortDirection := Asc;
      }
      Update();
    }

    /**
     * `update`: filter the entries, order the keys with `sortExchangesByGroup`,
     * pair each with its stats, sort by the chosen column, and rebuild the rows.
     */
    method Update()
      requires Valid()
      modifies this
      ensures Valid()
      ensures rows == DisplayAsWritten(stats, filter, sortColumn, sortDirection)
      ensures rowElements == set i | 0 <= i < |rows| :: rows[i].0
      ensures forall k :: k in rowElements <==> HasEntry(stats, k) && VanillaUtils.FilterByMarket(k, filter)
      ensures stats == old(stats) && filter == old(filter)
      ensures sortColumn == old(sortColumn) && sortDirection == old(sortDirection)
    {
      var names := OrderedNames(stats, filter);
      var sorted := Rows(names, stats);
      if sortColumn.Some? {
        sorted := SortRows(sorted, sortColumn.value, sortDirection);
      }
      var elements := RowKeys(sorted);
      rows := sorted;
      rowElements := elements;
      DisplayAsWrittenRows(stats, filter, sortColumn, sortDirection);
      forall k | HasEntry(rows, k) ensures k in rowElements {
        var i :| 0 <= i < |rows| && rows[i].0 == k;
      }
    }
  }

  /** The keys `this.rowElements.set(exchange, row)` registers, one per row. */
  method RowKeys(rows: seq<(string, Stats)>) returns (keys: set<string>)
    ensures keys == set i | 0 <= i < |rows| :: rows[i].0
  {
    keys := {};
    for i := 0 to |rows|
      invariant keys == set j | 0 <= j < i :: rows[j].0
    {
      keys := keys + {rows[i].0};
    }
  }

  /** The filtered keys in the order `sortExchangesByGroup`, as written, leaves its array. */
  method OrderedNames(entries: seq<(string, Stats)>, filter: string) returns (names: seq<string>)
    ensures names == Sort(FilteredKeys(entries, filter), VanillaUtils.RankLe(VanillaUtils.Rank))
  {
    var filtered := FilteredKeys(entries, filter);
    var a := new string[|filtered|](i requires 0 <= i < |filtered| => filtered[i]);
    assert a[..] == filtered;
    VanillaUtils.SortExchangesByGroupAsWritten(a);
    names := a[..];
  }

  /** The rows sorted in place by the column comparator, with `getSortValue` as written. */
  method SortRows(rows: seq<(string, Stats)>, column: string, dir: Direction) returns (sorted: seq<(string, Stats)>)
    ensures sorted == Sort(rows, ColumnLeAsWritten(column, dir))
  {
    var a := new (string, Stats)[|rows|](i requires 0 <= i < |rows| => rows[i]);
    assert a[..] == rows;
    SortInPlace(a, ColumnLeAsWritten(column, dir));
    sorted := a[..];
  }
}
