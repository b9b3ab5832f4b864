/**
 * The vanilla frontend's helpers (frontend/src/vanilla/utils.js): the market
 * filter, the market-type label, the display name of an exchange, the rank
 * order of exchange cards, the largest cumulative total and the throttle.
 *
 * Unlike the React classifier, these helpers look at the whole key: nothing
 * after a ':' is stripped.
 */
module VanillaUtils {
  import opened MarketTypes
  import opened Sorting
  import Calculations

  /** `filterExchangesByMarket`: 'spot' and 'perps' test the key's last letter; any other filter passes all. */
  function FilterByMarket(exchange: string, filter: string): (r: bool)
    ensures filter == "spot" ==> (r <==> !Calculations.EndsWithF(exchange))
    ensures filter == "perps" ==> (r <==> Calculations.EndsWithF(exchange))
    ensures filter != "spot" && filter != "perps" ==> r
  {
    if filter == "all" then true
    else if filter == "spot" then !Calculations.EndsWithF(exchange)
    else if filter == "perps" then Calculations.EndsWithF(exchange)
    else true
  }

  /** Every key passes exactly one of 'spot' and 'perps', and passes 'all'. */
  lemma SpotAndPerpsPartition(exchange: string)
    ensures FilterByMarket(exchange, "spot") != FilterByMarket(exchange, "perps")
    ensures FilterByMarket(exchange, "all")
  {
  }

  /**
   * Without stripping, a perps key carrying a pair ("okxf:BTCUSDT") counts as
   * spot here, while the React filter counts it as perps.
   */
  lemma NoSymbolStripping()
    ensures FilterByMarket("okxf:BTCUSDT", "spot")
    ensures Calculations.FilterByMarket("okxf:BTCUSDT", Calculations.Perps)
  {
    var k := "okxf:BTCUSDT";
    assert k[4] == ':' && k[..4] == "okxf" && ':' !in k[..4];
    assert Calculations.IndexOf(k, ':') == 4;
  }

  /** `getMarketType`: the label agrees with the 'perps' filter. */
  function MarketType(exchange: string): (r: string)
    ensures r == "Perps" <==> FilterByMarket(exchange, "perps")
    ensures r == "Spot" <==> FilterByMarket(exchange, "spot")
  {
    if Calculations.EndsWithF(exchange) then "Perps" else "Spot"
  }

  /** `toLowerCase` on the ASCII letters. */
  function LowerChar(c: char): char {
    if 'A' <= c <= 'Z' then (c as int + 32) as char else c
  }

  function Lower(s: string): (r: string)
    ensures |r| == |s|
  {
    seq(|s|, i requires 0 <= i < |s| => LowerChar(s[i]))
  }

  /** The substrings `getExchangeIcon` tries, in order, and the names they give. */
  const IconTable: seq<(string, string)> := [
    ("binance", "Binance"), ("bybit", "Bybit"), ("coinbase", "Coinbase"),
    ("kraken", "Kraken"), ("okx", "OKX"), ("bitfinex", "Bitfinex")]

  /** The first entry of `table`, from `from` on, whose substring occurs in `s`. */
  function FirstMatch(s: string, table: seq<(string, string)>, from: nat): (r: Option<nat>)
    requires from <= |table|
    ensures r.Some? ==> from <= r.value < |table| && Calculations.Includes(s, table[r.value].0)
    ensures r.Some? ==> forall j :: from <= j < r.value ==> !Calculations.Includes(s, table[j].0)
    ensures r.None? ==> forall j :: from <= j < |table| ==> !Calculations.Includes(s, table[j].0)
    decreases |table| - from
  {
    if from == |table| then None
    else if Calculations.Includes(s, table[from].0) then Some(from)
    else FirstMatch(s, table, from + 1)
  }

  /**
   * `getExchangeIcon(exchange).name`: the name of the first table entry whose
   * substring occurs in the lower-cased key, else the key itself.
   */
  function IconName(exchange: string): (r: string)
    ensures forall j ::
      (0 <= j < |IconTable| && Calculations.Includes(Lower(exchange), IconTable[j].0) &&
       forall t :: 0 <= t < j ==> !Calculations.Includes(Lower(exchange), IconTable[t].0)) ==> r == IconTable[j].1
    ensures (forall j :: 0 <= j < |IconTable| ==> !Calculations.Includes(Lower(exchange), IconTable[j].0)) ==> r == exchange
  {
    match FirstMatch(Lower(exchange), IconTable, 0)
    case Some(i) => IconTable[i].1
    case None => exchange
  }

  /** "okxf" is shown as OKX and "binance" as Binance. */
  lemma IconNameExamples()
    ensures IconName("okxf") == "OKX"
    ensures IconName("binance") == "Binance"
  {
    assert Lower("okxf") == "okxf";
    assert Lower("binance") == "binance";
    assert "okxf"[..3] == "okx";
    assert "binance"[..7] == "binance";
    assert !Calculations.Includes("okxf", "binance");
    assert !Calculations.Includes("okxf", "coinbase");
    assert !Calculations.Includes("okxf", "kraken");
    assert !Calculations.Includes("okxf", "bybit");
  }

  /** The rank table of `sortExchangesByGroup`, keyed by card label. */
  const RankTable: seq<(string, int)> := [
    ("Binance Spot", 1), ("Binance Perps", 2), ("Bybit Spot", 3), ("Bybit Perps", 4),
    ("Coinbase Spot", 5), ("Kraken Spot", 6), ("OKX Spot", 7), ("OKX Perps", 8)]

  /** `groups[name] || 999`: the first entry's rank, or 999 for a name not in the table. */
  function RankFrom(name: string, from: nat): (r: int)
    requires from <= |RankTable|
    ensures (forall i :: from <= i < |RankTable| ==> RankTable[i].0 != name) ==> r == 999
    ensures forall i ::
      (from <= i < |RankTable| && RankTable[i].0 == name &&
       forall t :: from <= t < i ==> RankTable[t].0 != name) ==> r == RankTable[i].1
    decreases |RankTable| - from
  {
    if from == |RankTable| then 999
    else if RankTable[from].0 == name then RankTable[from].1
    else RankFrom(name, from + 1)
  }

  function Rank(name: string): int {
    RankFrom(name, 0)
  }

  /** Every label in the table has a space in it. */
  lemma TableNamesHaveSpace(i: nat)
    requires i < |RankTable|
    ensures ' ' in RankTable[i].0
  {
    assert RankTable[0].0[7] == ' ' && RankTable[1].0[7] == ' ';
    assert RankTable[2].0[5] == ' ' && RankTable[3].0[5] == ' ';
    assert RankTable[4].0[8] == ' ' && RankTable[5].0[6] == ' ';
    assert RankTable[6].0[3] == ' ' && RankTable[7].0[3] == ' ';
  }

  /** A name with no space, such as every feed key, ranks 999. */
  lemma UnlistedRank(name: string)
    requires ' ' !in name
    ensures Rank(name) == 999
  {
    forall i | 0 <= i < |RankTable| ensures RankTable[i].0 != name {
      TableNamesHaveSpace(i);
    }
  }

  /** The comparator `rank(a) - rank(b)`, as "may precede". */
  function RankLe(rank: string -> int): (string, string) -> bool {
    (a: string, b: string) => rank(a) - rank(b) <= 0
  }

  lemma RankLeTotalPreorder(rank: string -> int)
    ensures TotalPreorder(RankLe(rank))
  {
  }

  /** The label a card shows: display name and market type. */
  function Label(exchange: string): string {
    IconName(exchange) + " " + MarketType(exchange)
  }

  function LabelRank(exchange: string): int {
    Rank(Label(exchange))
  }

  /**
   * `sortExchangesByGroup` as written: the keys themselves are looked up in
   * the label-keyed table.
   */
  method SortExchangesByGroupAsWritten(exchanges: array<string>)
    modifies exchanges
    ensures exchanges[..] == Sort(old(exchanges[..]), RankLe(Rank))
  {
    SortInPlace(exchanges, RankLe(Rank));
  }

  /** As written, every feed key ranks 999, so the sort leaves any list of keys as it is. */
  lemma {:induction false} AsWrittenKeepsOrder(keys: seq<string>)
    requires forall i :: 0 <= i < |keys| ==> ' ' !in keys[i]
    ensures Sort(keys, RankLe(Rank)) == keys
  {
    forall i | 0 <= i < |keys| ensures Rank(keys[i]) == 999 {
      UnlistedRank(keys[i]);
    }
    SortOfSorted(keys, RankLe(Rank));
  }

  /** `sortExchangesByGroup` as intended: each key ranked by its card label. */
  method SortExchangesByGroup(exchanges: array<string>)
    modifies exchanges
    ensures exchanges[..] == Sort(old(exchanges[..]), RankLe(LabelRank))
  {
    SortInPlace(exchanges, RankLe(LabelRank));
  }

  /** The intended order is a permutation with ranks never decreasing. */
  lemma GroupOrderSpec(keys: seq<string>)
    ensures multiset(Sort(keys, RankLe(LabelRank))) == multiset(keys)
    ensures var r := Sort(keys, RankLe(LabelRank));
      forall i, j :: 0 <= i < j < |r| ==> LabelRank(r[i]) <= LabelRank(r[j])
  {
    RankLeTotalPreorder(LabelRank);
    SortSorted(keys, RankLe(LabelRank));
  }

  lemma OkxLabel()
    ensures Label("okx") == "OKX Spot"
  {
    assert Lower("okx") == "okx";
    assert "okx"[..3] == "okx";
    assert !Calculations.Includes("okx", "binance");
    assert !Calculations.Includes("okx", "bybit");
    assert !Calculations.Includes("okx", "coinbase");
    assert !Calculations.Includes("okx", "kraken");
    assert IconName("okx") == "OKX";
  }

  lemma OkxSpotRank()
    ensures Rank("OKX Spot") == 7
  {
    var n := "OKX Spot";
    assert RankTable[6].0 == n;
    assert forall t :: 0 <= t < 6 ==> RankTable[t].0 != n by {
      assert n[0] == 'O';
      assert RankTable[0].0[0] == 'B' && RankTable[1].0[0] == 'B' && RankTable[2].0[0] == 'B';
      assert RankTable[3].0[0] == 'B' && RankTable[4].0[0] == 'C' && RankTable[5].0[0] == 'K';
    }
  }

  lemma BinanceLabel()
    ensures Label("binance") == "Binance Spot"
  {
    var k := "binance";
    assert MarketType(k) == "Spot" by {
      assert k[|k| - 1] == 'e';
    }
    assert IconName(k) == "Binance" by {
      IconNameExamples();
    }
  }

  /** The labels of two feed keys and their ranks. */
  lemma LabelExamples()
    ensures LabelRank("okx") == 7
    ensures LabelRank("binance") == 1
  {
    OkxLabel();
    OkxSpotRank();
    BinanceLabel();
    assert RankTable[0].0 == "Binance Spot";
  }

  /** ["okx", "binance"]: as written it stays put; as intended Binance comes first. */
  lemma GroupOrderFinding()
    ensures Sort(["okx", "binance"], RankLe(Rank)) == ["okx", "binance"]
    ensures Sort(["okx", "binance"], RankLe(LabelRank)) == ["binance", "okx"]
  {
    assert ' ' !in "okx" && ' ' !in "binance";
    AsWrittenKeepsOrder(["okx", "binance"]);
    LabelExamples();
    var le := RankLe(LabelRank);
    assert !le("okx", "binance");
    assert Sort(["binance"], le) == ["binance"];
  }

  /**
   * `calculateMaxCumulative`: 0 for a missing or empty ladder, else the
   * largest cumulative total.
   */
  function MaxCumulative<P>(levels: Option<seq<Level<P>>>): (r: real)
    ensures levels.None? || levels.value == [] ==> r == 0.0
    ensures levels.Some? && levels.value != [] ==>
      (forall i :: 0 <= i < |levels.value| ==> levels.value[i].cumulative <= r) &&
      (exists i :: 0 <= i < |levels.value| && levels.value[i].cumulative == r)
  {
    match levels
    case None => 0.0
    case Some(ls) => if ls == [] then 0.0 else MaxOf(ls)
  }

  function MaxOf<P>(ls: seq<Level<P>>): (r: real)
    requires ls != []
    ensures forall i :: 0 <= i < |ls| ==> ls[i].cumulative <= r
    ensures exists i :: 0 <= i < |ls| && ls[i].cumulative == r
  {
    if |ls| == 1 then ls[0].cumulative
    else
      var rest := MaxOf(ls[1..]);
      assert forall i :: 1 <= i < |ls| ==> ls[i] == ls[1..][i - 1];
      if ls[0].cumulative > rest then ls[0].cumulative else rest
  }

  /** The times a throttle started with `lastCall` forwards, calls at `times`. */
  function Forwarded(times: seq<int>, delay: int, lastCall: int): (r: seq<int>)
    ensures forall i :: 0 <= i < |r| ==> r[i] in times
  {
    if times == [] then []
    else if times[0] - lastCall >= delay then [times[0]] + Forwarded(times[1..], delay, times[0])
    else Forwarded(times[1..], delay, lastCall)
  }

  /** Forwarded calls are at least `delay` apart, and the first at least `delay` after the start. */
  lemma {:induction false} ForwardedSpacing(times: seq<int>, delay: int, lastCall: int)
    ensures var r := Forwarded(times, delay, lastCall);
      (|r| > 0 ==> r[0] - lastCall >= delay) &&
      forall i :: 0 < i < |r| ==> r[i] - r[i - 1] >= delay
  {
    if times != [] {
      if times[0] - lastCall >= delay {
        ForwardedSpacing(times[1..], delay, times[0]);
      } else {
        ForwardedSpacing(times[1..], delay, lastCall);
      }
    }
  }

  /** `throttle(fn, delay)`: the closure's `lastCall` and the calls it forwarded. */
  class Throttle {
    var lastCall: int
    const delay: int
    ghost var calls: seq<int>
    var forwarded: seq<int>

    ghost predicate Valid()
      reads this
    {
      forwarded == Forwarded(calls, delay, 0) &&
      (forwarded == [] ==> lastCall == 0) &&
      (forwarded != [] ==> lastCall == forwarded[|forwarded| - 1])
    }

    constructor(delay: int)
      ensures Valid() && this.delay == delay && forwarded == [] && lastCall == 0
    {
      this.delay := delay;
      lastCall := 0;
      calls := [];
      forwarded := [];
    }

    /** A call at clock `now` is forwarded exactly when `delay` has passed since the last forwarded one. */
    method Call(now: int) returns (forwardedCall: bool)
      requires Valid()
      modifies this
      ensures Valid()
      ensures forwardedCall <==> now - old(lastCall) >= delay
      ensures lastCall == (if forwardedCall then now else old(lastCall))
      ensures forwarded == old(forwarded) + (if forwardedCall then [now] else [])
    {
      ForwardedSnoc(calls, delay, 0, now);
      forwardedCall := now - lastCall >= delay;
      if forwardedCall {
        lastCall := now;
        forwarded := forwarded + [now];
      }
      calls := calls + [now];
    }
  }

  /** The last forwarded time, or the start. */
  function LastOf(r: seq<int>, start: int): int {
    if r == [] then start else r[|r| - 1]
  }

  lemma {:induction false} ForwardedSnoc(times: seq<int>, delay: int, lastCall: int, now: int)
    ensures Forwarded(times + [now], delay, lastCall) ==
      Forwarded(times, delay, lastCall) +
      (if now - LastOf(Forwarded(times, delay, lastCall), lastCall) >= delay then [now] else [])
  {
    if times == [] {
      assert [now][1..] == [];
    } else {
      assert (times + [now])[1..] == times[1..] + [now];
      if times[0] - lastCall >= delay {
        ForwardedSnoc(times[1..], delay, times[0], now);
      } else {
        ForwardedSnoc(times[1..], delay, lastCall, now);
      }
    }
  }
}
