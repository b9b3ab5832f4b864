/**
 * The React frontend's exchange-key classifier (frontend/src/utils/calculations.ts).
 *
 * An exchange key such as "okxf:BTCUSDT" is a base+type token, optionally
 * followed by ':' and the traded pair. A trailing 'f' on the token marks a
 * perpetual market; removing it gives the base exchange name.
 */
module Calculations {
  import opened Sorting
  import opened MarketTypes

  /** The market filter the React views pass around: 'all' | 'spot' | 'perps'. */
  datatype MarketFilter = All | Spot | Perps

  datatype Asset = BTC | ETH

  /** `s.indexOf(c)`: the first position of `c` in `s`, or -1. */
  function IndexOf(s: string, c: char): (r: int)
    ensures -1 <= r < |s|
    ensures r == -1 <==> c !in s
    ensures r >= 0 ==> s[r] == c && c !in s[..r]
  {
    if s == [] then -1
    else if s[0] == c then 0
    else
      var r := IndexOf(s[1..], c);
      assert s == [s[0]] + s[1..];
      if r == -1 then -1
      else
        assert s[..r + 1] == [s[0]] + s[1..][..r];
        r + 1
  }

  /** `stripSymbolFromExchange`: the key up to (not including) its first ':'. */
  function StripSymbol(exchange: string): (r: string)
    ensures ':' !in r
    ensures r <= exchange
    ensures ':' !in exchange ==> r == exchange
    ensures ':' in exchange ==> exchange[|r|] == ':'
  {
    var colonIndex := IndexOf(exchange, ':');
    if colonIndex >= 0 then exchange[..colonIndex] else exchange
  }

  /** Stripping twice strips nothing more. */
  lemma StripSymbolIdempotent(exchange: string)
    ensures StripSymbol(StripSymbol(exchange)) == StripSymbol(exchange)
  {
  }

  /** `s.endsWith('f')`. */
  predicate EndsWithF(s: string) {
    |s| > 0 && s[|s| - 1] == 'f'
  }

  /** `filterExchangesByMarket`: classification by the stripped token. */
  function FilterByMarket(exchange: string, filter: MarketFilter): (r: bool)
    ensures filter == All ==> r
    ensures filter == Spot ==> (r <==> !EndsWithF(StripSymbol(exchange)))
    ensures filter == Perps ==> (r <==> EndsWithF(StripSymbol(exchange)))
  {
    match filter
    case All => true
    case Spot => !EndsWithF(StripSymbol(exchange))
    case Perps => EndsWithF(StripSymbol(exchange))
  }

  /** Every key is accepted by exactly one of the 'spot' and 'perps' filters. */
  lemma SpotAndPerpsPartition(exchange: string)
    ensures FilterByMarket(exchange, Spot) != FilterByMarket(exchange, Perps)
    ensures FilterByMarket(exchange, All)
  {
  }

  /** `isFuturesExchange`: the same test as the 'perps' filter. */
  function IsFutures(exchange: string): (r: bool)
    ensures r == FilterByMarket(exchange, Perps)
  {
    EndsWithF(StripSymbol(exchange))
  }

  /** `getBaseExchangeName`: the stripped token without its perps marker. */
  function BaseName(exchange: string): (r: string)
    ensures r + (if IsFutures(exchange) then "f" else "") == StripSymbol(exchange)
    ensures ':' !in r
  {
    var base := StripSymbol(exchange);
    if EndsWithF(base) then base[..|base| - 1] else base
  }

  /** A perps key with a pair: "okxf:BTCUSDT" is OKX, perps. */
  lemma PerpsKeyExample()
    ensures BaseName("okxf:BTCUSDT") == "okx" && IsFutures("okxf:BTCUSDT")
  {
    var k := "okxf:BTCUSDT";
    assert k[4] == ':';
    assert k[..4] == "okxf";
    assert ':' !in k[..4];
    assert IndexOf(k, ':') == 4;
    assert StripSymbol(k) == "okxf";
  }

  /** A spot key with a pair: "coinbase:ETHUSDT" is Coinbase, spot. */
  lemma SpotKeyExample()
    ensures BaseName("coinbase:ETHUSDT") == "coinbase" && !IsFutures("coinbase:ETHUSDT")
  {
    var k := "coinbase:ETHUSDT";
    assert k[8] == ':';
    assert k[..8] == "coinbase";
    assert ':' !in k[..8];
    assert IndexOf(k, ':') == 8;
    assert StripSymbol(k) == "coinbase";
  }

  /** `sub` occurs in `s` starting at position `i`. */
  predicate OccursAt(s: string, sub: string, i: int) {
    0 <= i <= |s| - |sub| && s[i..i + |sub|] == sub
  }

  /** `s.includes(sub)`, scanning from the left. */
  function Includes(s: string, sub: string): (r: bool)
    ensures r <==> exists i :: OccursAt(s, sub, i)
    decreases |s|
  {
    if |sub| > |s| then false
    else if s[..|sub|] == sub then
      assert OccursAt(s, sub, 0);
      true
    else
      var r := Includes(s[1..], sub);
      assert r ==> exists i :: OccursAt(s, sub, i) by {
        if r {
          var i :| OccursAt(s[1..], sub, i);
          assert s[i + 1..i + 1 + |sub|] == s[1..][i..i + |sub|];
          assert OccursAt(s, sub, i + 1);
        }
      }
      assert (exists i :: OccursAt(s, sub, i)) ==> r by {
        if exists i :: OccursAt(s, sub, i) {
          var i :| OccursAt(s, sub, i);
          assert i != 0;
          assert s[1..][i - 1..i - 1 + |sub|] == s[i..i + |sub|];
          assert OccursAt(s[1..], sub, i - 1);
        }
      }
      r
  }

  function AssetSymbol(asset: Asset): string {
    match asset
    case BTC => "BTCUSDT"
    case ETH => "ETHUSDT"
  }

  /** `filterExchangesByAsset`: the key contains ':' followed by the asset's pair. */
  function FilterByAsset(exchange: string, asset: Asset): (r: bool)
    ensures r <==> exists i :: OccursAt(exchange, ":" + AssetSymbol(asset), i)
  {
    Includes(exchange, ":" + AssetSymbol(asset))
  }

  /** `a.localeCompare(b)`, taken as code-point lexicographic order. */
  function LocaleCompare(a: string, b: string): (r: int)
    ensures -1 <= r <= 1
    ensures r == 0 <==> a == b
  {
    if a == [] && b == [] then 0
    else if a == [] then -1
    else if b == [] then 1
    else if a[0] < b[0] then -1
    else if a[0] > b[0] then 1
    else
      assert a == [a[0]] + a[1..] && b == [b[0]] + b[1..];
      LocaleCompare(a[1..], b[1..])
  }

  lemma {:induction false} LocaleCompareAntisymmetric(a: string, b: string)
    ensures LocaleCompare(a, b) == -LocaleCompare(b, a)
  {
    if a != [] && b != [] && a[0] == b[0] {
      LocaleCompareAntisymmetric(a[1..], b[1..]);
    }
  }

  lemma {:induction false} LocaleCompareTransitive(a: string, b: string, c: string)
    requires LocaleCompare(a, b) <= 0 && LocaleCompare(b, c) <= 0
    ensures LocaleCompare(a, c) <= 0
  {
    if a != [] && b != [] && c != [] && a[0] == b[0] && b[0] == c[0] {
      LocaleCompareTransitive(a[1..], b[1..], c[1..]);
    }
  }

  /** The comparator of `sortExchangesByGroup`, on the keys of two entries. */
  function CompareByGroup(a: string, b: string): (r: int)
    ensures r == 0 <==> BaseName(a) == BaseName(b) && IsFutures(a) == IsFutures(b)
    ensures BaseName(a) == BaseName(b) ==> (r < 0 <==> !IsFutures(a) && IsFutures(b))
  {
    var baseA := BaseName(a);
    var baseB := BaseName(b);
    if baseA != baseB then LocaleCompare(baseA, baseB)
    else if IsFutures(a) && !IsFutures(b) then 1
    else if !IsFutures(a) && IsFutures(b) then -1
    else 0
  }

  lemma CompareByGroupAntisymmetric(a: string, b: string)
    ensures CompareByGroup(a, b) <= 0 || CompareByGroup(b, a) <= 0
  {
    LocaleCompareAntisymmetric(BaseName(a), BaseName(b));
  }

  lemma CompareByGroupTransitive(a: string, b: string, c: string)
    requires CompareByGroup(a, b) <= 0 && CompareByGroup(b, c) <= 0
    ensures CompareByGroup(a, c) <= 0
  {
    var baseA, baseB, baseC := BaseName(a), BaseName(b), BaseName(c);
    if baseA != baseB && baseB != baseC {
      LocaleCompareTransitive(baseA, baseB, baseC);
      if baseA == baseC {
        LocaleCompareAntisymmetric(baseA, baseB);
      }
    }
  }

  /** "May precede" for entries keyed by exchange: the comparator is not positive. */
  function GroupLe<V>(): ((string, V), (string, V)) -> bool {
    (x: (string, V), y: (string, V)) => CompareByGroup(x.0, y.0) <= 0
  }

  lemma GroupLeTotalPreorder<V(!new)>()
    ensures TotalPreorder(GroupLe<V>())
  {
    forall x: (string, V), y: (string, V) ensures GroupLe<V>()(x, y) || GroupLe<V>()(y, x) {
      CompareByGroupAntisymmetric(x.0, y.0);
    }
    forall x: (string, V), y: (string, V), z: (string, V) | GroupLe<V>()(x, y) && GroupLe<V>()(y, z)
      ensures GroupLe<V>()(x, z)
    {
      CompareByGroupTransitive(x.0, y.0, z.0);
    }
  }

  /**
   * `sortExchangesByGroup`: the entries reordered by base name, spot before
   * perps within a base name, ties in their original order.
   */
  function SortExchangesByGroup<V(!new)>(entries: seq<(string, V)>): (r: seq<(string, V)>)
    ensures multiset(r) == multiset(entries)
    ensures forall i, j :: 0 <= i < j < |r| ==> CompareByGroup(r[i].0, r[j].0) <= 0
    ensures forall i, j ::
      (0 <= i < |r| && 0 <= j < |r| && BaseName(r[i].0) == BaseName(r[j].0) &&
       !IsFutures(r[i].0) && IsFutures(r[j].0)) ==> i < j
  {
    GroupLeTotalPreorder<V>();
    SortSorted(entries, GroupLe<V>());
    Sort(entries, GroupLe<V>())
  }

  /** `calculateMaxCumulative`: 1 for no levels, else the largest of 1 and every cumulative. */
  function MaxCumulative<P>(levels: seq<Level<P>>): (r: real)
    ensures r >= 1.0
    ensures forall i :: 0 <= i < |levels| ==> levels[i].cumulative <= r
    ensures r == 1.0 || exists i :: 0 <= i < |levels| && levels[i].cumulative == r
  {
    if levels == [] then 1.0
    else
      var rest := MaxCumulative(levels[1..]);
      assert forall i :: 1 <= i < |levels| ==> levels[i] == levels[1..][i - 1];
      if levels[0].cumulative > rest then levels[0].cumulative else rest
  }
}
