/**
 * The Bitfinex spot adapter's book maintenance (internal/exchange/bitfinex/spot.go):
 * symbol formatting, channel gating, snapshot-versus-update dispatch, the
 * bid and ask maps, and the update IDs of what it emits.
 *
 * A decoded WebSocket frame is a `Json` value (Go's `interface{}` after
 * `json.Unmarshal`: numbers are float64, arrays are `[]interface{}`). The
 * maps are keyed by the price itself and hold the absolute amount: the
 * shortest `strconv.FormatFloat` text is a one-to-one image of the number.
 */
module BitfinexSpot {
  import opened MarketTypes

  /** A decoded JSON value, as far as the adapter looks at it. */
  datatype Json = JNumber(n: real) | JArray(items: seq<Json>) | JText(s: string) | JOther

  /** One `[PRICE, COUNT, AMOUNT]` entry. */
  datatype Entry = Entry(price: real, count: real, amount: real)

  /** One emitted depth update; its level order is Go's map order, so the sides are maps here. */
  datatype DepthUpdate = DepthUpdate(firstUpdateID: int, finalUpdateID: int, prevUpdateID: int,
                                     bids: map<real, real>, asks: map<real, real>)

  /** `formatSymbol`: "t" in front, and the final "T" of a "USDT" quote dropped. */
  function FormatSymbol(symbol: string): (r: string)
    ensures |r| > 0 && r[0] == 't'
    ensures r[1..] <= symbol
    ensures |r| == |symbol| <==> |symbol| >= 6 && symbol[|symbol| - 4..] == "USDT"
    ensures |r| == |symbol| + 1 <==> !(|symbol| >= 6 && symbol[|symbol| - 4..] == "USDT")
  {
    if |symbol| >= 6 && symbol[|symbol| - 4..] == "USDT" then "t" + symbol[..|symbol| - 1]
    else "t" + symbol
  }

  /** A shortened symbol ends in "USD"; putting the "T" back gives the configured symbol. */
  lemma FormatSymbolInverse(symbol: string)
    ensures var r := FormatSymbol(symbol);
      |r| == |symbol| ==> r[|r| - 3..] == "USD" && r[1..] + "T" == symbol
    ensures var r := FormatSymbol(symbol);
      |r| == |symbol| + 1 ==> r[1..] == symbol
  {
    var r := FormatSymbol(symbol);
    if |r| == |symbol| {
      assert r[1..] == symbol[..|symbol| - 1];
      assert symbol == symbol[..|symbol| - 1] + [symbol[|symbol| - 1]];
      assert symbol[|symbol| - 1] == symbol[|symbol| - 4..][3];
      assert r[|r| - 3..] == symbol[|symbol| - 4..][..3];
    }
  }

  lemma FormatSymbolExamples()
    ensures FormatSymbol("BTCUSDT") == "tBTCUSD"
    ensures FormatSymbol("ETHBTC") == "tETHBTC"
    ensures FormatSymbol("USDT") == "tUSDT"
  {
    var btc := "BTCUSDT";
    assert |btc| == 7 && btc[3..] == "USDT";
    assert btc[..6] == "BTCUSD";
    assert FormatSymbol(btc) == "t" + btc[..6];
    var eth := "ETHBTC";
    assert |eth| == 6;
    assert eth[2..] != "USDT" by {
      assert eth[2..][0] == 'H' && "USDT"[0] == 'U';
    }
    assert FormatSymbol(eth) == "t" + eth;
    assert |"USDT"| == 4;
  }

  /** `absFloat`. */
  function AbsFloat(x: real): (r: real)
    ensures r >= 0.0
    ensures r == x || r == -x
  {
    if x < 0.0 then -x else x
  }

  lemma AbsFloatSymmetric(x: real)
    ensures AbsFloat(-x) == AbsFloat(x)
    ensures AbsFloat(x) == 0.0 <==> x == 0.0
  {
  }

  /** Go's `int(f)`: the fraction is dropped toward zero. */
  function Truncate(x: real): (r: int)
    ensures x >= 0.0 ==> r as real <= x < r as real + 1.0
    ensures x < 0.0 ==> r as real - 1.0 < x <= r as real
  {
    if x >= 0.0 then x.Floor else -((-x).Floor)
  }

  /** The three numbers of a well-formed entry: at least three elements, the first three numeric. */
  function ParseEntry(items: seq<Json>): (r: Option<Entry>)
    ensures r.Some? <==> |items| >= 3 && items[0].JNumber? && items[1].JNumber? && items[2].JNumber?
    ensures r.Some? ==> r.value == Entry(items[0].n, items[1].n, items[2].n)
  {
    if |items| < 3 then None
    else if items[0].JNumber? && items[1].JNumber? && items[2].JNumber? then Some(Entry(items[0].n, items[1].n, items[2].n))
    else None
  }

  /** A snapshot item: an array that parses as an entry. */
  function EntryOf(item: Json): Option<Entry> {
    if item.JArray? then ParseEntry(item.items) else None
  }

  /** A positive amount is a bid; zero or negative is an ask. */
  predicate IsBid(e: Entry) {
    e.amount > 0.0
  }

  /** The price level a well-formed entry on side `bid` contributes. */
  predicate OnSide(item: Json, bid: bool) {
    EntryOf(item).Some? && IsBid(EntryOf(item).value) == bid
  }

  /** The (price, absolute amount) pair of a well-formed item. */
  function ItemLevel(item: Json): (real, real)
    requires EntryOf(item).Some?
  {
    (EntryOf(item).value.price, AbsFloat(EntryOf(item).value.amount))
  }

  /** One side of a snapshot as `handleSnapshot` fills its fresh map: later prices overwrite. */
  function SnapshotSide(data: seq<Json>, bid: bool): map<real, real> {
    if data == [] then map[]
    else
      var last := data[|data| - 1];
      var m := SnapshotSide(data[..|data| - 1], bid);
      if OnSide(last, bid) then m[ItemLevel(last).0 := ItemLevel(last).1] else m
  }

  /** One side of a snapshot as `convertSnapshot` lists it: input order, nothing merged. */
  function ConvertSide(data: seq<Json>, bid: bool): seq<(real, real)> {
    if data == [] then []
    else
      var last := data[|data| - 1];
      ConvertSide(data[..|data| - 1], bid) + (if OnSide(last, bid) then [ItemLevel(last)] else [])
  }

  /** The number of well-formed items. */
  function WellFormedCount(data: seq<Json>): nat {
    if data == [] then 0
    else WellFormedCount(data[..|data| - 1]) + (if EntryOf(data[|data| - 1]).Some? then 1 else 0)
  }

  /** A list of levels entered into a map one by one. */
  function ToMap(levels: seq<(real, real)>): map<real, real> {
    if levels == [] then map[]
    else ToMap(levels[..|levels| - 1])[levels[|levels| - 1].0 := levels[|levels| - 1].1]
  }

  /** `(p, v)` is listed, and no later level has price `p`. */
  ghost predicate LastListed(levels: seq<(real, real)>, p: real, v: real) {
    exists i :: 0 <= i < |levels| && levels[i] == (p, v) && forall j :: i < j < |levels| ==> levels[j].0 != p
  }

  /** Appending a level at another price keeps a price's last listing. */
  lemma LastListedSnoc(levels: seq<(real, real)>, l: (real, real), p: real, v: real)
    requires LastListed(levels, p, v) && l.0 != p
    ensures LastListed(levels + [l], p, v)
  {
    var i :| 0 <= i < |levels| && levels[i] == (p, v) && forall j :: i < j < |levels| ==> levels[j].0 != p;
    assert (levels + [l])[i] == (p, v);
  }

  /** The map holds exactly the listed prices, each with its last listed amount. */
  lemma {:induction false} ToMapSpec(levels: seq<(real, real)>)
    ensures forall p :: p in ToMap(levels) <==> exists i :: 0 <= i < |levels| && levels[i].0 == p
    ensures forall p :: p in ToMap(levels) ==> LastListed(levels, p, ToMap(levels)[p])
  {
    if levels != [] {
      var n := |levels| - 1;
      var init := levels[..n];
      ToMapSpec(init);
      assert levels == init + [levels[n]];
      assert forall i :: 0 <= i < n ==> init[i] == levels[i];
      forall p | p in ToMap(levels)
        ensures LastListed(levels, p, ToMap(levels)[p])
      {
        if p == levels[n].0 {
          assert levels[n] == (p, ToMap(levels)[p]);
        } else {
          assert p in ToMap(init) && ToMap(init)[p] == ToMap(levels)[p];
          LastListedSnoc(init, levels[n], p, ToMap(levels)[p]);
        }
      }
    }
  }

  /** `handleSnapshot` builds exactly the map of `convertSnapshot`'s list for the same data. */
  lemma {:induction false} SnapshotIsConverted(data: seq<Json>, bid: bool)
    ensures SnapshotSide(data, bid) == ToMap(ConvertSide(data, bid))
  {
    if data != [] {
      var n := |data| - 1;
      SnapshotIsConverted(data[..n], bid);
      var c := ConvertSide(data[..n], bid);
      if OnSide(data[n], bid) {
        assert ConvertSide(data, bid) == c + [ItemLevel(data[n])];
        ToMapSnoc(c, ItemLevel(data[n]));
      } else {
        assert ConvertSide(data, bid) == c;
      }
    }
  }

  lemma ToMapSnoc(levels: seq<(real, real)>, l: (real, real))
    ensures ToMap(levels + [l]) == ToMap(levels)[l.0 := l.1]
  {
    assert (levels + [l])[..|levels|] == levels;
  }

  /** `level` is the price and absolute amount of some well-formed item of `data` on side `bid`. */
  ghost predicate FromItem(level: (real, real), data: seq<Json>, bid: bool) {
    exists k :: 0 <= k < |data| && OnSide(data[k], bid) && level == ItemLevel(data[k])
  }

  /** Each listed level comes from a well-formed item on that side, and its amount is never negative. */
  lemma {:induction false} ConvertSideOrigin(data: seq<Json>, bid: bool)
    ensures forall i :: 0 <= i < |ConvertSide(data, bid)| ==> FromItem(ConvertSide(data, bid)[i], data, bid)
    ensures forall i :: 0 <= i < |ConvertSide(data, bid)| ==> ConvertSide(data, bid)[i].1 >= 0.0
  {
    if data != [] {
      var n := |data| - 1;
      var init := data[..n];
      ConvertSideOrigin(init, bid);
      var c := ConvertSide(init, bid);
      var r := ConvertSide(data, bid);
      assert r == c + (if OnSide(data[n], bid) then [ItemLevel(data[n])] else []);
      forall i | 0 <= i < |r|
        ensures FromItem(r[i], data, bid) && r[i].1 >= 0.0
      {
        if i < |c| {
          assert FromItem(c[i], init, bid);
          var k :| 0 <= k < n && OnSide(init[k], bid) && c[i] == ItemLevel(init[k]);
          assert data[k] == init[k] && r[i] == c[i];
        } else {
          assert r[i] == ItemLevel(data[n]);
        }
      }
    }
  }

  /** Every well-formed item lands on exactly one side: the two lists together are as long as the well-formed items. */
  lemma {:induction false} ConvertSidesSplit(data: seq<Json>)
    ensures |ConvertSide(data, true)| + |ConvertSide(data, false)| == WellFormedCount(data)
  {
    if data != [] {
      ConvertSidesSplit(data[..|data| - 1]);
    }
  }

  /** The snapshot map holds a price iff some well-formed item on that side has it; amounts are never negative. */
  lemma SnapshotSideSpec(data: seq<Json>, bid: bool)
    ensures forall p :: p in SnapshotSide(data, bid) <==>
      exists k :: 0 <= k < |data| && OnSide(data[k], bid) && ItemLevel(data[k]).0 == p
    ensures forall p :: p in SnapshotSide(data, bid) ==> SnapshotSide(data, bid)[p] >= 0.0
  {
    SnapshotIsConverted(data, bid);
    var c := ConvertSide(data, bid);
    ToMapSpec(c);
    ConvertSideOrigin(data, bid);
    ConvertSideComplete(data, bid);
  }

  /** Every well-formed item on a side is listed. */
  lemma {:induction false} ConvertSideComplete(data: seq<Json>, bid: bool)
    ensures forall k :: 0 <= k < |data| && OnSide(data[k], bid) ==> ItemLevel(data[k]) in ConvertSide(data, bid)
  {
    if data != [] {
      var n := |data| - 1;
      var init := data[..n];
      ConvertSideComplete(init, bid);
      var c := ConvertSide(init, bid);
      var r := ConvertSide(data, bid);
      assert r == c + (if OnSide(data[n], bid) then [ItemLevel(data[n])] else []);
      forall k | 0 <= k < |data| && OnSide(data[k], bid)
        ensures ItemLevel(data[k]) in r
      {
        if k < n {
          assert init[k] == data[k];
        }
      }
    }
  }

  /** `handleUpdate` on the maps: count 0 deletes the price from the amount's side, otherwise it sets `|amount|` there. */
  function ApplyEntry(bids: map<real, real>, asks: map<real, real>, e: Entry): (r: (map<real, real>, map<real, real>)) {
    if e.count == 0.0 then
      if IsBid(e) then (bids - {e.price}, asks) else (bids, asks - {e.price})
    else
      if IsBid(e) then (bids[e.price := AbsFloat(e.amount)], asks) else (bids, asks[e.price := AbsFloat(e.amount)])
  }

  /** One entry touches one price on one side and leaves everything else as it was. */
  lemma ApplyEntrySpec(bids: map<real, real>, asks: map<real, real>, e: Entry)
    ensures var (b, a) := ApplyEntry(bids, asks, e);
      && (IsBid(e) ==> a == asks && (e.count == 0.0 ==> e.price !in b) && (e.count != 0.0 ==> e.price in b && b[e.price] == AbsFloat(e.amount)))
      && (!IsBid(e) ==> b == bids && (e.count == 0.0 ==> e.price !in a) && (e.count != 0.0 ==> e.price in a && a[e.price] == AbsFloat(e.amount)))
      && (forall p :: p != e.price ==> (p in b <==> p in bids) && (p in a <==> p in asks))
      && (forall p :: p != e.price && p in b ==> b[p] == bids[p])
      && (forall p :: p != e.price && p in a ==> a[p] == asks[p])
  {
  }

  /** Adding a new price level and then deleting it on the same side gives back the book. */
  lemma AddThenDelete(bids: map<real, real>, asks: map<real, real>, add: Entry, remove: Entry)
    requires add.count != 0.0 && remove.count == 0.0
    requires add.price == remove.price && IsBid(add) == IsBid(remove)
    requires add.price !in (if IsBid(add) then bids else asks)
    ensures var (b, a) := ApplyEntry(bids, asks, add);
      ApplyEntry(b, a, remove) == (bids, asks)
  {
    var (b, a) := ApplyEntry(bids, asks, add);
    if IsBid(add) {
      assert b - {remove.price} == bids;
    } else {
      assert a - {remove.price} == asks;
    }
  }

  /** What `handleUpdateMessage` does with a frame. */
  datatype Action = Ignore | ApplySnapshot(data: seq<Json>) | ApplyUpdate(entry: seq<Json>)

  /** The frame's channel must truncate to the subscribed id, and its data must be a non-empty array. */
  function Dispatch(msg: seq<Json>, chanID: int): (r: Action)
    ensures r != Ignore <==>
      |msg| >= 2 && msg[0].JNumber? && Truncate(msg[0].n) == chanID && msg[1].JArray? && |msg[1].items| > 0
    ensures r.ApplySnapshot? ==> r.data == msg[1].items && r.data[0].JArray?
    ensures r.ApplyUpdate? ==> r.entry == msg[1].items && !r.entry[0].JArray?
  {
    if |msg| < 2 then Ignore
    else if !msg[0].JNumber? then Ignore
    else if Truncate(msg[0].n) != chanID then Ignore
    else match msg[1]
      case JArray(v) =>
        if |v| > 0 then (if v[0].JArray? then ApplySnapshot(v) else ApplyUpdate(v)) else Ignore
      case _ => Ignore
  }

  /** A heartbeat `[chanID, "hb"]` and a frame for another channel are ignored. */
  lemma DispatchIgnores(chanID: int, other: real, data: Json)
    requires Truncate(other) != chanID
    ensures Dispatch([JNumber(chanID as real), JText("hb")], chanID) == Ignore
    ensures Dispatch([JNumber(other), data], chanID) == Ignore
  {
    assert Truncate(chanID as real) == chanID;
  }

  /** The channel is compared after truncation: 17.9 and -0.5 pass for ids 17 and 0. */
  lemma DispatchTruncatesChannel(entry: seq<Json>)
    requires |entry| > 0 && !entry[0].JArray?
    ensures Dispatch([JNumber(17.9), JArray(entry)], 17) == ApplyUpdate(entry)
    ensures Dispatch([JNumber(-0.5), JArray(entry)], 0) == ApplyUpdate(entry)
  {
    assert Truncate(17.9) == 17;
    assert Truncate(-0.5) == 0;
  }

  /**
   * One Bitfinex spot connection's book state. `sent` holds the updates that
   * reached the update channel; a send that found the channel full or the
   * connection shut is dropped, which the `accepted` argument stands for.
   */
  class SpotExchange {
    const symbol: string
    var chanID: int
    var bids: map<real, real>
    var asks: map<real, real>
    var lastUpdateID: int
    var sent: seq<DepthUpdate>

    /** Amounts are never negative, and emitted IDs are consecutive-per-update and strictly increasing. */
    ghost predicate Valid()
      reads this
    {
      && lastUpdateID >= 0
      && (forall p :: p in bids ==> bids[p] >= 0.0)
      && (forall p :: p in asks ==> asks[p] >= 0.0)
      && (forall i :: 0 <= i < |sent| ==>
            && sent[i].firstUpdateID == sent[i].finalUpdateID
            && sent[i].prevUpdateID == sent[i].finalUpdateID - 1
            && 1 <= sent[i].finalUpdateID <= lastUpdateID)
      && (forall i, j :: 0 <= i < j < |sent| ==> sent[i].finalUpdateID < sent[j].firstUpdateID)
    }

    /** `NewSpotExchange`: formatted symbol, no channel yet, empty book. */
    constructor(configSymbol: string)
      ensures Valid()
      ensures symbol == FormatSymbol(configSymbol)
      ensures chanID == 0 && bids == map[] && asks == map[] && lastUpdateID == 0 && sent == []
    {
      symbol := FormatSymbol(configSymbol);
      chanID := 0;
      bids := map[];
      asks := map[];
      lastUpdateID := 0;
      sent := [];
    }

    /** `handleEventMessage`: only "subscribed" changes state, by taking the channel id. */
    method HandleEventMessage(event: string, msgChanID: int)
      modifies this
      ensures chanID == (if event == "subscribed" then msgChanID else old(chanID))
      ensures bids == old(bids) && asks == old(asks) && lastUpdateID == old(lastUpdateID) && sent == old(sent)
    {
      if event == "subscribed" {
        chanID := msgChanID;
      }
    }

    /** `handleUpdateMessage`: gate on length and channel, then a snapshot or a single update. */
    method HandleUpdateMessage(msg: seq<Json>, accepted: bool)
      requires Valid()
      modifies this
      ensures Valid()
      ensures chanID == old(chanID)
      ensures Dispatch(msg, old(chanID)) == Ignore ==>
        bids == old(bids) && asks == old(asks) && lastUpdateID == old(lastUpdateID) && sent == old(sent)
      ensures Dispatch(msg, old(chanID)).ApplySnapshot? ==>
        var data := Dispatch(msg, old(chanID)).data;
        bids == SnapshotSide(data, true) && asks == SnapshotSide(data, false) && lastUpdateID == old(lastUpdateID) + 1
      ensures Dispatch(msg, old(chanID)).ApplyUpdate? ==>
        var entry := Dispatch(msg, old(chanID)).entry;
        (ParseEntry(entry).None? ==> bids == old(bids) && asks == old(asks) && lastUpdateID == old(lastUpdateID)) &&
        (ParseEntry(entry).Some? ==> (bids, asks) == ApplyEntry(old(bids), old(asks), ParseEntry(entry).value) &&
                                      lastUpdateID == old(lastUpdateID) + 1)
      ensures Dispatch(msg, old(chanID)) != Ignore && lastUpdateID == old(lastUpdateID) + 1 ==>
        sent == old(sent) + (if accepted then [DepthUpdate(lastUpdateID, lastUpdateID, lastUpdateID - 1, bids, asks)] else [])
      ensures lastUpdateID == old(lastUpdateID) ==> sent == old(sent)
    {
      if |msg| < 2 {
        return;
      }
      if !msg[0].JNumber? {
        return;
      }
      if Truncate(msg[0].n) != chanID {
        return;
      }
      var data := msg[1];
      if data.JArray? && |data.items| > 0 {
        if data.items[0].JArray? {
          HandleSnapshot(data.items, accepted);
        } else {
          HandleUpdate(data.items, accepted);
        }
      }
    }

    /** `handleSnapshot`: a fresh book from the well-formed items, then one update emitted. */
    method HandleSnapshot(data: seq<Json>, accepted: bool)
      requires Valid()
      modifies this
      ensures Valid()
      ensures bids == SnapshotSide(data, true) && asks == SnapshotSide(data, false)
      ensures lastUpdateID == old(lastUpdateID) + 1
      ensures sent == old(sent) + (if accepted then [DepthUpdate(lastUpdateID, lastUpdateID, lastUpdateID - 1, bids, asks)] else [])
      ensures chanID == old(chanID)
    {
      var b: map<real, real> := map[];
      var a: map<real, real> := map[];
      for i := 0 to |data|
        invariant b == SnapshotSide(data[..i], true) && a == SnapshotSide(data[..i], false)
      {
        assert data[..i + 1][..i] == data[..i];
        var entry := EntryOf(data[i]);
        if entry.Some? {
          var amount := AbsFloat(entry.value.amount);
          if entry.value.amount > 0.0 {
            b := b[entry.value.price := amount];
          } else {
            a := a[entry.value.price := amount];
          }
        }
      }
      assert data[..|data|] == data;
      SnapshotSideSpec(data, true);
      SnapshotSideSpec(data, false);
      bids := b;
      asks := a;
      SendUpdate(accepted);
    }

    /** `handleUpdate`: a malformed entry changes nothing; a well-formed one is applied and emitted. */
    method HandleUpdate(entry: seq<Json>, accepted: bool)
      requires Valid()
      modifies this
      ensures Valid()
      ensures ParseEntry(entry).None? ==>
        bids == old(bids) && asks == old(asks) && lastUpdateID == old(lastUpdateID) && sent == old(sent)
      ensures ParseEntry(entry).Some? ==>
        (bids, asks) == ApplyEntry(old(bids), old(asks), ParseEntry(entry).value) &&
        lastUpdateID == old(lastUpdateID) + 1 &&
        sent == old(sent) + (if accepted then [DepthUpdate(lastUpdateID, lastUpdateID, lastUpdateID - 1, bids, asks)] else [])
      ensures chanID == old(chanID)
    {
      if |entry| < 3 {
        return;
      }
      if !(entry[0].JNumber? && entry[1].JNumber? && entry[2].JNumber?) {
        return;
      }
      var price, count, amount := entry[0].n, entry[1].n, entry[2].n;
      if count == 0.0 {
        if amount > 0.0 {
          bids := bids - {price};
        } else {
          asks := asks - {price};
        }
      } else {
        if amount > 0.0 {
          bids := bids[price := AbsFloat(amount)];
        } else {
          asks := asks[price := AbsFloat(amount)];
        }
      }
      SendUpdate(accepted);
    }

    /** `sendUpdate`: the ID advances whether or not the update gets through. */
    method SendUpdate(accepted: bool)
      requires lastUpdateID >= 0
      requires forall i :: 0 <= i < |sent| ==>
        && sent[i].firstUpdateID == sent[i].finalUpdateID
        && sent[i].prevUpdateID == sent[i].finalUpdateID - 1
        && 1 <= sent[i].finalUpdateID <= lastUpdateID
      requires forall i, j :: 0 <= i < j < |sent| ==> sent[i].finalUpdateID < sent[j].firstUpdateID
      requires (forall p :: p in bids ==> bids[p] >= 0.0) && (forall p :: p in asks ==> asks[p] >= 0.0)
      modifies this
      ensures Valid()
      ensures lastUpdateID == old(lastUpdateID) + 1
      ensures sent == old(sent) + (if accepted then [DepthUpdate(lastUpdateID, lastUpdateID, lastUpdateID - 1, bids, asks)] else [])
      ensures bids == old(bids) && asks == old(asks) && chanID == old(chanID)
    {
      lastUpdateID := lastUpdateID + 1;
      if accepted {
        sent := sent + [DepthUpdate(lastUpdateID, lastUpdateID, lastUpdateID - 1, bids, asks)];
      }
    }

    /** `convertSnapshot`: each well-formed item appended to its side, in input order. */
    method ConvertSnapshot(snapshot: seq<seq<Json>>) returns (snapBids: seq<(real, real)>, snapAsks: seq<(real, real)>)
      ensures snapBids == ConvertSide(Arrays(snapshot), true)
      ensures snapAsks == ConvertSide(Arrays(snapshot), false)
    {
      snapBids, snapAsks := [], [];
      for i := 0 to |snapshot|
        invariant snapBids == ConvertSide(Arrays(snapshot[..i]), true)
        invariant snapAsks == ConvertSide(Arrays(snapshot[..i]), false)
      {
        assert Arrays(snapshot[..i + 1])[..i] == Arrays(snapshot[..i]);
        var entry := ParseEntry(snapshot[i]);
        if entry.Some? {
          var level := (entry.value.price, AbsFloat(entry.value.amount));
          if entry.value.amount > 0.0 {
            snapBids := snapBids + [level];
          } else {
            snapAsks := snapAsks + [level];
          }
        }
      }
      assert snapshot[..|snapshot|] == snapshot;
    }
  }

  /** The REST snapshot's rows as JSON arrays. */
  function Arrays(snapshot: seq<seq<Json>>): (r: seq<Json>)
    ensures |r| == |snapshot|
    ensures forall i :: 0 <= i < |snapshot| ==> r[i] == JArray(snapshot[i])
  {
    seq(|snapshot|, i requires 0 <= i < |snapshot| => JArray(snapshot[i]))
  }
}
