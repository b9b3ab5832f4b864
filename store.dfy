/**
 * The committed store of the React frontend (frontend/src/store/useStore.ts):
 * the latest book and stats per exchange key and the connection flag. Every
 * action returns a new state; the `update*` actions replace one key and keep
 * the rest.
 */
module Store {
  import opened MarketTypes

  datatype StoreState = StoreState(
    orderbooks: map<string, Book>,
    stats: map<string, Stats>,
    isConnected: bool)

  /** The state the store is created with. */
  function InitialState(): (s: StoreState)
    ensures s.orderbooks == map[] && s.stats == map[] && !s.isConnected
  {
    StoreState(map[], map[], false)
  }

  /** `setOrderbooks`: replaces the whole book map, nothing else. */
  function SetOrderbooks(s: StoreState, orderbooks: map<string, Book>): (r: StoreState)
    ensures r.orderbooks == orderbooks
    ensures r.stats == s.stats && r.isConnected == s.isConnected
  {
    s.(orderbooks := orderbooks)
  }

  /** `setStats`: replaces the whole stats map, nothing else. */
  function SetStats(s: StoreState, stats: map<string, Stats>): (r: StoreState)
    ensures r.stats == stats
    ensures r.orderbooks == s.orderbooks && r.isConnected == s.isConnected
  {
    s.(stats := stats)
  }

  /** `setIsConnected`: changes only the flag. */
  function SetIsConnected(s: StoreState, isConnected: bool): (r: StoreState)
    ensures r.isConnected == isConnected
    ensures r.orderbooks == s.orderbooks && r.stats == s.stats
  {
    s.(isConnected := isConnected)
  }

  /**
   * `updateOrderbook`: the key now holds exactly the given ladders; every
   * other key keeps its book, no key is removed, and stats and the flag are
   * untouched.
   */
  function UpdateOrderbook(s: StoreState, exchange: string, bids: seq<Level<string>>, asks: seq<Level<string>>): (r: StoreState)
    ensures exchange in r.orderbooks && r.orderbooks[exchange] == Book(bids, asks)
    ensures forall k :: k in s.orderbooks && k != exchange ==> k in r.orderbooks && r.orderbooks[k] == s.orderbooks[k]
    ensures r.orderbooks.Keys == s.orderbooks.Keys + {exchange}
    ensures r.stats == s.stats && r.isConnected == s.isConnected
  {
    s.(orderbooks := s.orderbooks[exchange := Book(bids, asks)])
  }

  /**
   * `updateStats`: the key now holds exactly the given stats; every other
   * key keeps its stats, no key is removed, and books and the flag are
   * untouched.
   */
  function UpdateStats(s: StoreState, exchange: string, newStats: Stats): (r: StoreState)
    ensures exchange in r.stats && r.stats[exchange] == newStats
    ensures forall k :: k in s.stats && k != exchange ==> k in r.stats && r.stats[k] == s.stats[k]
    ensures r.stats.Keys == s.stats.Keys + {exchange}
    ensures r.orderbooks == s.orderbooks && r.isConnected == s.isConnected
  {
    s.(stats := s.stats[exchange := newStats])
  }

  /** A second update of the same key wins outright: the first leaves no trace. */
  lemma UpdateOrderbookLastWins(s: StoreState, exchange: string, b1: seq<Level<string>>, a1: seq<Level<string>>,
                                b2: seq<Level<string>>, a2: seq<Level<string>>)
    ensures UpdateOrderbook(UpdateOrderbook(s, exchange, b1, a1), exchange, b2, a2) == UpdateOrderbook(s, exchange, b2, a2)
  {
  }

  lemma UpdateStatsLastWins(s: StoreState, exchange: string, s1: Stats, s2: Stats)
    ensures UpdateStats(UpdateStats(s, exchange, s1), exchange, s2) == UpdateStats(s, exchange, s2)
  {
  }

  /** Updates of different keys, or of books and stats, can be applied in either order. */
  lemma UpdatesCommute(s: StoreState, e1: string, e2: string, b1: seq<Level<string>>, a1: seq<Level<string>>,
                       b2: seq<Level<string>>, a2: seq<Level<string>>, st: Stats)
    requires e1 != e2
    ensures UpdateOrderbook(UpdateOrderbook(s, e1, b1, a1), e2, b2, a2) == UpdateOrderbook(UpdateOrderbook(s, e2, b2, a2), e1, b1, a1)
    ensures UpdateStats(UpdateOrderbook(s, e1, b1, a1), e2, st) == UpdateOrderbook(UpdateStats(s, e2, st), e1, b1, a1)
  {
  }
}
