/**
 * The React feed client (frontend/src/hooks/useWebSocket.ts) as an object
 * whose fields are the hook's refs: decoded messages land in per-exchange
 * buffers (last write wins), at most one animation frame is requested until
 * the flush that writes the buffers into the store, a close schedules one
 * reconnect, and teardown cancels timers and empties the buffers.
 *
 * The browser's timers and socket are fields: `framePending` for a requested
 * frame, `reconnectPending` for a live reconnect timer, `socket` for the
 * latest socket's ready state. The browser's callbacks are the methods
 * `AnimationFrame`, `ReconnectTimer`, `OnOpen`, `OnMessage` and `OnClose`.
 */
module UseWebSocket {
  import opened MarketTypes
  import opened Store

  /** The book buffer a message sequence leaves behind: per key, its last book. */
  function LatestBooks(msgs: seq<Message>): map<string, Book>
  {
    if msgs == [] then map[]
    else
      var m := LatestBooks(msgs[..|msgs| - 1]);
      var last := msgs[|msgs| - 1];
      if last.OrderbookMessage? then m[last.exchange := Book(last.bids, last.asks)] else m
  }

  /** The stats buffer a message sequence leaves behind: per key, its last stats. */
  function LatestStats(msgs: seq<Message>): map<string, Stats>
  {
    if msgs == [] then map[]
    else
      var m := LatestStats(msgs[..|msgs| - 1]);
      var last := msgs[|msgs| - 1];
      if last.StatsMessage? then m[last.exchange := last.stats] else m
  }

  /**
   * A key is buffered iff some orderbook message named it, and it holds the
   * book of the last such message.
   */
  lemma {:induction false} LatestBooksSpec(msgs: seq<Message>, k: string)
    ensures k in LatestBooks(msgs) <==> exists i :: 0 <= i < |msgs| && msgs[i].OrderbookMessage? && msgs[i].exchange == k
    ensures forall i ::
      (0 <= i < |msgs| && msgs[i].OrderbookMessage? && msgs[i].exchange == k &&
       (forall j :: i < j < |msgs| ==> !(msgs[j].OrderbookMessage? && msgs[j].exchange == k))) ==>
        k in LatestBooks(msgs) && LatestBooks(msgs)[k] == Book(msgs[i].bids, msgs[i].asks)
  {
    if msgs != [] {
      var init := msgs[..|msgs| - 1];
      LatestBooksSpec(init, k);
      if exists i :: 0 <= i < |msgs| && msgs[i].OrderbookMessage? && msgs[i].exchange == k {
        var i :| 0 <= i < |msgs| && msgs[i].OrderbookMessage? && msgs[i].exchange == k;
        if i < |init| {
          assert init[i] == msgs[i];
        }
      }
      forall i | 0 <= i < |msgs| && msgs[i].OrderbookMessage? && msgs[i].exchange == k &&
        (forall j :: i < j < |msgs| ==> !(msgs[j].OrderbookMessage? && msgs[j].exchange == k))
        ensures k in LatestBooks(msgs) && LatestBooks(msgs)[k] == Book(msgs[i].bids, msgs[i].asks)
      {
        if i < |init| {
          assert init[i] == msgs[i];
          forall j | i < j < |init| ensures !(init[j].OrderbookMessage? && init[j].exchange == k) {
            assert init[j] == msgs[j];
          }
        }
      }
      assert forall i :: 0 <= i < |init| ==> init[i] == msgs[i];
    }
  }

  /**
   * A key is buffered iff some stats message named it, and it holds the
   * stats of the last such message.
   */
  lemma {:induction false} LatestStatsSpec(msgs: seq<Message>, k: string)
    ensures k in LatestStats(msgs) <==> exists i :: 0 <= i < |msgs| && msgs[i].StatsMessage? && msgs[i].exchange == k
    ensures forall i ::
      (0 <= i < |msgs| && msgs[i].StatsMessage? && msgs[i].exchange == k &&
       (forall j :: i < j < |msgs| ==> !(msgs[j].StatsMessage? && msgs[j].exchange == k))) ==>
        k in LatestStats(msgs) && LatestStats(msgs)[k] == msgs[i].stats
  {
    if msgs != [] {
      var init := msgs[..|msgs| - 1];
      LatestStatsSpec(init, k);
      if exists i :: 0 <= i < |msgs| && msgs[i].StatsMessage? && msgs[i].exchange == k {
        var i :| 0 <= i < |msgs| && msgs[i].StatsMessage? && msgs[i].exchange == k;
        if i < |init| {
          assert init[i] == msgs[i];
        }
      }
      forall i | 0 <= i < |msgs| && msgs[i].StatsMessage? && msgs[i].exchange == k &&
        (forall j :: i < j < |msgs| ==> !(msgs[j].StatsMessage? && msgs[j].exchange == k))
        ensures k in LatestStats(msgs) && LatestStats(msgs)[k] == msgs[i].stats
      {
        if i < |init| {
          assert init[i] == msgs[i];
          forall j | i < j < |init| ensures !(init[j].StatsMessage? && init[j].exchange == k) {
            assert init[j] == msgs[j];
          }
        }
      }
      assert forall i :: 0 <= i < |init| ==> init[i] == msgs[i];
    }
  }

  /** One more message updates at most its own exchange's entry. */
  lemma LatestSnoc(msgs: seq<Message>, msg: Message)
    ensures LatestBooks(msgs + [msg]) ==
      (if msg.OrderbookMessage? then LatestBooks(msgs)[msg.exchange := Book(msg.bids, msg.asks)] else LatestBooks(msgs))
    ensures LatestStats(msgs + [msg]) ==
      (if msg.StatsMessage? then LatestStats(msgs)[msg.exchange := msg.stats] else LatestStats(msgs))
  {
    assert (msgs + [msg])[..|msgs|] == msgs;
  }

  lemma NoKeysNoEntries<V>(m: map<string, V>)
    requires |m| == 0
    ensures m == map[]
  {
  }

  /** `WebSocket.close()`: a socket not yet closing starts closing. */
  function AfterClose(state: ReadyState): ReadyState {
    if state == Connecting || state == Open then Closing else state
  }

  class WebSocketHook {
    /** The store the hook writes through its actions. */
    var store: StoreState
    /** `orderbookBufferRef.current`. */
    var orderbookBuffer: map<string, Book>
    /** `statsBufferRef.current`. */
    var statsBuffer: map<string, Stats>
    /** `batchTimeoutRef.current` holds a frame id. */
    var batchScheduled: bool
    /** A requested animation frame has neither run nor been cancelled. */
    var framePending: bool
    /** A reconnect timer has neither fired nor been cleared. */
    var reconnectPending: bool
    /** `wsRef.current`: the ready state of the latest socket. */
    var socket: Option<ReadyState>
    /** Every frame sent, in order. */
    var sent: seq<Outbound>
    /** The messages received since the buffers were last emptied. */
    ghost var received: seq<Message>

    /** The buffers are what the received messages leave; a pending frame means a set ref. */
    ghost predicate Valid()
      reads this
    {
      && orderbookBuffer == LatestBooks(received)
      && statsBuffer == LatestStats(received)
      && (framePending ==> batchScheduled)
    }

    /** Mounting: the effect runs `connect()` with empty buffers and no timers. */
    constructor(store: StoreState)
      ensures Valid()
      ensures this.store == store
      ensures orderbookBuffer == map[] && statsBuffer == map[]
      ensures !batchScheduled && !framePending && !reconnectPending
      ensures socket == Some(Connecting) && sent == [] && received == []
    {
      this.store := store;
      orderbookBuffer := map[];
      statsBuffer := map[];
      batchScheduled := false;
      framePending := false;
      reconnectPending := false;
      socket := Some(Connecting);
      sent := [];
      received := [];
    }

    /** `connect()`: a new socket becomes the current one. */
    method Connect()
      modifies this
      ensures socket == Some(Connecting)
      ensures store == old(store) && orderbookBuffer == old(orderbookBuffer) && statsBuffer == old(statsBuffer)
      ensures batchScheduled == old(batchScheduled) && framePending == old(framePending)
      ensures reconnectPending == old(reconnectPending) && sent == old(sent) && received == old(received)
    {
      socket := Some(Connecting);
    }

    /** `ws.onopen`: the store is told the feed is connected. */
    method OnOpen()
      modifies this
      ensures socket == Some(Open)
      ensures store == SetIsConnected(old(store), true)
      ensures orderbookBuffer == old(orderbookBuffer) && statsBuffer == old(statsBuffer)
      ensures batchScheduled == old(batchScheduled) && framePending == old(framePending)
      ensures reconnectPending == old(reconnectPending) && sent == old(sent) && received == old(received)
    {
      socket := Some(Open);
      store := SetIsConnected(store, true);
    }

    /**
     * `ws.onmessage`: an orderbook or stats message replaces its exchange's
     * buffer entry; every message, of any type, then schedules a flush.
     */
    method OnMessage(msg: Message)
      requires Valid()
      modifies this
      ensures Valid()
      ensures received == old(received) + [msg]
      ensures orderbookBuffer == (if msg.OrderbookMessage? then old(orderbookBuffer)[msg.exchange := Book(msg.bids, msg.asks)] else old(orderbookBuffer))
      ensures statsBuffer == (if msg.StatsMessage? then old(statsBuffer)[msg.exchange := msg.stats] else old(statsBuffer))
      ensures batchScheduled
      ensures framePending == (old(framePending) || !old(batchScheduled))
      ensures store == old(store) && socket == old(socket) && reconnectPending == old(reconnectPending) && sent == old(sent)
    {
      LatestSnoc(received, msg);
      orderbookBuffer, statsBuffer := BufferMessage(orderbookBuffer, statsBuffer, msg);
      received := received + [msg];
      ScheduleBatchUpdate();
    }

    /** The `switch` on the message type: an orderbook or stats message overwrites its exchange's entry. */
    static method BufferMessage(books: map<string, Book>, stats: map<string, Stats>, msg: Message)
      returns (books': map<string, Book>, stats': map<string, Stats>)
      ensures books' == (if msg.OrderbookMessage? then books[msg.exchange := Book(msg.bids, msg.asks)] else books)
      ensures stats' == (if msg.StatsMessage? then stats[msg.exchange := msg.stats] else stats)
    {
      books', stats' := books, stats;
      match msg {
        case OrderbookMessage(exchange, bids, asks) =>
          books' := books[exchange := Book(bids, asks)];
        case StatsMessage(exchange, s) =>
          stats' := stats[exchange := s];
        case OtherMessage(_) =>
      }
    }

    /** `scheduleBatchUpdate`: a frame is requested only when the ref is unset. */
    method ScheduleBatchUpdate()
      requires Valid()
      modifies this
      ensures Valid()
      ensures batchScheduled
      ensures framePending == (old(framePending) || !old(batchScheduled))
      ensures store == old(store) && orderbookBuffer == old(orderbookBuffer) && statsBuffer == old(statsBuffer)
      ensures socket == old(socket) && reconnectPending == old(reconnectPending) && sent == old(sent) && received == old(received)
    {
      if !batchScheduled {
        batchScheduled := true;
        framePending := true;
      }
    }

    /** The requested frame runs `flushUpdates`; with no frame pending nothing runs. */
    method AnimationFrame()
      requires Valid()
      modifies this
      ensures Valid()
      ensures old(framePending) ==>
        && store.orderbooks == old(store.orderbooks) + old(orderbookBuffer)
        && store.stats == old(store.stats) + old(statsBuffer)
        && orderbookBuffer == map[] && statsBuffer == map[] && !batchScheduled && received == []
      ensures !old(framePending) ==>
        store == old(store) && orderbookBuffer == old(orderbookBuffer) && statsBuffer == old(statsBuffer) &&
        batchScheduled == old(batchScheduled) && received == old(received)
      ensures !framePending
      ensures store.isConnected == old(store.isConnected)
      ensures socket == old(socket) && reconnectPending == old(reconnectPending) && sent == old(sent)
    {
      if framePending {
        framePending := false;
        FlushUpdates();
      }
    }

    /**
     * `flushUpdates`: every buffered book, then every buffered stats entry,
     * goes to the store through `updateOrderbook`/`updateStats`; the buffers
     * are emptied and the ref is unset.
     */
    method FlushUpdates()
      requires !framePending
      modifies this
      ensures store.orderbooks == old(store.orderbooks) + old(orderbookBuffer)
      ensures store.stats == old(store.stats) + old(statsBuffer)
      ensures store.isConnected == old(store.isConnected)
      ensures orderbookBuffer == map[] && statsBuffer == map[] && received == []
      ensures !batchScheduled && !framePending
      ensures socket == old(socket) && reconnectPending == old(reconnectPending) && sent == old(sent)
    {
      store := PublishBuffers(store, orderbookBuffer, statsBuffer);
      orderbookBuffer := map[];
      statsBuffer := map[];
      batchScheduled := false;
      received := [];
    }

    /** The two `size > 0` guarded loops of `flushUpdates`, books first. */
    static method PublishBuffers(s: StoreState, books: map<string, Book>, stats: map<string, Stats>) returns (r: StoreState)
      ensures r.orderbooks == s.orderbooks + books
      ensures r.stats == s.stats + stats
      ensures r.isConnected == s.isConnected
    {
      r := s;
      if |books| > 0 {
        r := PublishOrderbooks(r, books);
      } else {
        NoKeysNoEntries(books);
      }
      if |stats| > 0 {
        r := PublishStats(r, stats);
      } else {
        NoKeysNoEntries(stats);
      }
    }

    /** `buffer.forEach((value, key) => updateOrderbook(key, value.bids, value.asks))`. */
    static method PublishOrderbooks(s: StoreState, buffer: map<string, Book>) returns (r: StoreState)
      ensures r.orderbooks == s.orderbooks + buffer
      ensures r.stats == s.stats && r.isConnected == s.isConnected
    {
      r := s;
      var todo := buffer.Keys;
      while todo != {}
        invariant todo <= buffer.Keys
        invariant r.stats == s.stats && r.isConnected == s.isConnected
        invariant r.orderbooks == s.orderbooks + (map k | k in buffer && k !in todo :: buffer[k])
        decreases todo
      {
        var exchange :| exchange in todo;
        var book := buffer[exchange];
        r := UpdateOrderbook(r, exchange, book.bids, book.asks);
        todo := todo - {exchange};
      }
      assert (map k | k in buffer && k !in todo :: buffer[k]) == buffer;
    }

    /** `buffer.forEach((value, key) => updateStats(key, value))`. */
    static method PublishStats(s: StoreState, buffer: map<string, Stats>) returns (r: StoreState)
      ensures r.stats == s.stats + buffer
      ensures r.orderbooks == s.orderbooks && r.isConnected == s.isConnected
    {
      r := s;
      var todo := buffer.Keys;
      while todo != {}
        invariant todo <= buffer.Keys
        invariant r.orderbooks == s.orderbooks && r.isConnected == s.isConnected
        invariant r.stats == s.stats + (map k | k in buffer && k !in todo :: buffer[k])
        decreases todo
      {
        var exchange :| exchange in todo;
        r := UpdateStats(r, exchange, buffer[exchange]);
        todo := todo - {exchange};
      }
      assert (map k | k in buffer && k !in todo :: buffer[k]) == buffer;
    }

    /** `ws.onclose`: the store is told the feed is down and one reconnect is scheduled. */
    method OnClose()
      modifies this
      ensures socket == Some(ReadyState.Closed)
      ensures store == SetIsConnected(old(store), false)
      ensures reconnectPending
      ensures orderbookBuffer == old(orderbookBuffer) && statsBuffer == old(statsBuffer)
      ensures batchScheduled == old(batchScheduled) && framePending == old(framePending)
      ensures sent == old(sent) && received == old(received)
    {
      store := SetIsConnected(store, false);
      socket := Some(ReadyState.Closed);
      reconnectPending := true;
    }

    /** The 3000 ms reconnect timer fires: `connect()` again. */
    method ReconnectTimer()
      modifies this
      ensures old(reconnectPending) ==> socket == Some(Connecting)
      ensures !old(reconnectPending) ==> socket == old(socket)
      ensures !reconnectPending
      ensures store == old(store) && orderbookBuffer == old(orderbookBuffer) && statsBuffer == old(statsBuffer)
      ensures batchScheduled == old(batchScheduled) && framePending == old(framePending)
      ensures sent == old(sent) && received == old(received)
    {
      if reconnectPending {
        reconnectPending := false;
        Connect();
      }
    }

    /**
     * The effect's cleanup: the reconnect timer and the pending frame are
     * cancelled, the socket is closed and both buffers are emptied without a
     * flush. The batch ref is left as it was.
     */
    method Cleanup()
      requires Valid()
      modifies this
      ensures Valid()
      ensures !reconnectPending && !framePending
      ensures socket == (if old(socket).Some? then Some(AfterClose(old(socket).value)) else None)
      ensures orderbookBuffer == map[] && statsBuffer == map[] && received == []
      ensures batchScheduled == old(batchScheduled)
      ensures store == old(store) && sent == old(sent)
    {
      reconnectPending := false;
      if batchScheduled {
        framePending := false;
      }
      if socket.Some? {
        socket := Some(AfterClose(socket.value));
      }
      orderbookBuffer := map[];
      statsBuffer := map[];
      received := [];
    }

    /** `setTickLevel`: `{type: 'set_tick', tick}` goes out only on an open socket. */
    method SetTickLevel(tick: real)
      modifies this
      ensures sent == old(sent) + (if old(socket) == Some(Open) then [SetTick(tick)] else [])
      ensures store == old(store) && socket == old(socket) && orderbookBuffer == old(orderbookBuffer)
      ensures statsBuffer == old(statsBuffer) && batchScheduled == old(batchScheduled)
      ensures framePending == old(framePending) && reconnectPending == old(reconnectPending) && received == old(received)
    {
      if socket == Some(Open) {
        sent := sent + [SetTick(tick)];
      }
    }
  }

  /**
   * After a flush the store holds, for every exchange that received a book
   * since the previous flush, the book of the last such message.
   */
  lemma FlushPublishesLastBook(before: map<string, Book>, msgs: seq<Message>, i: nat)
    requires i < |msgs| && msgs[i].OrderbookMessage?
    requires forall j :: i < j < |msgs| ==> !(msgs[j].OrderbookMessage? && msgs[j].exchange == msgs[i].exchange)
    ensures msgs[i].exchange in before + LatestBooks(msgs)
    ensures (before + LatestBooks(msgs))[msgs[i].exchange] == Book(msgs[i].bids, msgs[i].asks)
  {
    LatestBooksSpec(msgs, msgs[i].exchange);
  }

  /** An exchange that received no book since the previous flush keeps its stored book. */
  lemma FlushKeepsQuietBook(before: map<string, Book>, msgs: seq<Message>, k: string)
    requires forall j :: 0 <= j < |msgs| ==> !(msgs[j].OrderbookMessage? && msgs[j].exchange == k)
    ensures (k in before + LatestBooks(msgs)) == (k in before)
    ensures k in before ==> (before + LatestBooks(msgs))[k] == before[k]
  {
    LatestBooksSpec(msgs, k);
  }
}
