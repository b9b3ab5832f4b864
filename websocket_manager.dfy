/**
 * The vanilla feed client (frontend/src/vanilla/websocket-manager.js). It
 * buffers orderbook and stats messages per exchange (last write wins),
 * requests one animation frame per batch, and on that frame hands each
 * non-empty buffer, as a copy, to every listener of its kind before clearing
 * it. It reconnects 3000 ms after a close or a failed connect and
 * notifies connection listeners on open and close.
 *
 * A callback is identified by a number (JavaScript compares functions by
 * identity); a listener set is the sequence of its members in insertion
 * order, which is the order `Set.forEach` calls them in. Calls are recorded
 * in `delivered` rather than run.
 */
module VanillaWebSocket {
  import opened MarketTypes

  type Listener = nat

  /** One callback invocation. */
  datatype Delivery =
    | BooksTo(listener: Listener, books: map<string, Book>)
    | StatsTo(listener: Listener, stats: map<string, Stats>)
    | ConnectionTo(listener: Listener, connected: bool)

  /** `set.forEach(listener => listener(updates))` for an orderbook batch. */
  function BookDeliveries(ls: seq<Listener>, updates: map<string, Book>): (r: seq<Delivery>)
    ensures |r| == |ls| && forall i :: 0 <= i < |ls| ==> r[i] == BooksTo(ls[i], updates)
  {
    seq(|ls|, i requires 0 <= i < |ls| => BooksTo(ls[i], updates))
  }

  function StatsDeliveries(ls: seq<Listener>, updates: map<string, Stats>): (r: seq<Delivery>)
    ensures |r| == |ls| && forall i :: 0 <= i < |ls| ==> r[i] == StatsTo(ls[i], updates)
  {
    seq(|ls|, i requires 0 <= i < |ls| => StatsTo(ls[i], updates))
  }

  function ConnectionDeliveries(ls: seq<Listener>, connected: bool): (r: seq<Delivery>)
    ensures |r| == |ls| && forall i :: 0 <= i < |ls| ==> r[i] == ConnectionTo(ls[i], connected)
  {
    seq(|ls|, i requires 0 <= i < |ls| => ConnectionTo(ls[i], connected))
  }

  /** `Set.add`: a new member goes last; a present one changes nothing. */
  function SetAdd(s: seq<Listener>, x: Listener): (r: seq<Listener>)
    ensures Distinct(s) ==> Distinct(r)
    ensures x in r && forall y :: y in r <==> y in s || y == x
    ensures x in s ==> r == s
  {
    if x in s then s else s + [x]
  }

  /** `Set.delete`: the member goes, the others keep their order. */
  function SetDelete(s: seq<Listener>, x: Listener): (r: seq<Listener>)
    ensures Distinct(s) ==> Distinct(r)
    ensures forall y :: y in r <==> y in s && y != x
    ensures |r| <= |s|
  {
    if s == [] then []
    else
      var rest := SetDelete(s[1..], x);
      assert forall y :: y in s[1..] ==> y in s;
      assert Distinct(s) ==> s[0] !in s[1..] && Distinct(s[1..]) by {
        if Distinct(s) {
          forall i, j | 0 <= i < j < |s[1..]| ensures s[1..][i] != s[1..][j] {
            assert s[1..][i] == s[i + 1] && s[1..][j] == s[j + 1];
          }
          forall i | 0 <= i < |s[1..]| ensures s[1..][i] != s[0] {
            assert s[1..][i] == s[i + 1];
          }
        }
      }
      if s[0] == x then rest
      else
        assert forall i :: 0 <= i < |rest| ==> rest[i] in rest;
        [s[0]] + rest
  }

  /** Adding a member twice is adding it once. */
  lemma SetAddIdempotent(s: seq<Listener>, x: Listener)
    ensures SetAdd(SetAdd(s, x), x) == SetAdd(s, x)
  {
  }

  /** Deleting a member just added to a set that lacked it gives the set back. */
  lemma {:induction false} SetDeleteUndoesAdd(s: seq<Listener>, x: Listener)
    requires x !in s
    ensures SetDelete(SetAdd(s, x), x) == s
  {
    SetDeleteAbsent(s, x);
    DeleteLast(s, x);
  }

  lemma {:induction false} SetDeleteAbsent(s: seq<Listener>, x: Listener)
    requires x !in s
    ensures SetDelete(s, x) == s
  {
    if s != [] {
      assert x !in s[1..] by {
        forall i | 0 <= i < |s[1..]| ensures s[1..][i] != x {
          assert s[1..][i] == s[i + 1];
        }
      }
      SetDeleteAbsent(s[1..], x);
      assert s == [s[0]] + s[1..];
    }
  }

  lemma {:induction false} DeleteLast(s: seq<Listener>, x: Listener)
    requires x !in s
    ensures SetDelete(s + [x], x) == SetDelete(s, x)
  {
    if s == [] {
      assert SetDelete([x], x) == SetDelete([x][1..], x);
    } else {
      assert (s + [x])[1..] == s[1..] + [x];
      assert x !in s[1..] by {
        forall i | 0 <= i < |s[1..]| ensures s[1..][i] != x {
          assert s[1..][i] == s[i + 1];
        }
      }
      DeleteLast(s[1..], x);
    }
  }

  /** The names `this.listeners[event]` finds a set under. */
  datatype EventKind = OrderbookEvent | StatsEvent | ConnectionEvent

  function EventOf(event: string): (r: Option<EventKind>)
    ensures r.Some? <==> event in {"orderbook", "stats", "connection"}
  {
    if event == "orderbook" then Some(OrderbookEvent)
    else if event == "stats" then Some(StatsEvent)
    else if event == "connection" then Some(ConnectionEvent)
    else None
  }

  class WebSocketManager {
    var isConnected: bool
    /** A reconnect timer has neither fired nor been cleared. */
    var reconnectPending: bool
    var tickLevel: real
    var orderbookBuffer: map<string, Book>
    var statsBuffer: map<string, Stats>
    var batchScheduled: bool
    /** A requested animation frame has not run yet. */
    var framePending: bool
    var orderbookListeners: seq<Listener>
    var statsListeners: seq<Listener>
    var connectionListeners: seq<Listener>
    /** `this.ws`: the ready state of the latest socket. */
    var socket: Option<ReadyState>
    var sent: seq<Outbound>
    var delivered: seq<Delivery>

    ghost predicate Valid()
      reads this
    {
      && framePending == batchScheduled
      && Distinct(orderbookListeners)
      && Distinct(statsListeners)
      && Distinct(connectionListeners)
    }

    /**
     * The constructor: empty buffers and listener sets, tick level 1, then
     * `connect()`, whose `new WebSocket` throws when `connectFails`.
     */
    constructor(connectFails: bool)
      ensures Valid()
      ensures !isConnected && tickLevel == 1.0
      ensures orderbookBuffer == map[] && statsBuffer == map[] && !batchScheduled
      ensures orderbookListeners == [] && statsListeners == [] && connectionListeners == []
      ensures sent == [] && delivered == []
      ensures connectFails ==> socket == None && reconnectPending
      ensures !connectFails ==> socket == Some(Connecting) && !reconnectPending
    {
      isConnected := false;
      tickLevel := 1.0;
      orderbookBuffer := map[];
      statsBuffer := map[];
      batchScheduled := false;
      framePending := false;
      orderbookListeners := [];
      statsListeners := [];
      connectionListeners := [];
      sent := [];
      delivered := [];
      if connectFails {
        socket := None;
        reconnectPending := true;
      } else {
        socket := Some(Connecting);
        reconnectPending := false;
      }
    }

    /**
     * `connect()`: a new socket, or, when its construction throws, the old
     * one stays and a reconnect is scheduled.
     */
    method Connect(fails: bool)
      modifies this
      ensures fails ==> socket == old(socket) && reconnectPending
      ensures !fails ==> socket == Some(Connecting) && reconnectPending == old(reconnectPending)
      ensures isConnected == old(isConnected) && tickLevel == old(tickLevel)
      ensures orderbookBuffer == old(orderbookBuffer) && statsBuffer == old(statsBuffer)
      ensures batchScheduled == old(batchScheduled) && framePending == old(framePending)
      ensures orderbookListeners == old(orderbookListeners) && statsListeners == old(statsListeners)
      ensures connectionListeners == old(connectionListeners)
      ensures sent == old(sent) && delivered == old(delivered)
    {
      if fails {
        reconnectPending := true;
      } else {
        socket := Some(Connecting);
      }
    }

    /** `notifyConnectionListeners`: every connection listener, in order. */
    method NotifyConnectionListeners(connected: bool)
      modifies this
      ensures delivered == old(delivered) + ConnectionDeliveries(connectionListeners, connected)
      ensures isConnected == old(isConnected) && reconnectPending == old(reconnectPending)
      ensures tickLevel == old(tickLevel) && socket == old(socket) && sent == old(sent)
      ensures orderbookBuffer == old(orderbookBuffer) && statsBuffer == old(statsBuffer)
      ensures batchScheduled == old(batchScheduled) && framePending == old(framePending)
      ensures orderbookListeners == old(orderbookListeners) && statsListeners == old(statsListeners)
      ensures connectionListeners == old(connectionListeners)
    {
      var listeners := connectionListeners;
      for i := 0 to |listeners|
        invariant delivered == old(delivered) + ConnectionDeliveries(listeners[..i], connected)
        invariant isConnected == old(isConnected) && reconnectPending == old(reconnectPending)
        invariant tickLevel == old(tickLevel) && socket == old(socket) && sent == old(sent)
        invariant orderbookBuffer == old(orderbookBuffer) && statsBuffer == old(statsBuffer)
        invariant batchScheduled == old(batchScheduled) && framePending == old(framePending)
        invariant orderbookListeners == old(orderbookListeners) && statsListeners == old(statsListeners)
        invariant connectionListeners == old(connectionListeners)
      {
        assert ConnectionDeliveries(listeners[..i + 1], connected) ==
          ConnectionDeliveries(listeners[..i], connected) + [ConnectionTo(listeners[i], connected)];
        delivered := delivered + [ConnectionTo(listeners[i], connected)];
      }
      assert listeners[..|listeners|] == listeners;
    }

    /** `ws.onopen`: connected, and every connection listener is told `true`. */
    method OnOpen()
      modifies this
      ensures socket == Some(Open) && isConnected
      ensures delivered == old(delivered) + ConnectionDeliveries(connectionListeners, true)
      ensures reconnectPending == old(reconnectPending) && tickLevel == old(tickLevel) && sent == old(sent)
      ensures orderbookBuffer == old(orderbookBuffer) && statsBuffer == old(statsBuffer)
      ensures batchScheduled == old(batchScheduled) && framePending == old(framePending)
      ensures orderbookListeners == old(orderbookListeners) && statsListeners == old(statsListeners)
      ensures connectionListeners == old(connectionListeners)
    {
      socket := Some(Open);
      isConnected := true;
      NotifyConnectionListeners(true);
    }

    /**
     * `ws.onmessage`: an orderbook or stats message replaces its exchange's
     * buffer entry and schedules a batch; any other message does nothing.
     */
    method OnMessage(msg: Message)
      requires Valid()
      modifies this
      ensures Valid()
      ensures orderbookBuffer == (if msg.OrderbookMessage? then old(orderbookBuffer)[msg.exchange := Book(msg.bids, msg.asks)] else old(orderbookBuffer))
      ensures statsBuffer == (if msg.StatsMessage? then old(statsBuffer)[msg.exchange := msg.stats] else old(statsBuffer))
      ensures batchScheduled == (old(batchScheduled) || !msg.OtherMessage?)
      ensures isConnected == old(isConnected) && reconnectPending == old(reconnectPending) && tickLevel == old(tickLevel)
      ensures orderbookListeners == old(orderbookListeners) && statsListeners == old(statsListeners)
      ensures connectionListeners == old(connectionListeners)
      ensures socket == old(socket) && sent == old(sent) && delivered == old(delivered)
    {
      match msg {
        case OrderbookMessage(exchange, bids, asks) =>
          orderbookBuffer := orderbookBuffer[exchange := Book(bids, asks)];
          ScheduleBatchUpdate();
        case StatsMessage(exchange, stats) =>
          statsBuffer := statsBuffer[exchange := stats];
          ScheduleBatchUpdate();
        case OtherMessage(_) =>
      }
    }

    /** `scheduleBatchUpdate`: a frame is requested only if no batch is scheduled. */
    method ScheduleBatchUpdate()
      requires Valid()
      modifies this
      ensures Valid()
      ensures batchScheduled && framePending
      ensures isConnected == old(isConnected) && reconnectPending == old(reconnectPending) && tickLevel == old(tickLevel)
      ensures orderbookBuffer == old(orderbookBuffer) && statsBuffer == old(statsBuffer)
      ensures orderbookListeners == old(orderbookListeners) && statsListeners == old(statsListeners)
      ensures connectionListeners == old(connectionListeners)
      ensures socket == old(socket) && sent == old(sent) && delivered == old(delivered)
    {
      if !batchScheduled {
        batchScheduled := true;
        framePending := true;
      }
    }

    /** The requested frame runs `flushUpdates`. */
    method AnimationFrame()
      requires Valid()
      modifies this
      ensures Valid()
      ensures old(framePending) ==>
        && delivered == old(delivered)
             + (if |old(orderbookBuffer)| > 0 then BookDeliveries(orderbookListeners, old(orderbookBuffer)) else [])
             + (if |old(statsBuffer)| > 0 then StatsDeliveries(statsListeners, old(statsBuffer)) else [])
        && orderbookBuffer == map[] && statsBuffer == map[] && !batchScheduled
      ensures !old(framePending) ==>
        delivered == old(delivered) && orderbookBuffer == old(orderbookBuffer) && statsBuffer == old(statsBuffer)
      ensures isConnected == old(isConnected) && reconnectPending == old(reconnectPending) && tickLevel == old(tickLevel)
      ensures orderbookListeners == old(orderbookListeners) && statsListeners == old(statsListeners)
      ensures connectionListeners == old(connectionListeners)
      ensures socket == old(socket) && sent == old(sent)
    {
      if framePending {
        framePending := false;
        FlushUpdates();
      }
    }

    /**
     * `flushUpdates`: a non-empty buffer is copied, cleared, and the copy
     * handed to every listener of its kind; an empty buffer calls nobody.
     */
    method FlushUpdates()
      modifies this
      ensures delivered == old(delivered)
        + (if |old(orderbookBuffer)| > 0 then BookDeliveries(orderbookListeners, old(orderbookBuffer)) else [])
        + (if |old(statsBuffer)| > 0 then StatsDeliveries(statsListeners, old(statsBuffer)) else [])
      ensures orderbookBuffer == map[] && statsBuffer == map[]
      ensures !batchScheduled && framePending == old(framePending)
      ensures isConnected == old(isConnected) && reconnectPending == old(reconnectPending) && tickLevel == old(tickLevel)
      ensures orderbookListeners == old(orderbookListeners) && statsListeners == old(statsListeners)
      ensures connectionListeners == old(connectionListeners)
      ensures socket == old(socket) && sent == old(sent)
    {
      var calls := FlushCalls(orderbookListeners, orderbookBuffer, statsListeners, statsBuffer);
      orderbookBuffer := map[];
      statsBuffer := map[];
      delivered := delivered + calls;
      batchScheduled := false;
    }

    /**
     * The listener calls of one flush: the book buffer's copy to every
     * orderbook listener if it is non-empty, then the stats buffer's copy to
     * every stats listener if that one is.
     */
    static method FlushCalls(bookListeners: seq<Listener>, books: map<string, Book>,
                             statsListeners: seq<Listener>, stats: map<string, Stats>) returns (calls: seq<Delivery>)
      ensures calls == (if |books| > 0 then BookDeliveries(bookListeners, books) else [])
        + (if |stats| > 0 then StatsDeliveries(statsListeners, stats) else [])
    {
      calls := [];
      if |books| > 0 {
        calls := CallBookListeners(bookListeners, books);
      }
      if |stats| > 0 {
        var statsCalls := CallStatsListeners(statsListeners, stats);
        calls := calls + statsCalls;
      }
    }

    /** `this.listeners.orderbook.forEach(callback => callback(updates))`. */
    static method CallBookListeners(listeners: seq<Listener>, updates: map<string, Book>) returns (calls: seq<Delivery>)
      ensures calls == BookDeliveries(listeners, updates)
    {
      calls := [];
      for i := 0 to |listeners|
        invariant calls == BookDeliveries(listeners[..i], updates)
      {
        assert BookDeliveries(listeners[..i + 1], updates) == BookDeliveries(listeners[..i], updates) + [BooksTo(listeners[i], updates)];
        calls := calls + [BooksTo(listeners[i], updates)];
      }
      assert listeners[..|listeners|] == listeners;
    }

    /** `this.listeners.stats.forEach(callback => callback(updates))`. */
    static method CallStatsListeners(listeners: seq<Listener>, updates: map<string, Stats>) returns (calls: seq<Delivery>)
      ensures calls == StatsDeliveries(listeners, updates)
    {
      calls := [];
      for i := 0 to |listeners|
        invariant calls == StatsDeliveries(listeners[..i], updates)
      {
        assert StatsDeliveries(listeners[..i + 1], updates) == StatsDeliveries(listeners[..i], updates) + [StatsTo(listeners[i], updates)];
        calls := calls + [StatsTo(listeners[i], updates)];
      }
      assert listeners[..|listeners|] == listeners;
    }

    /** `setTickLevel`: the level is always recorded, but sent only on an open socket. */
    method SetTickLevel(tick: real)
      modifies this
      ensures tickLevel == tick
      ensures sent == old(sent) + (if old(socket) == Some(Open) then [SetTick(tick)] else [])
      ensures isConnected == old(isConnected) && reconnectPending == old(reconnectPending)
      ensures orderbookBuffer == old(orderbookBuffer) && statsBuffer == old(statsBuffer)
      ensures batchScheduled == old(batchScheduled) && framePending == old(framePending)
      ensures orderbookListeners == old(orderbookListeners) && statsListeners == old(statsListeners)
      ensures connectionListeners == old(connectionListeners)
      ensures socket == old(socket) && delivered == old(delivered)
    {
      tickLevel := tick;
      if socket == Some(Open) {
        sent := sent + [SetTick(tick)];
      }
    }

    /** `on(event, callback)`: added to the named set; an unknown name is ignored. */
    method On(event: string, callback: Listener)
      requires Valid()
      modifies this
      ensures Valid()
      ensures orderbookListeners == (if EventOf(event) == Some(OrderbookEvent) then SetAdd(old(orderbookListeners), callback) else old(orderbookListeners))
      ensures statsListeners == (if EventOf(event) == Some(StatsEvent) then SetAdd(old(statsListeners), callback) else old(statsListeners))
      ensures connectionListeners == (if EventOf(event) == Some(ConnectionEvent) then SetAdd(old(connectionListeners), callback) else old(connectionListeners))
      ensures isConnected == old(isConnected) && reconnectPending == old(reconnectPending) && tickLevel == old(tickLevel)
      ensures orderbookBuffer == old(orderbookBuffer) && statsBuffer == old(statsBuffer)
      ensures batchScheduled == old(batchScheduled) && framePending == old(framePending)
      ensures socket == old(socket) && sent == old(sent) && delivered == old(delivered)
    {
      match EventOf(event) {
        case Some(OrderbookEvent) => orderbookListeners := SetAdd(orderbookListeners, callback);
        case Some(StatsEvent) => statsListeners := SetAdd(statsListeners, callback);
        case Some(ConnectionEvent) => connectionListeners := SetAdd(connectionListeners, callback);
        case None =>
      }
    }

    /** `off(event, callback)`: removed from the named set; an unknown name is ignored. */
    method Off(event: string, callback: Listener)
      requires Valid()
      modifies this
      ensures Valid()
      ensures orderbookListeners == (if EventOf(event) == Some(OrderbookEvent) then SetDelete(old(orderbookListeners), callback) else old(orderbookListeners))
      ensures statsListeners == (if EventOf(event) == Some(StatsEvent) then SetDelete(old(statsListeners), callback) else old(statsListeners))
      ensures connectionListeners == (if EventOf(event) == Some(ConnectionEvent) then SetDelete(old(connectionListeners), callback) else old(connectionListeners))
      ensures isConnected == old(isConnected) && reconnectPending == old(reconnectPending) && tickLevel == old(tickLevel)
      ensures orderbookBuffer == old(orderbookBuffer) && statsBuffer == old(statsBuffer)
      ensures batchScheduled == old(batchScheduled) && framePending == old(framePending)
      ensures socket == old(socket) && sent == old(sent) && delivered == old(delivered)
    {
      match EventOf(event) {
        case Some(OrderbookEvent) => orderbookListeners := SetDelete(orderbookListeners, callback);
        case Some(StatsEvent) => statsListeners := SetDelete(statsListeners, callback);
        case Some(ConnectionEvent) => connectionListeners := SetDelete(connectionListeners, callback);
        case None =>
      }
    }

    /**
     * `ws.onclose`: disconnected, every connection listener is told `false`,
     * and one reconnect is scheduled.
     */
    method OnClose()
      modifies this
      ensures socket == Some(Closed) && !isConnected && reconnectPending
      ensures delivered == old(delivered) + ConnectionDeliveries(connectionListeners, false)
      ensures tickLevel == old(tickLevel) && sent == old(sent)
      ensures orderbookBuffer == old(orderbookBuffer) && statsBuffer == old(statsBuffer)
      ensures batchScheduled == old(batchScheduled) && framePending == old(framePending)
      ensures orderbookListeners == old(orderbookListeners) && statsListeners == old(statsListeners)
      ensures connectionListeners == old(connectionListeners)
    {
      socket := Some(Closed);
      isConnected := false;
      NotifyConnectionListeners(false);
      reconnectPending := true;
    }

    /** The 3000 ms reconnect timer fires: `connect()` again. */
    method ReconnectTimer(connectFails: bool)
      modifies this
      ensures !old(reconnectPending) ==> socket == old(socket) && !reconnectPending
      ensures old(reconnectPending) && connectFails ==> socket == old(socket) && reconnectPending
      ensures old(reconnectPending) && !connectFails ==> socket == Some(Connecting) && !reconnectPending
      ensures isConnected == old(isConnected) && tickLevel == old(tickLevel)
      ensures orderbookBuffer == old(orderbookBuffer) && statsBuffer == old(statsBuffer)
      ensures batchScheduled == old(batchScheduled) && framePending == old(framePending)
      ensures orderbookListeners == old(orderbookListeners) && statsListeners == old(statsListeners)
      ensures connectionListeners == old(connectionListeners)
      ensures sent == old(sent) && delivered == old(delivered)
    {
      if reconnectPending {
        reconnectPending := false;
        Connect(connectFails);
      }
    }

    /**
     * `destroy`: the reconnect timer is cleared, the socket closed and the
     * three listener sets emptied; buffers and the batch flag stay.
     */
    method Destroy()
      requires Valid()
      modifies this
      ensures Valid()
      ensures !reconnectPending
      ensures socket == (if old(socket).Some? && old(socket).value in {Connecting, Open} then Some(Closing) else old(socket))
      ensures orderbookListeners == [] && statsListeners == [] && connectionListeners == []
      ensures orderbookBuffer == old(orderbookBuffer) && statsBuffer == old(statsBuffer)
      ensures batchScheduled == old(batchScheduled) && framePending == old(framePending)
      ensures isConnected == old(isConnected) && tickLevel == old(tickLevel)
      ensures sent == old(sent) && delivered == old(delivered)
    {
      reconnectPending := false;
      if socket.Some? && socket.value in {Connecting, Open} {
        socket := Some(Closing);
      }
      orderbookListeners := [];
      statsListeners := [];
      connectionListeners := [];
    }
  }
}
