/**
  The phone's connection to the relay (`WebSocketService`, mobile/src/services/websocket.js):
  a socket that is reopened with exponential backoff after an unintended close, and a
  registry of listeners for six kinds of event.

  Sockets and timers are outside the model. Every socket the service opens is numbered in
  `sockets`, which holds its ready state; what the socket reports (open, message, error,
  close) and the backoff timer firing are methods. What the listeners are called with is
  appended to `calls`, what is sent to `sent`, and every backoff delay scheduled to
  `delays`.
*/
module Link {
  import opened Wrappers
  import opened Text

  /** `maxReconnectAttempts` and `reconnectDelay` (websocket.js:14-15). */
  const MaxReconnectAttempts := 5
  const ReconnectDelay := 1000

  /** The kinds the listener table is created with (websocket.js:5-12). */
  const Kinds: set<string> := {"connected", "output", "error", "exit", "disconnect", "maxRetriesReached"}

  /** A callback, by identity: `off` compares callbacks with `!==`. */
  type Callback = nat

  datatype ReadyState = Connecting | Open | Closing | Closed

  /** What a listener is called with. */
  datatype Payload =
    | ServerMessage(kind: string, body: string)
    | ConnectionError(message: string)
    | Disconnected(code: int, reason: string)
    | GaveUp(message: string)

  /** One invocation of one listener. */
  datatype Call = Call(callback: Callback, payload: Payload)

  /** What arrives on a socket: a JSON object with a `type`, or text that is not JSON. */
  datatype Frame = Json(kind: string, body: string) | NotJson

  /** `JSON.stringify({ type, data })` */
  datatype Outgoing = Outgoing(kind: string, data: string)

  function Pow2(n: nat): (r: nat)
    ensures r >= 1
  {
    if n == 0 then 1 else 2 * Pow2(n - 1)
  }

  /** The wait before reconnect attempt `attempt`: `reconnectDelay * 2^(attempt - 1)`
      (websocket.js:61). */
  function Delay(attempt: nat): nat
    requires attempt >= 1
  {
    ReconnectDelay * Pow2(attempt - 1)
  }

  /** Each wait is twice the one before. */
  lemma DelayDoubles(attempt: nat)
    requires attempt >= 1
    ensures Delay(attempt + 1) == 2 * Delay(attempt)
  {
  }

  /** The five waits are 1, 2, 4, 8 and 16 seconds. */
  lemma BackoffSchedule()
    ensures [Delay(1), Delay(2), Delay(3), Delay(4), Delay(5)] == [1000, 2000, 4000, 8000, 16000]
  {
    assert Pow2(4) == 16 by {
      assert Pow2(2) == 4;
    }
  }

  /** `forEach(callback => callback(data))`: one call per callback, in order. */
  function CallsOf(callbacks: seq<Callback>, payload: Payload): (r: seq<Call>)
    ensures |r| == |callbacks|
  {
    if callbacks == [] then []
    else CallsOf(callbacks[..|callbacks| - 1], payload) + [Call(callbacks[|callbacks| - 1], payload)]
  }

  /** The `k`-th call goes to the `k`-th callback registered: listeners run in
      registration order, each with the payload. */
  lemma {:induction false} CallsInRegistrationOrder(callbacks: seq<Callback>, payload: Payload)
    ensures forall k :: 0 <= k < |callbacks| ==> CallsOf(callbacks, payload)[k] == Call(callbacks[k], payload)
  {
    if callbacks != [] {
      CallsInRegistrationOrder(callbacks[..|callbacks| - 1], payload);
    }
  }

  /** Removing a callback that was just added leaves the list as it was without it. */
  lemma OffUndoesOn(callbacks: seq<Callback>, cb: Callback)
    ensures Without(callbacks + [cb], cb) == Without(callbacks, cb)
  {
    WithoutAppend(callbacks, [cb], cb);
    assert Without([cb], cb) == [];
  }

  /** `ws.close()`: a connecting or open socket starts closing; a closing or closed one
      is left as it is. */
  function AfterClose(s: ReadyState): ReadyState {
    if s == Connecting || s == Open then Closing else s
  }

  class WebSocketService {
    var url: Option<string>
    var sockets: seq<ReadyState>
    var ws: Option<nat>
    var listeners: map<string, seq<Callback>>
    var reconnectAttempts: nat
    var isIntentionalDisconnect: bool
    /** Reconnect callbacks scheduled and not yet run. */
    var pendingReconnects: nat
    var delays: seq<nat>
    var calls: seq<Call>
    var sent: seq<Outgoing>

    ghost predicate Valid() reads this {
      && reconnectAttempts <= MaxReconnectAttempts
      && listeners.Keys == Kinds
      && (ws.Some? ==> ws.value < |sockets|)
      && (|sockets| > 0 || pendingReconnects > 0 ==> url.Some?)
    }

    /** The calls `_emit(kind, payload)` makes with the current listeners. */
    function Notified(kind: string, payload: Payload): seq<Call>
      reads this`listeners
    {
      if kind in listeners then CallsOf(listeners[kind], payload) else []
    }

    /** The service as created (websocket.js:2-17): no socket, no attempts, an empty
        listener list for each of the six kinds. */
    constructor ()
      ensures Valid()
      ensures url == None && sockets == [] && ws == None
      ensures listeners == map k | k in Kinds :: []
      ensures reconnectAttempts == 0 && !isIntentionalDisconnect && pendingReconnects == 0
      ensures delays == [] && calls == [] && sent == []
    {
      url := None;
      sockets := [];
      ws := None;
      listeners := map k | k in Kinds :: [];
      reconnectAttempts := 0;
      isIntentionalDisconnect := false;
      pendingReconnects := 0;
      delays := [];
      calls := [];
      sent := [];
    }

    /** `_emit(event, data)` (websocket.js:110-114): the listeners of a known kind are
        called in registration order; an unknown kind reaches no one. */
    method Emit(kind: string, payload: Payload)
      modifies this`calls
      ensures calls == old(calls) + Notified(kind, payload)
    {
      if kind in listeners {
        var callbacks := listeners[kind];
        var i := 0;
        while i < |callbacks|
          invariant i <= |callbacks|
          invariant calls == old(calls) + CallsOf(callbacks[..i], payload)
        {
          assert callbacks[..i + 1][..i] == callbacks[..i];
          calls := calls + [Call(callbacks[i], payload)];
          i := i + 1;
        }
        assert callbacks[..i] == callbacks;
      }
    }

    /** `on(event, callback)` (websocket.js:98-102): appended to a known kind's list; an
        unknown kind is ignored. */
    method On(kind: string, cb: Callback)
      requires Valid()
      modifies this`listeners
      ensures Valid()
      ensures kind in Kinds ==> listeners == old(listeners)[kind := old(listeners)[kind] + [cb]]
      ensures kind !in Kinds ==> listeners == old(listeners)
    {
      if kind in listeners {
        listeners := listeners[kind := listeners[kind] + [cb]];
      }
    }

    /** `off(event, callback)` (websocket.js:104-108): every occurrence of the callback
        leaves a known kind's list, the others keep their order; an unknown kind is
        ignored. */
    method Off(kind: string, cb: Callback)
      requires Valid()
      modifies this`listeners
      ensures Valid()
      ensures kind in Kinds ==> listeners == old(listeners)[kind := Without(old(listeners)[kind], cb)]
      ensures kind !in Kinds ==> listeners == old(listeners)
    {
      if kind in listeners {
        listeners := listeners[kind := Without(listeners[kind], cb)];
      }
    }

    /** `_connect()` (websocket.js:26-76): the current socket, if any, is closed and a new
        one opened to the stored address; the new one is current. */
    method OpenSocket()
      requires Valid() && url.Some?
      modifies this`sockets, this`ws
      ensures Valid()
      ensures old(ws).Some? ==> sockets == old(sockets)[old(ws).value := AfterClose(old(sockets)[old(ws).value])] + [Connecting]
      ensures old(ws).None? ==> sockets == old(sockets) + [Connecting]
      ensures ws == Some(|old(sockets)|)
    {
      if ws.Some? {
        sockets := sockets[ws.value := AfterClose(sockets[ws.value])];
      }
      ws := Some(|sockets|);
      sockets := sockets + [Connecting];
    }

    /** `connect(url)` (websocket.js:19-24): a fresh start, with the flag and the attempt
        counter cleared before the socket is opened. */
    method Connect(address: string)
      requires Valid()
      modifies this`url, this`isIntentionalDisconnect, this`reconnectAttempts, this`sockets, this`ws
      ensures Valid()
      ensures url == Some(address) && !isIntentionalDisconnect && reconnectAttempts == 0
      ensures old(ws).Some? ==> sockets == old(sockets)[old(ws).value := AfterClose(old(sockets)[old(ws).value])] + [Connecting]
      ensures old(ws).None? ==> sockets == old(sockets) + [Connecting]
      ensures ws == Some(|old(sockets)|)
    {
      url := Some(address);
      isIntentionalDisconnect := false;
      reconnectAttempts := 0;
      OpenSocket();
    }

    /** A socket's `onopen` (websocket.js:34-37): the attempt counter is cleared. */
    method SocketOpened(s: nat)
      requires Valid() && s < |sockets| && sockets[s] == Connecting
      modifies this`sockets, this`reconnectAttempts
      ensures Valid()
      ensures sockets == old(sockets)[s := Open]
      ensures reconnectAttempts == 0
    {
      sockets := sockets[s := Open];
      reconnectAttempts := 0;
    }

    /** A socket's `onmessage` (websocket.js:39-46): a JSON message goes to the listeners
        of its `type`; anything else is dropped. */
    method SocketMessage(s: nat, frame: Frame)
      requires Valid() && s < |sockets| && sockets[s] == Open
      modifies this`calls
      ensures Valid()
      ensures frame.Json? ==> calls == old(calls) + Notified(frame.kind, ServerMessage(frame.kind, frame.body))
      ensures frame.NotJson? ==> calls == old(calls)
    {
      if frame.Json? {
        Emit(frame.kind, ServerMessage(frame.kind, frame.body));
      }
    }

    /** A socket's `onerror` (websocket.js:48-51). */
    method SocketError(s: nat)
      requires Valid() && s < |sockets| && sockets[s] != Closed
      modifies this`calls
      ensures Valid()
      ensures calls == old(calls) + Notified("error", ConnectionError("Connection error"))
    {
      Emit("error", ConnectionError("Connection error"));
    }

    /** A socket's `onclose` (websocket.js:53-75). The listeners hear of the close first.
        Then, unless the close was intended: below the limit the counter is incremented
        and a reconnect scheduled after the doubled delay; at the limit the listeners are
        told the service gave up, and nothing is scheduled. */
    method SocketClosed(s: nat, code: int, reason: string)
      requires Valid() && s < |sockets| && sockets[s] != Closed
      modifies this`sockets, this`calls, this`reconnectAttempts, this`delays, this`pendingReconnects
      ensures Valid()
      ensures sockets == old(sockets)[s := Closed]
      ensures var retry := !isIntentionalDisconnect && old(reconnectAttempts) < MaxReconnectAttempts;
        && (retry ==> reconnectAttempts == old(reconnectAttempts) + 1 && delays == old(delays) + [Delay(reconnectAttempts)]
                      && pendingReconnects == old(pendingReconnects) + 1)
        && (!retry ==> reconnectAttempts == old(reconnectAttempts) && delays == old(delays) && pendingReconnects == old(pendingReconnects))
      ensures var gaveUp := !isIntentionalDisconnect && old(reconnectAttempts) >= MaxReconnectAttempts;
        calls == old(calls) + Notified("disconnect", Disconnected(code, reason))
          + (if gaveUp then Notified("maxRetriesReached", GaveUp("Failed to reconnect after 5 attempts")) else [])
    {
      sockets := sockets[s := Closed];
      Emit("disconnect", Disconnected(code, reason));
      if !isIntentionalDisconnect {
        if reconnectAttempts < MaxReconnectAttempts {
          reconnectAttempts := reconnectAttempts + 1;
          delays := delays + [Delay(reconnectAttempts)];
          pendingReconnects := pendingReconnects + 1;
        } else {
          Emit("maxRetriesReached", GaveUp("Failed to reconnect after 5 attempts"));
        }
      }
    }

    /** A scheduled reconnect runs (websocket.js:64-66): `_connect()`, whatever happened
        since it was scheduled. */
    method ReconnectFires()
      requires Valid() && pendingReconnects > 0
      modifies this`pendingReconnects, this`sockets, this`ws
      ensures Valid()
      ensures pendingReconnects == old(pendingReconnects) - 1
      ensures old(ws).Some? ==> sockets == old(sockets)[old(ws).value := AfterClose(old(sockets)[old(ws).value])] + [Connecting]
      ensures old(ws).None? ==> sockets == old(sockets) + [Connecting]
      ensures ws == Some(|old(sockets)|)
    {
      pendingReconnects := pendingReconnects - 1;
      OpenSocket();
    }

    /** `send(type, data)` (websocket.js:78-84): sent only on an open current socket,
        dropped otherwise. */
    method Send(kind: string, data: string)
      requires Valid()
      modifies this`sent
      ensures ws.Some? && sockets[ws.value] == Open ==> sent == old(sent) + [Outgoing(kind, data)]
      ensures !(ws.Some? && sockets[ws.value] == Open) ==> sent == old(sent)
    {
      if ws.Some? && sockets[ws.value] == Open {
        sent := sent + [Outgoing(kind, data)];
      }
    }

    /** `sendInput(input)` (websocket.js:86-88). */
    method SendInput(input: string)
      requires Valid()
      modifies this`sent
      ensures ws.Some? && sockets[ws.value] == Open ==> sent == old(sent) + [Outgoing("input", input)]
      ensures !(ws.Some? && sockets[ws.value] == Open) ==> sent == old(sent)
    {
      Send("input", input);
    }

    /** `disconnect()` (websocket.js:90-96), as written: the flag is set before the
        current socket is closed and forgotten, so its close schedules nothing; a
        reconnect already scheduled stays scheduled. */
    method Disconnect()
      requires Valid()
      modifies this`isIntentionalDisconnect, this`sockets, this`ws
      ensures Valid()
      ensures isIntentionalDisconnect && ws == None
      ensures old(ws).Some? ==> sockets == old(sockets)[old(ws).value := AfterClose(old(sockets)[old(ws).value])]
      ensures old(ws).None? ==> sockets == old(sockets)
    {
      isIntentionalDisconnect := true;
      if ws.Some? {
        sockets := sockets[ws.value := AfterClose(sockets[ws.value])];
        ws := None;
      }
    }

    /** `disconnect()` as intended: it also cancels a scheduled reconnect, so once it
        has run no socket is opened until `connect` is called again. */
    method DisconnectCancelling()
      requires Valid()
      modifies this`isIntentionalDisconnect, this`sockets, this`ws, this`pendingReconnects
      ensures Valid()
      ensures isIntentionalDisconnect && ws == None && pendingReconnects == 0
      ensures old(ws).Some? ==> sockets == old(sockets)[old(ws).value := AfterClose(old(sockets)[old(ws).value])]
      ensures old(ws).None? ==> sockets == old(sockets)
    {
      Disconnect();
      pendingReconnects := 0;
    }
  }

  /** A phone whose connection drops and which is then disconnected on purpose during
      the backoff is connected again when the scheduled reconnect runs. */
  method DisconnectDuringBackoff() returns (link: WebSocketService)
    ensures link.isIntentionalDisconnect
    ensures link.ws == Some(1) && link.sockets == [Closed, Connecting]
  {
    link := new WebSocketService();
    link.Connect("ws://relay");
    link.SocketClosed(0, 1006, "");
    link.Disconnect();
    link.ReconnectFires();
  }

  /** With the cancelling disconnect, the same sequence leaves the phone disconnected with
      nothing scheduled: no socket can be opened until `connect` is called again. */
  method CancellingDisconnectDuringBackoff() returns (link: WebSocketService)
    ensures link.isIntentionalDisconnect && link.ws == None && link.pendingReconnects == 0
    ensures link.delays == [Delay(1)]
  {
    link := new WebSocketService();
    link.Connect("ws://relay");
    link.SocketClosed(0, 1006, "");
    link.DisconnectCancelling();
  }
}
