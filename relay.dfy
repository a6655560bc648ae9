/**
  The relay (`RemoteCCServer`, server/src/server.js): the set of connected phones, the
  terminal process it starts for them, the backlog of terminal output a late phone is
  sent, the coalescer that gathers output into frames, and the classifier window that
  decides whether the assistant is working or waiting for an answer.

  The sockets, the terminal process and the timer are outside the model. Each of their
  events is a method: a phone connects, sends a message, leaves the open state or closes;
  the terminal writes output or exits; the coalescing timer fires. What the relay sends
  is appended to `outbox`, one entry per socket send, and what it writes to the terminal
  to `ptyInput`.
*/
module Relay {
  import opened Wrappers
  import opened Text
  import opened Csi
  import opened Question
  import opened Classifier

  type ClientId = nat

  /** `maxBufferSize` (server.js:18). */
  const MaxBufferSize := 100
  /** The classifier window (server.js:329-331). */
  const WindowSize := 1000

  /** The synchronized-output markers (server.js:230, 242). */
  const SyncStart := "\U{001B}[?2026h"
  const SyncEnd := "\U{001B}[?2026l"

  /** The messages the relay sends, as records. */
  datatype Message =
    | Connected(text: string)
    | State(state: string)
    | StateWithQuestion(state: string, question: Option<string>, options: Option<seq<MenuOption>>, rawText: string)
    | Output(data: string)
    | Exit(exitCode: int, signal: Option<int>)
    | Error(text: string)
    | Close(code: int, reason: string)

  /** The close frame for a wrong token (server.js:64), the welcome message (server.js:72-75) and
      the error broadcast when the terminal cannot be started (server.js:220-224). */
  const InvalidToken: Message := Close(1008, "Invalid token")
  const Welcome: Message := Connected("Connected to RemoteCC server")

  function StartFailure(command: string, reason: string): Message {
    Error("Failed to start " + command + ": " + reason)
  }

  /** One send on one socket. */
  datatype Delivery = Delivery(to: ClientId, message: Message)

  /** What a phone sends: terminal input, a state override, or anything else (a message
      that is not JSON, or one of another type), which the relay ignores. */
  datatype ClientMessage = Input(data: string) | ForceState(state: string) | Ignored

  /** A running terminal process. */
  datatype Pty = Pty(serial: nat)

  /** What starting the terminal process gives: a process, or the error `spawn` throws. */
  datatype Spawn = Spawned | SpawnFailed(reason: string)

  // ---------------------------------------------------------------------------------------
  // The output backlog
  // ---------------------------------------------------------------------------------------

  /** `outputBuffer.push(data)` and, above the cap, `shift()` (server.js:174-177). */
  function Backlog(buffer: seq<string>, chunk: string): seq<string> {
    var b := buffer + [chunk];
    if |b| > MaxBufferSize then b[1..] else b
  }

  /** Within the cap, the new chunk is appended last, and at the cap exactly the oldest
      chunk is dropped. */
  lemma BacklogAppends(buffer: seq<string>, chunk: string)
    requires |buffer| <= MaxBufferSize
    ensures var r := Backlog(buffer, chunk);
      && |r| <= MaxBufferSize && r[|r| - 1] == chunk
      && (|buffer| < MaxBufferSize ==> r == buffer + [chunk])
      && (|buffer| == MaxBufferSize ==> r == buffer[1..] + [chunk])
  {
  }

  /** The backlog is always the last (at most) 100 chunks of everything the terminal has
      written. */
  lemma BacklogIsRecentOutput(output: seq<string>, chunk: string)
    ensures Backlog(Suffix(output, MaxBufferSize), chunk) == Suffix(output + [chunk], MaxBufferSize)
  {
    var s := Suffix(output, MaxBufferSize);
    if |output| >= MaxBufferSize {
      assert output + [chunk] == output[..|output| - MaxBufferSize] + (s + [chunk]);
      assert (s + [chunk])[1..] == (output + [chunk])[|output| + 1 - MaxBufferSize..];
    }
  }

  /** `Concat` splits at any point. */
  lemma {:induction false} ConcatSplit(xs: seq<string>, k: nat)
    requires k <= |xs|
    ensures Concat(xs) == Concat(xs[..k]) + Concat(xs[k..])
    decreases |xs| - k
  {
    if k < |xs| {
      ConcatSplit(xs[..|xs| - 1], k);
      assert xs[..|xs| - 1][..k] == xs[..k];
      assert xs[k..][..|xs[k..]| - 1] == xs[..|xs| - 1][k..];
      assert xs[..|xs| - 1] + [xs[|xs| - 1]] == xs;
    } else {
      assert xs[..k] == xs;
    }
  }

  /** What a late phone is sent, `outputBuffer.join('')`, is the end of all the output. */
  lemma ReplayIsTail(output: seq<string>)
    ensures exists p :: Concat(output) == p + Concat(Suffix(output, MaxBufferSize))
  {
    var s := Suffix(output, MaxBufferSize);
    ConcatSplit(output, |output| - |s|);
    assert output[|output| - |s|..] == s;
  }

  // ---------------------------------------------------------------------------------------
  // The classifier window and the broadcasts
  // ---------------------------------------------------------------------------------------

  /** `stateBuffer += stripped`, then `slice(-1000)` above 1000 (server.js:325-331). */
  function Window(buffer: string, frame: string): (r: string)
    ensures |r| <= WindowSize
  {
    Suffix(buffer + Strip(StateCodes, frame), WindowSize)
  }

  /** Every frame with its control sequences stripped, concatenated. */
  function StrippedFrames(frames: seq<string>): string {
    if frames == [] then [] else StrippedFrames(frames[..|frames| - 1]) + Strip(StateCodes, frames[|frames| - 1])
  }

  /** The window is always the last (at most) 1000 characters of all the frames handed to
      the classifier, each stripped of its control sequences. */
  lemma WindowIsRecentText(frames: seq<string>, frame: string)
    ensures Window(Suffix(StrippedFrames(frames), WindowSize), frame) == Suffix(StrippedFrames(frames + [frame]), WindowSize)
  {
    assert (frames + [frame])[..|frames|] == frames;
    SuffixOfSuffix(StrippedFrames(frames), Strip(StateCodes, frame), WindowSize);
  }

  /** The `state` message for a state (server.js:389-413): a waiting state carries what
      `parseQuestion` reads from the window, any other state only its name. */
  function Announcement(state: string, window: string): Message {
    if state == WaitingState then
      var p := ParseQuestion(window);
      StateWithQuestion(state, p.question, p.options, p.rawText)
    else State(state)
  }

  /** `broadcast(m)` (server.js:416-423): one send per client whose socket is open, in the
      order the clients joined. */
  function Deliveries(clients: seq<ClientId>, open: set<ClientId>, m: Message): seq<Delivery> {
    if clients == [] then []
    else
      var last := clients[|clients| - 1];
      Deliveries(clients[..|clients| - 1], open, m) + (if last in open then [Delivery(last, m)] else [])
  }

  /** A broadcast reaches exactly the clients whose socket is open, with the message. */
  lemma {:induction false} DeliveriesReachOpenClients(clients: seq<ClientId>, open: set<ClientId>, m: Message)
    ensures forall d :: d in Deliveries(clients, open, m) <==> d.to in clients && d.to in open && d.message == m
  {
    if clients != [] {
      var init := clients[..|clients| - 1];
      DeliveriesReachOpenClients(init, open, m);
      assert clients == init + [clients[|clients| - 1]];
    }
  }

  /** Each open client gets the broadcast once when no client is listed twice. */
  lemma {:induction false} DeliveriesOncePerClient(clients: seq<ClientId>, open: set<ClientId>, m: Message)
    requires Distinct(clients)
    ensures |Deliveries(clients, open, m)| <= |clients|
    ensures forall i, j :: 0 <= i < j < |Deliveries(clients, open, m)| ==>
      Deliveries(clients, open, m)[i].to != Deliveries(clients, open, m)[j].to
  {
    if clients != [] {
      var init := clients[..|clients| - 1];
      DeliveriesOncePerClient(init, open, m);
      DeliveriesReachOpenClients(init, open, m);
    }
  }

  /** The close frames `cleanup` sends (server.js:433-436), one per client, in order. */
  function Farewells(clients: seq<ClientId>): (r: seq<Delivery>)
    ensures |r| == |clients|
  {
    if clients == [] then [] else Farewells(clients[..|clients| - 1]) + [Delivery(clients[|clients| - 1], Close(1000, "Server shutting down"))]
  }

  /** Every client, and no one else, is sent the shutdown close frame, in join order. */
  lemma {:induction false} FarewellsCloseEveryClient(clients: seq<ClientId>)
    ensures forall k :: 0 <= k < |clients| ==> Farewells(clients)[k] == Delivery(clients[k], Close(1000, "Server shutting down"))
  {
    if clients != [] {
      FarewellsCloseEveryClient(clients[..|clients| - 1]);
    }
  }

  /** Removing a socket from a set of distinct sockets leaves them distinct, and every
      other open socket still among them. */
  lemma RemovalKeepsClients(clients: seq<ClientId>, open: set<ClientId>, id: ClientId)
    requires Distinct(clients) && forall c :: c in open ==> c in clients
    ensures Distinct(Without(clients, id))
    ensures forall c :: c in open - {id} ==> c in Without(clients, id)
  {
    WithoutKeepsDistinct(clients, id);
    WithoutMembers(clients, id);
  }

  /** `data.includes(marker)` */
  predicate Contains(data: string, marker: string) {
    exists i | 0 <= i <= |data| :: OccursAt(data, marker, i)
  }

  class RemoteCCServer {
    const token: string
    const command: string
    var clients: seq<ClientId>
    var open: set<ClientId>
    var pty: Option<Pty>
    var spawned: nat
    var ptyInput: seq<string>
    var killed: bool
    var outputBuffer: seq<string>
    var mobileFrameBuffer: string
    var timerPending: bool
    var inSyncedOutput: bool
    var currentState: string
    var stateBuffer: string
    var outbox: seq<Delivery>
    /** Every chunk the terminal has written, in order. */
    ghost var output: seq<string>
    /** Every frame handed to the classifier, in order. */
    ghost var frames: seq<string>

    /** The backlog is the last chunks of the output, at most 100 of them. */
    ghost predicate BacklogValid() reads this`outputBuffer, this`output {
      outputBuffer == Suffix(output, MaxBufferSize)
    }

    /** Nothing is lost or reordered on the way through the coalescer: the frames handed to
        the classifier, followed by the pending frame, are all of the output. */
    ghost predicate CoalescerValid() reads this`frames, this`mobileFrameBuffer, this`output {
      Concat(frames) + mobileFrameBuffer == Concat(output)
    }

    /** The window is the end of all the stripped frames. */
    ghost predicate WindowValid() reads this`stateBuffer, this`frames {
      stateBuffer == Suffix(StrippedFrames(frames), WindowSize)
    }

    /** A `Set` of sockets: no client twice, and only clients are open. */
    ghost predicate ClientsValid() reads this`clients, this`open {
      && Distinct(clients)
      && (forall c :: c in open ==> c in clients)
    }

    ghost predicate Valid()
      reads this`outputBuffer, this`output, this`frames, this`mobileFrameBuffer, this`stateBuffer, this`clients, this`open
    {
      BacklogValid() && CoalescerValid() && WindowValid() && ClientsValid()
    }

    /** The classifier has read `frame`: the window, previously `window0`, now ends with it;
        the state, previously `state0`, is what the tables say of the lower-cased window;
        and when it changed, its announcement went to every open client after `outbox0`. */
    ghost predicate Classified(frame: string, window0: string, state0: string, outbox0: seq<Delivery>)
      reads this`stateBuffer, this`currentState, this`outbox, this`clients, this`open
    {
      && stateBuffer == Window(window0, frame)
      && currentState == NextState(state0, ToLower(stateBuffer))
      && (currentState != state0 ==> outbox == outbox0 + Deliveries(clients, open, Announcement(currentState, stateBuffer)))
      && (currentState == state0 ==> outbox == outbox0)
    }

    /** What `flushMobileBuffer` did with the pending frame `pending`, the earlier frames
        `frames0`, window `window0`, state `state0` and sends `outbox0`: with a non-empty
        frame and at least one client, the frame was classified and the buffer emptied;
        otherwise nothing changed. */
    ghost predicate Flushed(pending: string, frames0: seq<string>, window0: string, state0: string, outbox0: seq<Delivery>)
      reads this`frames, this`mobileFrameBuffer, this`stateBuffer, this`currentState, this`outbox, this`clients, this`open
    {
      if pending != [] && |clients| > 0 then
        frames == frames0 + [pending] && mobileFrameBuffer == [] && Classified(pending, window0, state0, outbox0)
      else
        frames == frames0 && mobileFrameBuffer == pending && stateBuffer == window0 && currentState == state0 && outbox == outbox0
    }

    /** What `handleMobileOutput(data)` did, from the pending frame `buffer0` and the
        earlier flag `synced0`: the flag follows the markers in `data`; a chunk that ends a
        synchronized block flushes the grown frame and leaves no timer; any other chunk
        leaves the grown frame pending and one timer armed. */
    ghost predicate Coalesced(data: string, buffer0: string, synced0: bool, frames0: seq<string>, window0: string, state0: string, outbox0: seq<Delivery>)
      reads this`frames, this`mobileFrameBuffer, this`stateBuffer, this`currentState, this`outbox, this`clients, this`open
      reads this`inSyncedOutput, this`timerPending
    {
      && inSyncedOutput == (if Contains(data, SyncEnd) then false else Contains(data, SyncStart) || synced0)
      && timerPending == !Contains(data, SyncEnd)
      && if Contains(data, SyncEnd) then Flushed(buffer0 + data, frames0, window0, state0, outbox0)
        else frames == frames0 && mobileFrameBuffer == buffer0 + data && stateBuffer == window0 && currentState == state0 && outbox == outbox0
    }

    /** The relay before `start` (server.js:9-28): no clients, no process, empty buffers and
        the state "working". */
    constructor (token: string, command: string)
      ensures Valid()
      ensures this.token == token && this.command == command
      ensures clients == [] && open == {} && pty == None && ptyInput == [] && !killed
      ensures outputBuffer == [] && mobileFrameBuffer == [] && !timerPending && !inSyncedOutput
      ensures currentState == WorkingState && stateBuffer == [] && outbox == []
    {
      this.token := token;
      this.command := command;
      clients := [];
      open := {};
      pty := None;
      spawned := 0;
      ptyInput := [];
      killed := false;
      outputBuffer := [];
      mobileFrameBuffer := [];
      timerPending := false;
      inSyncedOutput := false;
      currentState := WorkingState;
      stateBuffer := [];
      outbox := [];
      output := [];
      frames := [];
    }

    /** `broadcast(data)` (server.js:416-422). */
    method Broadcast(m: Message)
      modifies this`outbox
      ensures outbox == old(outbox) + Deliveries(clients, open, m)
    {
      var i := 0;
      while i < |clients|
        invariant i <= |clients|
        invariant outbox == old(outbox) + Deliveries(clients[..i], open, m)
      {
        assert clients[..i + 1][..i] == clients[..i];
        if clients[i] in open {
          outbox := outbox + [Delivery(clients[i], m)];
        }
        i := i + 1;
      }
      assert clients[..i] == clients;
    }

    /** `startPTY()` (server.js:158-225): the terminal process is started, or the failure
        is broadcast. The data and exit handlers it installs are `PtyData` and `PtyExit`. */
    method StartPty(spawn: Spawn)
      modifies this`pty, this`spawned, this`outbox
      ensures spawn == Spawned ==> pty == Some(Pty(old(spawned))) && spawned == old(spawned) + 1 && outbox == old(outbox)
      ensures spawn.SpawnFailed? ==>
        && pty == old(pty) && spawned == old(spawned)
        && outbox == old(outbox) + Deliveries(clients, open, StartFailure(command, spawn.reason))
    {
      if spawn == Spawned {
        pty := Some(Pty(spawned));
        spawned := spawned + 1;
      } else {
        Broadcast(StartFailure(command, spawn.reason));
      }
    }

    /** A phone connects (server.js:59-94). A wrong or missing token closes the socket
        with code 1008 and changes nothing else; the right one adds the client, sends it
        the greeting, the current state (without a question) and the backlog when there is
        one, and starts the terminal process if none is running. */
    method Connect(id: ClientId, clientToken: Option<string>, spawn: Spawn)
      requires Valid() && id !in clients
      modifies this`clients, this`open, this`outbox, this`pty, this`spawned
      ensures Valid()
      ensures clientToken != Some(token) ==>
        && outbox == old(outbox) + [Delivery(id, InvalidToken)]
        && clients == old(clients) && open == old(open) && pty == old(pty) && spawned == old(spawned)
      ensures clientToken == Some(token) ==>
        && clients == old(clients) + [id] && open == old(open) + {id}
        && (old(pty).Some? ==> pty == old(pty) && spawned == old(spawned))
        && (old(pty).None? && spawn == Spawned ==> pty == Some(Pty(old(spawned))) && spawned == old(spawned) + 1)
        && (old(pty).None? && spawn.SpawnFailed? ==> pty == None && spawned == old(spawned))
        && outbox == old(outbox)
          + [Delivery(id, Welcome), Delivery(id, State(currentState))]
          + (if outputBuffer != [] then [Delivery(id, Output(Concat(outputBuffer)))] else [])
          + (if old(pty).None? && spawn.SpawnFailed? then Deliveries(clients, open, StartFailure(command, spawn.reason)) else [])
    {
      if clientToken != Some(token) {
        outbox := outbox + [Delivery(id, InvalidToken)];
        return;
      }
      AppendKeepsDistinct(clients, id);
      clients := clients + [id];
      open := open + {id};
      assert Valid();
      outbox := outbox + [Delivery(id, Welcome), Delivery(id, State(currentState))];
      if outputBuffer != [] {
        outbox := outbox + [Delivery(id, Output(Concat(outputBuffer)))];
      }
      if pty.None? {
        StartPty(spawn);
      }
    }

    /** A message from a phone (server.js:96-128): input goes to the terminal while it
        runs; a state override sets the state and broadcasts it, whether or not it
        changed; anything else is ignored. */
    method ClientMessage(msg: ClientMessage)
      requires Valid()
      modifies this`ptyInput, this`currentState, this`outbox
      ensures Valid()
      ensures ptyInput == if msg.Input? && pty.Some? then old(ptyInput) + [msg.data] else old(ptyInput)
      ensures currentState == if msg.ForceState? then msg.state else old(currentState)
      ensures msg.ForceState? ==> outbox == old(outbox) + Deliveries(clients, open, Announcement(msg.state, stateBuffer))
      ensures !msg.ForceState? ==> outbox == old(outbox)
    {
      match msg
      case Input(data) =>
        if pty.Some? {
          ptyInput := ptyInput + [data];
        }
      case ForceState(state) =>
        currentState := state;
        Broadcast(Announcement(state, stateBuffer));
      case Ignored =>
    }

    /** A socket leaves the open state (its closing handshake has begun): broadcasts skip
        it from now on. */
    method ClientClosing(id: ClientId)
      requires Valid()
      modifies this`open
      ensures Valid()
      ensures open == old(open) - {id}
    {
      open := open - {id};
    }

    /** A socket's `close` or `error` event (server.js:129-140): the client is deleted and
        the others keep their order. */
    method ClientGone(id: ClientId)
      requires Valid()
      modifies this`clients, this`open
      ensures Valid()
      ensures clients == Without(old(clients), id)
      ensures open == old(open) - {id}
    {
      RemovalKeepsClients(clients, open, id);
      clients := Without(clients, id);
      open := open - {id};
    }

    /** `detectState(data)` (server.js:323-414): the stripped frame extends the window, the
        classifier reads the lower-cased window, and a state message goes out only when
        the state changes. */
    method DetectState(data: string)
      requires WindowValid()
      modifies this`stateBuffer, this`currentState, this`outbox, this`frames
      ensures WindowValid()
      ensures frames == old(frames) + [data]
      ensures Classified(data, old(stateBuffer), old(currentState), old(outbox))
    {
      WindowIsRecentText(frames, data);
      stateBuffer := Window(stateBuffer, data);
      frames := frames + [data];
      var next := Classify(currentState, ToLower(stateBuffer));
      if next != currentState {
        currentState := next;
        Broadcast(Announcement(next, stateBuffer));
      }
    }

    /** `flushMobileBuffer()` (server.js:255-264). */
    method FlushMobileBuffer()
      requires WindowValid()
      modifies this`stateBuffer, this`currentState, this`outbox, this`frames, this`mobileFrameBuffer
      ensures WindowValid()
      ensures Concat(frames) + mobileFrameBuffer == Concat(old(frames)) + old(mobileFrameBuffer)
      ensures Flushed(old(mobileFrameBuffer), old(frames), old(stateBuffer), old(currentState), old(outbox))
    {
      if mobileFrameBuffer != [] && |clients| > 0 {
        ConcatAppend(frames, mobileFrameBuffer);
        DetectState(mobileFrameBuffer);
        mobileFrameBuffer := [];
      }
    }

    /** `handleMobileOutput(data)` (server.js:228-253): the chunk joins the pending frame;
        a chunk that ends a synchronized block flushes at once, any other one (re)arms the
        100 ms timer. The flag set by a block start is never read. */
    method HandleMobileOutput(data: string)
      requires WindowValid()
      modifies this`stateBuffer, this`currentState, this`outbox, this`frames, this`mobileFrameBuffer, this`timerPending, this`inSyncedOutput
      ensures WindowValid()
      ensures Concat(frames) + mobileFrameBuffer == Concat(old(frames)) + old(mobileFrameBuffer) + data
      ensures Coalesced(data, old(mobileFrameBuffer), old(inSyncedOutput), old(frames), old(stateBuffer), old(currentState), old(outbox))
    {
      if Contains(data, SyncStart) {
        inSyncedOutput := true;
      }
      mobileFrameBuffer := mobileFrameBuffer + data;
      assert Concat(frames) + mobileFrameBuffer == Concat(frames) + old(mobileFrameBuffer) + data;
      timerPending := false;
      if Contains(data, SyncEnd) {
        inSyncedOutput := false;
        FlushMobileBuffer();
      } else {
        timerPending := true;
      }
    }

    /** The terminal writes a chunk (server.js:172-184): it joins the backlog, whose oldest
        chunk is dropped above 100, and goes through the coalescer. */
    method PtyData(data: string)
      requires Valid()
      modifies this`outputBuffer, this`output
      modifies this`stateBuffer, this`currentState, this`outbox, this`frames, this`mobileFrameBuffer, this`timerPending, this`inSyncedOutput
      ensures Valid()
      ensures output == old(output) + [data]
      ensures outputBuffer == Backlog(old(outputBuffer), data)
      ensures Coalesced(data, old(mobileFrameBuffer), old(inSyncedOutput), old(frames), old(stateBuffer), old(currentState), old(outbox))
    {
      BacklogIsRecentOutput(output, data);
      ConcatAppend(output, data);
      outputBuffer := Backlog(outputBuffer, data);
      output := output + [data];
      assert BacklogValid() && ClientsValid();
      HandleMobileOutput(data);
      assert CoalescerValid();
    }

    /** The coalescing timer fires (server.js:247-251): the pending frame is flushed. */
    method TimerFires()
      requires Valid() && timerPending
      modifies this`timerPending, this`stateBuffer, this`currentState, this`outbox, this`frames, this`mobileFrameBuffer
      ensures Valid()
      ensures !timerPending
      ensures Flushed(old(mobileFrameBuffer), old(frames), old(stateBuffer), old(currentState), old(outbox))
    {
      timerPending := false;
      FlushMobileBuffer();
    }

    /** The terminal process exits (server.js:204-215): the exit is broadcast and the
        handle cleared, so the next phone to connect starts a new one. */
    method PtyExit(exitCode: int, signal: Option<int>)
      requires Valid() && pty.Some?
      modifies this`pty, this`outbox
      ensures Valid()
      ensures pty == None
      ensures outbox == old(outbox) + Deliveries(clients, open, Exit(exitCode, signal))
    {
      Broadcast(Exit(exitCode, signal));
      pty := None;
    }

    /** `cleanup()`'s teardown of clients and terminal (server.js:425-449): every client is
        sent a close frame, which takes its socket out of the open state, and a running
        terminal is killed. */
    method Cleanup()
      requires Valid()
      modifies this`outbox, this`open, this`killed
      ensures Valid()
      ensures outbox == old(outbox) + Farewells(clients)
      ensures open == {}
      ensures killed == (old(killed) || pty.Some?)
    {
      var i := 0;
      while i < |clients|
        invariant i <= |clients|
        invariant outbox == old(outbox) + Farewells(clients[..i])
        modifies this`outbox
      {
        assert clients[..i + 1][..i] == clients[..i];
        outbox := outbox + [Delivery(clients[i], Close(1000, "Server shutting down"))];
        i := i + 1;
      }
      assert clients[..i] == clients;
      open := {};
      if pty.Some? {
        killed := true;
      }
    }
  }
}
