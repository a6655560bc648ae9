# RemoteCC relay and mobile link, modelled in Dafny

RemoteCC lets a phone watch and answer a terminal coding assistant running on a
computer. A relay (`RemoteCCServer`, server/src/server.js) starts the assistant in a
pseudo-terminal when the first phone connects with the right token. It keeps a
backlog of the terminal's output for phones that join late. It gathers the output
into frames, ending a frame early when a synchronized-output block closes. It
classifies the last 1000 characters of output as "working" or "waiting", and when
the assistant starts waiting it sends the phones the question and the numbered menu
it reads from the screen. On the phone:

- `WebSocketService` (mobile/src/services/websocket.js) reconnects with exponential
  backoff and passes server messages to registered listeners.
- `parseAnsiText` (mobile/src/components/AnsiText.js) cuts terminal text into
  coloured runs.
- The question screen (mobile/src/components/ClaudeQuestionScreen.js) keeps a
  cyclic menu highlight and shows the text in front of the question.

The model has one module per part:

- `Text`: the JavaScript string operations the code relies on (`trim`, `split`,
  `indexOf`, `parseInt`, `slice(-n)`, `filter`, `\s`).
- `Csi`: the global `replace` calls that strip control sequences.
- `AnsiText`: `parseAnsiText`, a scanning method proved equal to a recursive
  specification.
- `Question`: `parseQuestion`, with each regular expression written as a predicate.
  The functions that compute matches are proved to find exactly the matches of
  those predicates.
- `Classifier`: the two pattern tables of `detectState` and its two `break` loops.
- `Relay`: the `RemoteCCServer` class, with one method per event: a phone
  connects, sends a message, starts closing or is gone; the terminal writes or
  exits; the coalescing timer fires; shutdown.
- `Link`: the `WebSocketService` class, with one method per call and per socket
  event.
- `QuestionScreen`: the menu cursor as a class, and `getContext`.

Sockets, the process and timers are outside the model. What the relay sends is
recorded in `outbox`, one `Delivery` per socket send. What the phone's listeners
receive is recorded in `calls`, and each scheduled backoff wait in `delays`. Ghost
fields `output` and `frames` record every terminal chunk and every frame handed to
the classifier. The class invariants tie the relay's real state to these records:

- the backlog is the last 100 chunks of `output`;
- the frames followed by the pending frame are all of `output`;
- the classifier window is the last 1000 characters of the stripped frames.

Where the code and its comments or documentation say different things, the model
follows the code:

- The generic question is the **first** line containing `?` (a non-global `match`,
  server/src/server.js:271).
- A synchronized-output start marker only sets `inSyncedOutput`, and nothing reads
  it. The 100 ms timer is re-armed for every chunk that does not end a block, so
  timer flushing is not suspended inside a block (server/src/server.js:230-252).
- The `state` message a phone gets on connecting has no question, even while
  waiting (server/src/server.js:78-81).
- `mobileFrameTimer` is never reset to `null`, which changes nothing observable.
  The model keeps only whether a flush is scheduled (`timerPending`).
- A flush with no phone connected keeps the pending frame
  (server/src/server.js:256).
- `forceState` sets the state and broadcasts it even when the state is unchanged
  (server/src/server.js:105-123).
- A reconnect that is already scheduled is not cancelled by `disconnect()` (see
  Findings).

## Model

| member | source | states |
|---|---|---|
| Text.ToLower | server/src/server.js:333 | `toLowerCase` lowers each upper-case ASCII letter (code plus 32), keeps every other character and the length, and leaves no upper-case ASCII letter |
| Text.RunEndSpan | server/src/server.js:285 | a greedy `[class]*` run from `i` holds only characters of the class, and the character after it is not of the class |
| Text.TrimKeepsMiddle | mobile/src/components/ClaudeQuestionScreen.js:32 | `trim` removes only white space, only at the two ends: the input is the result with a white-space run on each side |
| Text.TrimEmptyIffAllSpace | server/src/server.js:295-297 | a line trims to the empty string exactly when it is all white space |
| Text.SplitJoin | server/src/server.js:280 | `split('\n')` loses nothing: joining the lines with `\n` gives the text back |
| Text.IndexOf | mobile/src/components/ClaudeQuestionScreen.js:30 | `indexOf` gives the first position where the text occurs, or -1 exactly when it occurs nowhere |
| Text.WithoutKeepsCounts | server/src/server.js:268 | `replace(/\r/g, '')` leaves the number of every other character unchanged |
| Text.WithoutMembers | mobile/src/services/websocket.js:106 | `filter(cb => cb !== callback)` keeps exactly the other elements |
| Text.WithoutAppend | mobile/src/services/websocket.js:106 | the filter distributes over concatenation, so the kept elements stay in order |
| Text.AppendKeepsDistinct | server/src/server.js:69 | adding a client that is not yet in a list without repetitions leaves one without repetitions, as a `Set` add does |
| Text.WithoutKeepsDistinct | server/src/server.js:132 | deleting from a list without repetitions leaves one without repetitions |
| Text.SuffixOfSuffix | server/src/server.js:328-331 | truncating, appending and truncating again equals appending then truncating once |
| Text.ParseIntReadsLeadingInteger | mobile/src/components/AnsiText.js:69 | `parseInt` of a code reads its leading decimal digits and ignores what follows them |
| Csi.MatchAt | server/src/server.js:325 | a match found at a position has the shape `ESC [ lead params* final` with the reported length |
| Csi.MatchAtFindsEverySequence | server/src/server.js:268 | every control sequence of the pattern's shape is found, with exactly its length, when parameters and finals share no character |
| Csi.StripKeepsPlainText | mobile/src/components/AnsiText.js:33-37 | text without an escape character passes through a strip unchanged |
| Csi.StripKeepsCount | server/src/server.js:268 | a strip keeps every occurrence of a character that no match can contain (not `ESC`, not `[`, not in the lead, in neither class) |
| Csi.PatternsDisjoint | mobile/src/components/AnsiText.js:34-37 | in each of the six stripping patterns no parameter character is also a final character, so each match is the longest one |
| AnsiText.NumericColor | mobile/src/components/AnsiText.js:7-24 | every numeric entry of `ANSI_COLORS` is a colour of the table |
| AnsiText.TrueColor | mobile/src/components/AnsiText.js:27-28 | the two `38;2;…` entries are colours of the table |
| AnsiText.ApplyCode | mobile/src/components/AnsiText.js:61-71 | code `0` resets to `#FFFFFF`; any other code gives a colour of the table or keeps the current one |
| AnsiText.ApplyCodeSetsOrKeeps | mobile/src/components/AnsiText.js:61-71 | a code either keeps the colour or sets one that does not depend on the colour before it |
| AnsiText.ApplyCodeReadsLeadingInteger | mobile/src/components/AnsiText.js:68-70 | a code that is neither `0` nor `38;2;…` is looked up by its leading integer; a number missing from the table keeps the colour |
| AnsiText.RenderHasNoEmptyPart | mobile/src/components/AnsiText.js:47-50 | no run the scan emits has empty text |
| AnsiText.RenderUsesPalette | mobile/src/components/AnsiText.js:40 | starting from a table colour, every run has a colour of the table |
| AnsiText.RenderKeepsVisibleText | mobile/src/components/AnsiText.js:44-82 | the runs' texts, concatenated, are the pending run and then the text with every `ESC [`…first-`m` span removed; an `ESC [` with no `m` after it is kept |
| AnsiText.FindCodeEnd | mobile/src/components/AnsiText.js:53-56 | the inner loop stops at the first `m` from `i + 2`, or at the end |
| AnsiText.ScanEscape | mobile/src/components/AnsiText.js:45-77 | the `ESC [` branch moves the index strictly forward and keeps "parts so far + what the rest renders == the final parts" |
| AnsiText.Scan | mobile/src/components/AnsiText.js:39-88 | the scanning loop returns exactly the runs of the recursive specification |
| AnsiText.ParseAnsiText | mobile/src/components/AnsiText.js:31-89 | the runs carry exactly the visible text in order, none is empty, all have table colours, and an empty cleaned text gives no runs |
| Classifier.AnyMatchesIff | server/src/server.js:354-360 | the table test holds exactly when some rule of the table matches |
| Classifier.FirstMatch | server/src/server.js:381-387 | the `for … of` loop with `break` stops at the first matching rule, and none before it matches |
| Classifier.Classify | server/src/server.js:352-387 | the two rule loops return exactly the rule-table state `NextState` for every state and screen text |
| Classifier.NextStateCases | server/src/server.js:352-387 | a waiting match gives "waiting" whatever the working rules say; otherwise a working match gives "working"; otherwise the state is unchanged |
| Classifier.EndsWithIffTrimmedEnd | server/src/server.js:365-366 | `c\s*$` matches exactly when the text without trailing white space ends with `c` |
| Question.TitleStart | server/src/server.js:285 | the `\s+(.+)$` tail starts after at least one white-space character and runs to the end of the line with no line terminator |
| Question.MatchOption | server/src/server.js:285 | a match of the option pattern cuts the line into white space, the optional cursor, white space, digits, `.` or `)`, white space and the title |
| Question.TitleStartComplete | server/src/server.js:285 | white space followed by a non-empty one-line rest always yields a title start, and the trimmed title is the trimmed rest |
| Question.MatchOptionComplete | server/src/server.js:285-290 | every line of the option shape is read as an option with the number of its digits, its trimmed rest as title, and `selected` iff the cursor is there |
| Question.MatchOptionSound | server/src/server.js:285-290 | every line read as an option has the option shape, and the option is read off its pieces |
| Question.LooksLikeOptionComplete | server/src/server.js:297 | a trimmed line starting with the optional cursor, white space, digits and `.` or `)` looks like an option |
| Question.LooksLikeOptionSound | server/src/server.js:297 | conversely, every line that looks like an option starts with the optional cursor, white space, at least one digit and `.` or `)` |
| Question.Description | server/src/server.js:292-300 | an option has a description exactly when the next line exists, trims to non-empty and does not look like an option; the description is that trimmed line |
| Question.OptionsFrom | server/src/server.js:282-309 | at most one option per line, and none exactly when no line matches |
| Question.OptionsAreTheMatchingLines | server/src/server.js:282-309 | there are as many options as matching lines, and the option of the n-th matching line is at position n |
| Question.FirstQuestionLineIsFirst | server/src/server.js:271-272 | the generic question is the trimmed first line holding a `?`, and there is none exactly when no line holds one |
| Question.GreetingFromNone | server/src/server.js:275 | there is no "What would you like…?" match exactly when no occurrence of the phrase has a `?` later on its line |
| Question.GreetingFromIsLeftmostLongest | server/src/server.js:275 | the match found is the leftmost, and the longest from its start |
| Question.StripQuestionText | server/src/server.js:268 | the text the extractor reads has no `\r`, is no longer than the input, keeps every line break, and is the input without `\r` when the input has no escape character |
| Question.QuestionOfIsTheMatch | server/src/server.js:271-276 | the question is the leftmost-longest greeting match when there is one, else the first `?` line |
| Question.OptionsOf | server/src/server.js:318 | the options are never an empty list |
| Question.OptionsOfLines | server/src/server.js:279-318 | options are absent exactly when no line matches; otherwise they are the matching lines in order, with their descriptions |
| Question.ParseQuestion | server/src/server.js:266-321 | `rawText` is the stripped input without `\r`; the question and options are those read from it; options are never an empty list |
| Relay.BacklogAppends | server/src/server.js:174-177 | after a chunk the backlog holds at most 100 entries and the chunk is last; at the cap exactly the oldest entry is dropped |
| Relay.BacklogIsRecentOutput | server/src/server.js:174-177 | the backlog stays the last (at most) 100 chunks of all output |
| Relay.ReplayIsTail | server/src/server.js:84-88 | what a late phone is sent is a suffix of all output |
| Relay.Window | server/src/server.js:328-331 | the classifier window never exceeds 1000 characters |
| Relay.WindowIsRecentText | server/src/server.js:325-331 | the window stays the last (at most) 1000 characters of all stripped frames |
| Relay.DeliveriesReachOpenClients | server/src/server.js:416-423 | a broadcast reaches exactly the clients whose socket is open, with the message |
| Relay.DeliveriesOncePerClient | server/src/server.js:416-423 | each open client gets a broadcast once |
| Relay.Farewells | server/src/server.js:433-436 | one close frame per client |
| Relay.FarewellsCloseEveryClient | server/src/server.js:433-436 | the k-th close frame goes to the k-th client, with code 1000 |
| Relay.RemovalKeepsClients | server/src/server.js:132 | deleting a socket keeps the clients distinct and every other open socket among them |
| Relay.RemoteCCServer.constructor | server/src/server.js:9-28 | no clients, no process, empty buffers, no timer, state "working", invariants established |
| Relay.RemoteCCServer.Broadcast | server/src/server.js:416-423 | the loop sends the message to each open client in join order |
| Relay.RemoteCCServer.StartPty | server/src/server.js:158-226 | a successful spawn stores a new process and sends nothing; a failing one broadcasts the error and leaves the handle as it was |
| Relay.RemoteCCServer.Connect | server/src/server.js:57-94 | a wrong token gets close code 1008 and changes nothing else; the right one is added and sent `connected`, the state and the backlog if non-empty; the process is started only if none runs |
| Relay.RemoteCCServer.ClientMessage | server/src/server.js:96-128 | input reaches the terminal only while it runs; a state override sets and broadcasts the state, with the question when waiting; anything else changes nothing |
| Relay.RemoteCCServer.ClientClosing | server/src/server.js:419 | a socket that leaves the open state is skipped by later broadcasts |
| Relay.RemoteCCServer.ClientGone | server/src/server.js:130-140 | the client is deleted and the others keep their order |
| Relay.RemoteCCServer.DetectState | server/src/server.js:323-414 | the window is extended with the stripped frame; the state becomes what the tables say; a state message goes to every open client iff the state changed |
| Relay.RemoteCCServer.FlushMobileBuffer | server/src/server.js:255-264 | a non-empty frame with at least one client is classified and the buffer emptied, otherwise nothing changes; no output is lost |
| Relay.RemoteCCServer.HandleMobileOutput | server/src/server.js:228-253 | the frames and the pending buffer together gain exactly the chunk; a chunk with the block-end marker flushes and leaves no timer, any other leaves one timer armed |
| Relay.RemoteCCServer.PtyData | server/src/server.js:172-184 | the chunk enters the backlog (oldest dropped above 100) and the coalescer; all invariants are kept |
| Relay.RemoteCCServer.TimerFires | server/src/server.js:249-251 | the pending frame is flushed and no timer is left |
| Relay.RemoteCCServer.PtyExit | server/src/server.js:204-215 | the exit is broadcast to every open client and the handle cleared |
| Relay.RemoteCCServer.Cleanup | server/src/server.js:433-441 | every client is sent the shutdown close frame in join order, none stays open, and a running process is killed |
| Link.DelayDoubles | mobile/src/services/websocket.js:61 | each backoff wait is twice the one before |
| Link.BackoffSchedule | mobile/src/services/websocket.js:59-61 | the five waits are 1000, 2000, 4000, 8000 and 16000 ms |
| Link.CallsInRegistrationOrder | mobile/src/services/websocket.js:112 | the k-th call goes to the k-th registered callback, with the payload |
| Link.OffUndoesOn | mobile/src/services/websocket.js:98-108 | `off` after `on` of the same callback leaves the list as it was without that callback |
| Link.WebSocketService.constructor | mobile/src/services/websocket.js:2-17 | no socket, no attempts, and an empty listener list for exactly the six kinds |
| Link.WebSocketService.Emit | mobile/src/services/websocket.js:110-114 | the listeners of a known kind are called in order; an unknown kind such as `state` reaches no one |
| Link.WebSocketService.On | mobile/src/services/websocket.js:98-102 | the callback is appended to a known kind's list; an unknown kind is ignored |
| Link.WebSocketService.Off | mobile/src/services/websocket.js:104-108 | every occurrence of the callback leaves a known kind's list; an unknown kind is ignored |
| Link.WebSocketService.OpenSocket | mobile/src/services/websocket.js:26-33 | the current socket, if any, starts closing and a new connecting socket becomes current |
| Link.WebSocketService.Connect | mobile/src/services/websocket.js:19-24 | the address is stored and the flag and attempt counter cleared before the socket is opened |
| Link.WebSocketService.SocketOpened | mobile/src/services/websocket.js:34-37 | an opened socket clears the attempt counter |
| Link.WebSocketService.SocketMessage | mobile/src/services/websocket.js:39-46 | a JSON message goes to the listeners of its `type`; anything else is dropped |
| Link.WebSocketService.SocketError | mobile/src/services/websocket.js:48-51 | the `error` listeners are told of a connection error |
| Link.WebSocketService.SocketClosed | mobile/src/services/websocket.js:53-75 | `disconnect` listeners always hear first; unless intended, below 5 attempts the counter is incremented and a reconnect is scheduled after `1000 * 2^(attempts - 1)` ms; at 5 the give-up listeners are called and nothing is scheduled; the counter never exceeds 5 |
| Link.WebSocketService.ReconnectFires | mobile/src/services/websocket.js:64-66 | a scheduled reconnect opens a new socket whatever happened since |
| Link.WebSocketService.Send | mobile/src/services/websocket.js:78-84 | sent only on an open current socket, dropped otherwise |
| Link.WebSocketService.SendInput | mobile/src/services/websocket.js:86-88 | an `input` message, under the same rule |
| Link.WebSocketService.Disconnect | mobile/src/services/websocket.js:90-96 | the flag is set and the current socket closed and forgotten; a scheduled reconnect stays scheduled |
| Link.WebSocketService.DisconnectCancelling | mobile/src/services/websocket.js:90-96 | as `Disconnect`, and no reconnect stays scheduled |
| Link.DisconnectDuringBackoff | mobile/src/services/websocket.js:58-66 | a drop, then `disconnect()` during the backoff, then the timer: the phone is connecting again although the flag says the disconnect was intended |
| Link.CancellingDisconnectDuringBackoff | mobile/src/services/websocket.js:90-96 | with the cancelling disconnect the same sequence leaves no socket and nothing scheduled |
| QuestionScreen.MovesAreModular | mobile/src/components/ClaudeQuestionScreen.js:13-25 | up and down stay in range and are -1 and +1 modulo the menu length: up at 0 wraps to the last entry, down at the last wraps to 0 |
| QuestionScreen.UpDownCancel | mobile/src/components/ClaudeQuestionScreen.js:13-25 | up then down, or down then up, restores the index |
| QuestionScreen.DownTimes | mobile/src/components/ClaudeQuestionScreen.js:22 | any number of moves down stays in range |
| QuestionScreen.DownTimesWraps | mobile/src/components/ClaudeQuestionScreen.js:20-25 | k moves down from i land on (i + k) mod n |
| QuestionScreen.MenuCursor.constructor | mobile/src/components/ClaudeQuestionScreen.js:6 | the highlight starts at 0 |
| QuestionScreen.MenuCursor.OptionsChanged | mobile/src/components/ClaudeQuestionScreen.js:9-11 | a new menu resets the highlight to 0 |
| QuestionScreen.MenuCursor.HandleArrowUp | mobile/src/components/ClaudeQuestionScreen.js:13-18 | with a non-empty menu the highlight moves up cyclically and stays in range; otherwise it is unchanged; the key is forwarded in both cases |
| QuestionScreen.MenuCursor.HandleArrowDown | mobile/src/components/ClaudeQuestionScreen.js:20-25 | the same, moving down |
| QuestionScreen.GetContextIsTextBeforeQuestion | mobile/src/components/ClaudeQuestionScreen.js:28-35 | the context is the trimmed text before the question's first occurrence when longer than 10 characters, and every such text is the context; a missing question, one absent from the text or one at position 0 gives none |

## Left out

- Process and terminal I/O: spawning the process, `process.stdout.write`, stdin raw mode, forwarding local keys and the Ctrl+C exit (server/src/server.js:163-201). The process is a handle whose data and exit events are methods.
- Sockets and framing: the ws server, `WebSocket` construction, URL and query parsing, and `JSON.parse`/`JSON.stringify`. Messages are records; a phone message that is not JSON or has another type is `Ignored`.
- Timers: `setTimeout`/`clearTimeout` become a pending-flush flag, a count of scheduled reconnects and a list of their delays. Wall-clock time is not modelled.
- Server start-up: the token from `nanoid`, the IP lookup, the QR code, logging, the port-in-use error and `wss.close()` in `cleanup`. The token is a constructor parameter.
- Errors thrown by `pty.write` or `ws.send`, and `ws.close()` errors, are not modelled.
- Relay.RemoteCCServer.StartPty: only a failing `spawn` is modelled. A failure after the process is assigned (for example `setRawMode` on an input that is not a terminal) is not.
- Relay.RemoteCCServer.PtyExit: requires a running process, because the handler exists only on a started one. Events of a process that was replaced are not modelled.
- Relay.RemoteCCServer.Connect: requires a socket id not already a client, since every connection is a new socket object.
- Text.ToLower: only ASCII letters are lowered. Unicode case mapping in `toLowerCase` and the `i` flag is not modelled.
- Text.ParseInt: `parseInt` results are exact integers, not IEEE doubles. A digit string above 2^53 (an option number such as `12345678901234567891`) reads differently in JavaScript; no colour code is affected.
- Strings are sequences of code points, not UTF-16 code units: a character outside the Basic Multilingual Plane counts once, not twice, in the 1000-character window and in indices.
- Listener kinds are compared as strings. A kind such as `constructor`, which `this.listeners[event]` finds on `Object.prototype`, is treated as unknown.
- `Math.pow` on floating point is modelled as exact integer powers of two, which agree for the five delays.
- The React components' rendering, the options effect's dependency-identity check (modelled as an explicit `OptionsChanged` event), and the `AnsiText` component itself.
- Listener callbacks are recorded as calls and have no effects of their own. A callback that calls back into the service is not modelled.

## Findings

| source | as written | input that shows it | evidently intended | confidence | as-written member | corrected member |
|---|---|---|---|---|---|---|
| mobile/src/services/websocket.js:64-66, 90-96 | `onclose` schedules `_connect()` with `setTimeout` and never stores the handle, so `disconnect()` cannot cancel it | connect, the socket drops (attempt 1 scheduled for 1000 ms), `disconnect()` is called within that second, the timer fires: a new socket is opened although the user disconnected | an intentional disconnect during the backoff also cancels the pending reconnect, so no socket is opened until `connect` is called again | not executed | Link.DisconnectDuringBackoff | Link.CancellingDisconnectDuringBackoff |
