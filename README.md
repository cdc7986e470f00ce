# Plate-recognition operator console: the Dashboard state machine

This project models the operator console of a licence-plate-recognition system
(`frontend/src/routes/_layout/index.tsx`). An operator starts detection. The
console opens a WebSocket to the detector. On the socket's `open` event it plays
the video and then samples a frame into the socket on a timer. Plate detections
come back as JSON messages and are kept in a list of at most 15 entries, oldest
first. The operator clicks one of them, or types a plate, into the plate field,
and saving clears that field. The socket's `close` event tears the session
down, and a single button starts or stops detection depending on `detecting`.

Modules:

- `DetectionBuffer` (`detection_buffer.dfy`): the list update
  `[...curr, d].slice(-15)` as pure functions. `JsSlice` is JavaScript's
  one-argument `slice`. `Window` is an independent reference definition: drop
  the oldest entry while there are more than K. The lemmas prove that the two
  agree, and that any run of pushes from a list within capacity leaves exactly
  the last 15 arrivals, in arrival order.
- `Messages` (`messages.dfy`): the `message` listener. A payload is either text
  that `JSON.parse` rejects or a parsed object with optional `detection` and
  `text` strings. Only a truthy `detection` changes the list. The detector
  sends its plate under `text` (`backend/app/api/detection/main.py:177-183`),
  and the console reads only `detection`. This is modelled as written, so a
  detector message never reaches the list.
- `Console` (`dashboard.dfy`): class `Dashboard` holds the component's state
  (`detections`, `plateNumber`, `detecting`, `ws`), one entry per socket
  `startDetection` has created, and a flag recording that a stop has reset the
  video. Each entry records the socket's `readyState` and the state its
  listeners close over: whether `open` has fired, a pending `video.play()` and
  whether its resolution is already queued, a live interval and the number of
  frames sent. Each event handler is a method. The invariant
  `Valid()` keeps the list within 15 and keeps `ws` on the newest socket. It
  also says that no socket has a pending play, a live interval or a sent frame
  before its `open` event has fired.
- `Scenarios` (`scenarios.dfy`): event runs on a fresh console. Each one
  returns what the operator would observe, and its result is proved from the
  handlers' contracts alone.

Behaviour of the code, proved in `Scenarios`:

- Through the button, `handleStartup` only ever runs with `detecting` false, so
  its `ws && detecting` close branch is never taken from the UI
  (`Console.Dashboard.ClickButton`).
- Two clicks before the first socket opens leave two sockets. STOP closes only
  the newer one. Right after STOP, before any `close` event arrives, the older
  socket is still open and its messages still reach the list
  (`Scenarios.DoubleStart`).
- If the socket closes after `open` but before `video.play()` resolves, the
  close listener's `clearInterval` has nothing to clear. What happens next
  depends on the video. If it was not yet ready to play, the stop sequence's
  `video.srcObject = null` aborts the waiting play, so no interval is ever set
  (`Scenarios.CloseBeforeReady`). If it was already playing, as this looping
  autoplay video normally is, the play's resolution was queued when `play()`
  was called. The reset lets it resolve, its `.then` sets an interval after the
  close, and nothing clears that interval: frames keep going to the closed
  socket (`Scenarios.CloseWithPlayQueued`).

Facts about the code that the model keeps:

- The capacity is the constant 15.
- The list has no clear operation.
- A start is not refused while a socket is still connecting.
- The field read is `detection`, not `text`.

## Model

| member | source | states |
|---|---|---|
| DetectionBuffer.JsSlice | frontend/src/routes/_layout/index.tsx:115 | the result of `slice(start)` is a suffix of the input; its length is min(-start, n) for a negative start and n - min(start, n) otherwise |
| DetectionBuffer.SliceIsWindow | frontend/src/routes/_layout/index.tsx:115 | for k > 0, `slice(-k)` equals the drop-the-oldest window of size k |
| DetectionBuffer.WindowIsLast | frontend/src/routes/_layout/index.tsx:113-115 | the window has length min(k, n) and is the last min(k, n) entries in their original order |
| DetectionBuffer.WindowAbsorbs | frontend/src/routes/_layout/index.tsx:112-116 | windowing early and appending more later gives the same window as windowing the whole history once |
| DetectionBuffer.Push | frontend/src/routes/_layout/index.tsx:112-116 | after one accepted detection the list has length min(15, old+1), is the matching suffix of old ++ [d], and ends with d |
| DetectionBuffer.PushBelowCapacity | frontend/src/routes/_layout/index.tsx:113-115 | below 15 entries nothing is evicted: the result is old ++ [d] |
| DetectionBuffer.PushAtCapacity | frontend/src/routes/_layout/index.tsx:113-115 | at 15 entries exactly the oldest is evicted: the result is old[1..] ++ [d] |
| DetectionBuffer.PushIsWindow | frontend/src/routes/_layout/index.tsx:112-116 | one accepted detection is one step of the drop-the-oldest window over the arrival history |
| DetectionBuffer.PushAll | frontend/src/routes/_layout/index.tsx:112-116 | any run of pushes from a list within capacity stays within 15 entries |
| DetectionBuffer.PushAllIsWindow | frontend/src/routes/_layout/index.tsx:112-116 | after any run of pushes the list is the last 15 of old ++ arrivals, in arrival order |
| DetectionBuffer.OverflowByOne | frontend/src/routes/_layout/index.tsx:115 | pushing one more than fits evicts exactly the oldest entry of the starting list |
| DetectionBuffer.SeedOverflow | frontend/src/routes/_layout/index.tsx:13-26 | eight arrivals on top of the eight seeded plates evict exactly the first seeded plate |
| Messages.Truthy | frontend/src/routes/_layout/index.tsx:111 | JavaScript truthiness of the optional string field: present and non-empty |
| Messages.Accepts | frontend/src/routes/_layout/index.tsx:111 | the guard `if (data.detection)`: the payload parsed and its `detection` field is truthy |
| Messages.ApplyMessage | frontend/src/routes/_layout/index.tsx:108-118 | a parsed message with a truthy `detection` pushes it (bounded, at the tail); a falsy or absent one, or unparsable text, leaves the list unchanged |
| Messages.TextOnlyIgnored | frontend/src/routes/_layout/index.tsx:111 | a message carrying only the detector's `text` field leaves the list unchanged |
| Messages.Accepted | frontend/src/routes/_layout/index.tsx:111 | the accepted detections are no more than the messages and none is the empty string |
| Messages.Replay | frontend/src/routes/_layout/index.tsx:108-118 | from a list within capacity, any run of messages keeps the list within 15 entries |
| Messages.ReplayIsPushAll | frontend/src/routes/_layout/index.tsx:108-118 | applying messages one by one equals pushing the accepted detections in arrival order |
| Messages.ReplayFromSeed | frontend/src/routes/_layout/index.tsx:35 | from the seeded list, every reachable list is the last 15 of seed ++ accepted detections, so the bound holds in every state |
| Console.CloseCall | frontend/src/routes/_layout/index.tsx:141 | `close()` moves a connecting or open socket to closing and leaves a closing or closed one, and all listener state, as it was |
| Console.CloseWs | frontend/src/routes/_layout/index.tsx:148 | `ws?.close()` changes at most the socket `ws` names |
| Console.AbortPlays | frontend/src/routes/_layout/index.tsx:152 | resetting the shared video's `srcObject` rejects every pending `video.play()` whose resolution is not already queued, keeps the queued ones, and changes nothing else about any socket |
| Console.Latest | frontend/src/routes/_layout/index.tsx:126 | after `setWs(socket)`, `ws` names the newest socket, and it is unset only before the first start |
| Console.Dashboard.constructor | frontend/src/routes/_layout/index.tsx:32-38 | the console starts with the seeded list, an empty plate, `detecting` false and no socket |
| Console.Dashboard.CloseCurrent | frontend/src/routes/_layout/index.tsx:148 | closes the current socket, if any, and nothing else |
| Console.Dashboard.StartDetection | frontend/src/routes/_layout/index.tsx:49-52 | adds one connecting socket with nothing started and makes it `ws` |
| Console.Dashboard.HandleStartup | frontend/src/routes/_layout/index.tsx:135-145 | closes the previous socket exactly when `ws` is set and `detecting` is true, then starts a new socket that becomes `ws` |
| Console.Dashboard.HandleStopDetection | frontend/src/routes/_layout/index.tsx:147-153 | closes `ws` so it is neither connecting nor open, clears `detecting`, resets the video, and leaves a socket with a pending play exactly when that play's resolution was already queued |
| Console.Dashboard.ClickButton | frontend/src/routes/_layout/index.tsx:203 | with `detecting` false it starts a socket without closing any other; with `detecting` true it runs the stop sequence, which closes `ws` and aborts every pending play not already queued |
| Console.Dashboard.OnOpen | frontend/src/routes/_layout/index.tsx:54-55 | `open` marks its socket open, calls `video.play()` (its resolution queued at once when the video is already playing) with no interval yet, and sets `detecting` |
| Console.Dashboard.OnPlayResolved | frontend/src/routes/_layout/index.tsx:86-92 | the interval is set only when a queued play resolution runs, on a socket whose `open` has fired, whatever its state by then |
| Console.Dashboard.OnPlayReady | frontend/src/routes/_layout/index.tsx:86 | the video becoming ready queues the resolution of a waiting play and changes nothing else |
| Console.Dashboard.OnPlayRejected | frontend/src/routes/_layout/index.tsx:86 | a waiting play that rejects clears its pending flag and leaves that socket without an interval, so its `.then` never sets one |
| Console.Dashboard.OnTick | frontend/src/routes/_layout/index.tsx:92-103 | a tick sends one frame, and only on a socket whose `open` has fired |
| Console.Dashboard.OnMessage | frontend/src/routes/_layout/index.tsx:108-118 | an open socket's message updates the list by `ApplyMessage` and changes nothing else |
| Console.Dashboard.OnClose | frontend/src/routes/_layout/index.tsx:121-124 | `close` marks its socket closed with its interval cleared, then runs the stop sequence: `ws` closed, `detecting` false, video reset; the socket keeps a pending play exactly when its resolution was already queued |
| Console.Dashboard.SelectDetection | frontend/src/routes/_layout/index.tsx:216-217 | clicking entry i sets the plate to exactly that entry and leaves the list alone |
| Console.Dashboard.TypePlate | frontend/src/routes/_layout/index.tsx:225-227 | typing sets the plate to exactly the typed string, unchecked, and leaves the list alone |
| Console.Dashboard.HandleSave | frontend/src/routes/_layout/index.tsx:40-45 | saving sets the plate to "" whatever it held; the list is not touched |
| Console.Dashboard.Unmount | frontend/src/routes/_layout/index.tsx:155-161 | unmount cleanup closes the current socket, if any, and nothing else |
| Scenarios.RemoteCloseOffersStart | frontend/src/routes/_layout/index.tsx:121-124 | after a remote close, `detecting` is false and the interval is cleared, and the button then starts a fresh socket |
| Scenarios.SelectTypeSave | frontend/src/routes/_layout/index.tsx:40-45 | selecting the eighth seeded plate, then typing a lower-case value, then saving, yields that plate, that exact value, then "", with the list untouched |
| Scenarios.IgnoredMessages | frontend/src/routes/_layout/index.tsx:108-118 | `{}`, a text-only message, an empty detection and unparsable text leave the list unchanged; a detection is appended |
| Scenarios.CloseBeforeReady | frontend/src/routes/_layout/index.tsx:86-124 | a close after `open` while the video is not yet ready leaves the socket closed, `detecting` false, no interval and no pending play |
| Scenarios.CloseWithPlayQueued | frontend/src/routes/_layout/index.tsx:86-124 | a close after `open` on a playing video, before the queued play resolution runs, ends with an interval on the closed socket that sends frames with `detecting` false |
| Scenarios.DoubleStart | frontend/src/routes/_layout/index.tsx:135-149 | two starts before `open` leave both sockets; right after STOP the older one is still open and its messages still reach the list |
| Scenarios.StopTwice | frontend/src/routes/_layout/index.tsx:147-153 | stopping a console that never started changes no socket; stopping twice equals stopping once |

## Left out

- Scenarios.DoubleStart: proves only that the older socket still feeds the list right after STOP. In the code, the newer socket's `close` listener runs a `handleStopDetection` that captured the `ws` of an earlier render, the older socket, so that `close` event closes the older socket. The model's current-state reading closes the newer socket again instead and leaves the older one open.
- Stale React closures. `handleStartup`, `handleStopDetection` and the unmount cleanup read `ws` and `detecting` as captured at some earlier render. The `useCallback` dependencies omit `detecting`, and the effect cleanup sees the initial `ws`, which is undefined. The model reads the current state instead. The stale values would need a model of React's render schedule.
- The WebSocket transport and `JSON.parse` are left out. A payload is either unparsable text or a parsed object with optional `detection` and `text` strings.
- Non-string `detection` values (numbers, booleans, objects) are not modelled. An absent or null field is `None`, and truthiness is "present and non-empty".
- The browser's event ordering is a precondition of the event methods: `open` only on a connecting socket, messages only while open, one `close` per socket. The `error` event has no listener and is not modelled.
- Frame rasterisation and encoding (`canvas`, `drawImage`, `toBlob`) and the canvas sizing are left out. A tick counts one frame handed to `socket.send`, including when the browser discards a send on a closed socket.
- Timing is left out: the 1500 ms `setInterval` cadence is modelled only as "the interval is live".
- `video.srcObject = null` is modelled as the flag `videoReset` and the abort of every pending `video.play()` whose resolution is not already queued. The rest of the video element's reload is not modelled: the `src` attribute and `autoPlay` restarting playback.
- Whether the video is ready when `open` fires is an input of `OnOpen`, and the video becoming ready later is the event `OnPlayReady`. The media pipeline itself is not modelled. Readiness is chosen per socket, and a rejection arrives per socket, although every socket plays the one `<video>`. The model therefore also allows runs the shared video cannot produce, such as one socket's play resolving while another's is rejected. No proved property depends on this.
- Console.Dashboard.OnPlayResolved: a play's `.then` runs as a microtask, immediately after the task that resolved it. The model lets other events come between the resolution and `OnPlayResolved`.
- Device enumeration (`loadMediaDevices`, `enumerateDevices`) is left out, along with the unused `deviceId`, `mediaDevices`, `frame` and `currentUser` state.
- The commented-out `getUserMedia` capture path is not modelled.
- Console logging is left out: the upper-cased plate in `handleSave` and the logged `data.detection`. This is why upper-casing never reaches the state.
- JSX layout is left out: highlighting of the selected entry, labels and colours. The Save button is rendered `disabled={true}`, so the UI cannot reach `handleSave`; it is modelled as a handler anyway.
- `backend/app/api/detection/main.py` (detector inference, image processing, asynchronous socket I/O) is left out. Only the key its messages use matters here.
- `frontend/src/routes/_layout/items.tsx` is table rendering only and is left out.
