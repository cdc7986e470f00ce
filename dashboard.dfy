/** The operator console's `Dashboard` component as an event-driven object:
    one field per piece of React state, one method per event handler. */
module Console {
  import opened DetectionBuffer
  import opened Messages

  /** A WebSocket's `readyState`. */
  datatype ReadyState = Connecting | Open | Closing | Closed

  /** One socket made by `startDetection`, together with what its listeners
      close over: whether its `open` event has fired, whether the
      `video.play()` started by that event is still pending, whether that
      play's resolution is already queued (the video was playing with enough
      data, so the browser has queued the task that resolves it), whether the
      frame interval its `.then` sets is live, and how many frames the
      interval has handed to `socket.send`. */
  datatype Socket = Socket(state: ReadyState, openFired: bool, playPending: bool,
                           playQueued: bool, timer: bool, framesSent: nat)

  /** A socket as `new WebSocket(...)` returns it. */
  const NewSocket := Socket(Connecting, false, false, false, false, 0)

  /** The order of events on one socket: nothing samples or sends before
      `open`, and the one `.then` sets the interval only once the play has
      settled, so a single `timer` flag stands for the one `intervalId` the
      close listener clears. */
  predicate Consistent(s: Socket) {
    (s.openFired ==> s.state != Connecting) &&
    (s.state == Open ==> s.openFired) &&
    (s.playPending ==> s.openFired) &&
    (s.playQueued ==> s.playPending) &&
    (s.playPending ==> !s.timer) &&
    (s.timer ==> s.openFired) &&
    (s.framesSent > 0 ==> s.openFired)
  }

  /** `WebSocket.close()`: a connecting or open socket starts closing; on a
      closing or closed socket it does nothing. */
  function CloseCall(s: Socket): (r: Socket)
    ensures r.state == (if s.state == Connecting || s.state == Open then Closing else s.state)
    ensures r.(state := s.state) == s
  {
    if s.state == Connecting || s.state == Open then s.(state := Closing) else s
  }

  /** `ws?.close()` on the list of sockets. */
  function CloseWs(sockets: seq<Socket>, ws: Option<nat>): (r: seq<Socket>)
    ensures |r| == |sockets|
    ensures forall i :: 0 <= i < |r| ==>
      r[i] == if ws == Some(i) then CloseCall(sockets[i]) else sockets[i]
  {
    if ws.Some? && ws.value < |sockets| then sockets[ws.value := CloseCall(sockets[ws.value])]
    else sockets
  }

  /** `video.srcObject = null` runs the video element's load algorithm. It
      first settles the plays whose resolution is already queued, which still
      resolve, and then rejects every other pending `video.play()` with an
      AbortError. All sockets share the one video element, so this applies to
      every socket: only a queued play survives to run its `.then`. */
  function AbortPlays(sockets: seq<Socket>): (r: seq<Socket>)
    ensures |r| == |sockets|
    ensures forall i :: 0 <= i < |r| ==>
      r[i].playPending == sockets[i].playQueued && r[i].(playPending := sockets[i].playPending) == sockets[i]
  {
    seq(|sockets|, i requires 0 <= i < |sockets| => sockets[i].(playPending := sockets[i].playQueued))
  }

  /** `ws` always holds the socket made last, if any (`setWs(socket)`). */
  function Latest(sockets: seq<Socket>): (r: Option<nat>)
    ensures r.Some? <==> sockets != []
    ensures r.Some? ==> r.value < |sockets| && r.value + 1 == |sockets|
  {
    if sockets == [] then None else Some(|sockets| - 1)
  }

  class Dashboard {
    var detections: seq<string>
    var plateNumber: string
    var detecting: bool
    var ws: Option<nat>
    /** Every socket `startDetection` has made, oldest first; `ws` indexes it. */
    var sockets: seq<Socket>
    /** A stop has reset the video's `srcObject` to null. Nothing ever assigns
        a stream to it, so the reset changes no source; it only records that
        a stop ran and triggered the video's reload. */
    var videoReset: bool

    ghost predicate Valid()
      reads this
    {
      |detections| <= Capacity &&
      ws == Latest(sockets) &&
      forall i :: 0 <= i < |sockets| ==> Consistent(sockets[i])
    }

    /** The first render: the seeded list, an empty plate, no socket. */
    constructor ()
      ensures Valid()
      ensures detections == Temp && plateNumber == "" && !detecting
      ensures ws == None && sockets == [] && !videoReset
    {
      detections := Temp;
      plateNumber := "";
      detecting := false;
      ws := None;
      sockets := [];
      videoReset := false;
    }

    /** `ws?.close()`. */
    method CloseCurrent()
      requires Valid()
      modifies this`sockets
      ensures Valid()
      ensures sockets == CloseWs(old(sockets), ws)
    {
      if ws.Some? {
        sockets := sockets[ws.value := CloseCall(sockets[ws.value])];
      }
    }

    /** `startDetection`: make a socket, attach its listeners, `setWs`. */
    method StartDetection()
      requires Valid()
      modifies this`sockets, this`ws
      ensures Valid()
      ensures sockets == old(sockets) + [NewSocket]
      ensures ws == Some(|old(sockets)|)
    {
      sockets := sockets + [NewSocket];
      ws := Some(|sockets| - 1);
    }

    /** `handleStartup`: close the previous socket only when there is one and
      `detecting` is set, then start a new one. */
    method HandleStartup()
      requires Valid()
      modifies this`sockets, this`ws
      ensures Valid()
      ensures sockets == (if old(ws.Some? && detecting) then CloseWs(old(sockets), old(ws))
                          else old(sockets)) + [NewSocket]
      ensures ws == Some(|old(sockets)|)
    {
      if ws.Some? && detecting {
        CloseCurrent();
      }
      StartDetection();
    }

    /** `handleStopDetection`: close `ws`, clear `detecting`, reset the
      video, which aborts every pending `video.play()` whose resolution is
      not already queued. */
    method HandleStopDetection()
      requires Valid()
      modifies this`sockets, this`detecting, this`videoReset
      ensures Valid()
      ensures sockets == AbortPlays(CloseWs(old(sockets), ws))
      ensures ws != None ==> sockets[ws.value].state != Open && sockets[ws.value].state != Connecting
      ensures forall i :: 0 <= i < |sockets| ==> (sockets[i].playPending <==> sockets[i].playQueued)
      ensures !detecting && videoReset
    {
      CloseCurrent();
      detecting := false;
      sockets := AbortPlays(sockets);
      videoReset := true;
    }

    /** The single button: start when not detecting, stop otherwise. Through
      the button, `handleStartup` always runs with `detecting` false, so it
      never closes the previous socket. */
    method ClickButton()
      requires Valid()
      modifies this`sockets, this`ws, this`detecting, this`videoReset
      ensures Valid()
      ensures !old(detecting) ==>
        sockets == old(sockets) + [NewSocket] && ws == Some(|old(sockets)|) &&
        !detecting && videoReset == old(videoReset)
      ensures old(detecting) ==>
        sockets == AbortPlays(CloseWs(old(sockets), ws)) && ws == old(ws) && !detecting && videoReset
    {
      if !detecting {
        HandleStartup();
      } else {
        HandleStopDetection();
      }
    }

    /** The `open` listener of socket `id`: set `detecting` and call
      `video.play()`. The browser fires it once, on a connecting socket.
      `videoReady` says whether the video is already playing with enough
      data, in which case the browser queues the play's resolution at once. */
    method OnOpen(id: nat, videoReady: bool)
      requires Valid()
      requires id < |sockets| && sockets[id].state == Connecting
      modifies this`sockets, this`detecting
      ensures Valid()
      ensures sockets == old(sockets)[id := Socket(Open, true, true, videoReady, false, 0)]
      ensures detecting
    {
      sockets := sockets[id := Socket(Open, true, true, videoReady, false, 0)];
      detecting := true;
    }

    /** The video becomes ready to play: the browser queues the resolution of
      socket `id`'s waiting play. */
    method OnPlayReady(id: nat)
      requires Valid()
      requires id < |sockets| && sockets[id].playPending && !sockets[id].playQueued
      modifies this`sockets
      ensures Valid()
      ensures sockets == old(sockets)[id := old(sockets[id]).(playQueued := true)]
    {
      sockets := sockets[id := sockets[id].(playQueued := true)];
    }

    /** The queued resolution of socket `id`'s `video.play()` runs its
      `.then`: the frame interval is set, whatever the socket's state by then. */
    method OnPlayResolved(id: nat)
      requires Valid()
      requires id < |sockets| && sockets[id].playQueued
      modifies this`sockets
      ensures Valid()
      ensures sockets == old(sockets)[id := old(sockets[id]).(playPending := false, playQueued := false, timer := true)]
      ensures sockets[id].openFired
    {
      sockets := sockets[id := sockets[id].(playPending := false, playQueued := false, timer := true)];
    }

    /** A waiting `video.play()` of socket `id` rejects (the browser refuses
      playback): no interval is ever set for it. */
    method OnPlayRejected(id: nat)
      requires Valid()
      requires id < |sockets| && sockets[id].playPending && !sockets[id].playQueued
      modifies this`sockets
      ensures Valid()
      ensures sockets == old(sockets)[id := old(sockets[id]).(playPending := false)]
      ensures !sockets[id].timer
    {
      sockets := sockets[id := sockets[id].(playPending := false)];
    }

    /** A tick of socket `id`'s interval: one frame goes to `socket.send`.
      Only a socket whose `open` event has fired can get here. */
    method OnTick(id: nat)
      requires Valid()
      requires id < |sockets| && sockets[id].timer
      modifies this`sockets
      ensures Valid()
      ensures sockets == old(sockets)[id := old(sockets[id]).(framesSent := old(sockets[id].framesSent) + 1)]
      ensures sockets[id].openFired
    {
      sockets := sockets[id := sockets[id].(framesSent := sockets[id].framesSent + 1)];
    }

    /** The `message` listener of socket `id`; the browser delivers messages
      only while the socket is open. */
    method OnMessage(id: nat, p: Payload)
      requires Valid()
      requires id < |sockets| && sockets[id].state == Open
      modifies this`detections
      ensures Valid()
      ensures detections == ApplyMessage(old(detections), p)
    {
      detections := ApplyMessage(detections, p);
    }

    /** The `close` listener of socket `id`: clear its interval, then run
      `handleStopDetection`. The browser fires it once per socket. Afterwards
      the socket has no interval; the only play left that can still set one
      is a play whose resolution was already queued. */
    method OnClose(id: nat)
      requires Valid()
      requires id < |sockets| && sockets[id].state != Closed
      modifies this`sockets, this`detecting, this`videoReset
      ensures Valid()
      ensures sockets == AbortPlays(CloseWs(old(sockets)[id := old(sockets[id]).(state := Closed, timer := false)], ws))
      ensures sockets[id].state == Closed && !sockets[id].timer
      ensures sockets[id].playPending <==> old(sockets[id].playQueued)
      ensures !detecting && videoReset
    {
      sockets := sockets[id := sockets[id].(state := Closed, timer := false)];
      HandleStopDetection();
    }

    /** Clicking the `i`-th rendered detection. */
    method SelectDetection(i: nat)
      requires Valid()
      requires i < |detections|
      modifies this`plateNumber
      ensures Valid()
      ensures plateNumber == detections[i]
    {
      plateNumber := detections[i];
    }

    /** Typing into the plate input: the value is taken as it is. */
    method TypePlate(value: string)
      requires Valid()
      modifies this`plateNumber
      ensures Valid()
      ensures plateNumber == value
    {
      plateNumber := value;
    }

    /** `handleSave`: the plate is cleared whatever it held. */
    method HandleSave()
      requires Valid()
      modifies this`plateNumber
      ensures Valid()
      ensures plateNumber == ""
    {
      plateNumber := "";
    }

    /** The effect cleanup on unmount: `ws?.close()`. */
    method Unmount()
      requires Valid()
      modifies this`sockets
      ensures Valid()
      ensures sockets == CloseWs(old(sockets), ws)
    {
      CloseCurrent();
    }
  }
}
