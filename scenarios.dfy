/** Runs of events against a fresh console, each returning what an operator
    would observe afterwards. Every result follows from the event handlers'
    contracts alone. */
module Scenarios {
  import opened DetectionBuffer
  import opened Messages
  import opened Console

  /** The detector closes the socket mid-session: the interval is cleared,
      `detecting` drops, and the button starts a fresh socket again. */
  method RemoteCloseOffersStart() returns (detecting: bool, ticking: bool, restarted: bool)
    ensures !detecting && !ticking && restarted
  {
    var d := new Dashboard();
    d.ClickButton();
    d.OnOpen(0, true);
    d.OnPlayResolved(0);
    d.OnTick(0);
    d.OnClose(0);
    detecting, ticking := d.detecting, d.sockets[0].timer;
    d.ClickButton();
    restarted := |d.sockets| == 2 && d.sockets[1] == NewSocket && d.ws == Some(1);
  }

  /** Clicking a seeded detection selects it, typing replaces it unchecked,
      saving clears it; the list is untouched throughout. */
  method SelectTypeSave() returns (selected: string, typed: string, saved: string, list: seq<string>)
    ensures selected == "LE83I9A" && typed == "ddd 1" && saved == "" && list == Temp
  {
    var d := new Dashboard();
    d.SelectDetection(7);
    selected := d.plateNumber;
    d.TypePlate("ddd 1");
    typed := d.plateNumber;
    d.HandleSave();
    saved, list := d.plateNumber, d.detections;
  }

  /** `{}`, a detector message carrying only `text`, an empty `detection` and
      unparsable text all leave the list as it was; a real detection is
      appended. */
  method IgnoredMessages() returns (untouched: bool, grown: bool)
    ensures untouched && grown
  {
    var d := new Dashboard();
    d.ClickButton();
    d.OnOpen(0, false);
    d.OnMessage(0, Parsed(Message(None, None)));
    d.OnMessage(0, Parsed(Message(None, Some("LAG123XY"))));
    d.OnMessage(0, Parsed(Message(Some(""), None)));
    d.OnMessage(0, Malformed);
    untouched := d.detections == Temp;
    d.OnMessage(0, Parsed(Message(Some("LAG123XY"), None)));
    grown := d.detections == Temp + ["LAG123XY"];
  }

  /** A socket that closes after `open` while the video is not yet ready
      never gets a frame interval: the close listener's `clearInterval` has
      nothing to clear, but the video reset in the stop sequence aborts the
      waiting play, so its `.then` never runs. */
  method CloseBeforeReady() returns (detecting: bool, closed: bool, ticking: bool, playPending: bool)
    ensures !detecting && closed && !ticking && !playPending
  {
    var d := new Dashboard();
    d.ClickButton();
    d.OnOpen(0, false);
    d.OnClose(0);
    detecting, ticking := d.detecting, d.sockets[0].timer;
    closed, playPending := d.sockets[0].state == Closed, d.sockets[0].playPending;
  }

  /** A socket that closes after `open` on a video already playing, before
      the queued play resolution has run: the close listener's
      `clearInterval` has nothing to clear, the video reset lets the queued
      play resolve, and its `.then` sets an interval afterwards. The socket is
      closed, so no later `close` event will clear that interval, and frames
      keep going to the closed socket with `detecting` false. */
  method CloseWithPlayQueued() returns (detecting: bool, closed: bool, ticking: bool, frames: nat)
    ensures !detecting && closed && ticking && frames == 1
  {
    var d := new Dashboard();
    d.ClickButton();
    d.OnOpen(0, true);
    d.OnClose(0);
    d.OnPlayResolved(0);
    d.OnTick(0);
    detecting, ticking := d.detecting, d.sockets[0].timer;
    closed, frames := d.sockets[0].state == Closed, d.sockets[0].framesSent;
  }

  /** Two clicks before the first socket opens make two sockets, since
      `detecting` is still false at the second click. STOP closes only the
      newer one; right after it, before any `close` event has arrived, the
      older socket is still open and its messages still reach the list. */
  method DoubleStart() returns (olderOpen: bool, detecting: bool, appended: bool)
    ensures olderOpen && !detecting && appended
  {
    var d := new Dashboard();
    d.ClickButton();
    d.ClickButton();
    d.OnOpen(0, false);
    d.OnOpen(1, false);
    d.ClickButton();
    olderOpen, detecting := d.sockets[0].state == Open, d.detecting;
    d.OnMessage(0, Parsed(Message(Some("LAG123XY"), None)));
    appended := d.detections == Temp + ["LAG123XY"];
  }

  /** Stopping twice is the same as stopping once, and stopping a console
      that never started changes no socket. */
  method StopTwice() returns (idleUntouched: bool, same: bool)
    ensures idleUntouched && same
  {
    var idle := new Dashboard();
    idle.HandleStopDetection();
    idleUntouched := idle.sockets == [] && !idle.detecting;
    var d := new Dashboard();
    d.ClickButton();
    d.OnOpen(0, false);
    d.HandleStopDetection();
    var once, detectingOnce := d.sockets, d.detecting;
    d.HandleStopDetection();
    same := d.sockets == once && d.detecting == detectingOnce;
  }
}
