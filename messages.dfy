/** Inbound socket messages and the console's `message` listener: the payload
    is parsed as JSON, and the list of detections changes only when the
    parsed object's `detection` field is truthy. */
module Messages {
  import opened DetectionBuffer

  datatype Option<T> = None | Some(value: T)

  /** The two string fields of a parsed message that matter here. The console
      reads `detection`; the detector sends its plate under `text`, which the
      console never reads. `None` stands for an absent or null field. */
  datatype Message = Message(detection: Option<string>, text: Option<string>)

  /** A socket message as the listener sees it: either text that `JSON.parse`
      rejects (it throws, and the listener stops there) or a parsed object. */
  datatype Payload = Malformed | Parsed(msg: Message)

  /** JavaScript truthiness of an optional string field: present and non-empty. */
  predicate Truthy(v: Option<string>) {
    v.Some? && v.value != ""
  }

  /** The listener's guard `if (data.detection)`. */
  predicate Accepts(p: Payload) {
    p.Parsed? && Truthy(p.msg.detection)
  }

  /** What one message does to the list of detections. */
  function ApplyMessage(buf: seq<string>, p: Payload): (r: seq<string>)
    ensures Accepts(p) ==> |r| == Min(Capacity, |buf| + 1) && r[|r| - 1] == p.msg.detection.value
    ensures Accepts(p) ==> r == (buf + [p.msg.detection.value])[|buf| + 1 - |r|..]
    ensures !Accepts(p) ==> r == buf
  {
    if Accepts(p) then Push(buf, p.msg.detection.value) else buf
  }

  /** A message carrying only the detector's `text` field leaves the list as
      it was, whatever the text. */
  lemma TextOnlyIgnored(buf: seq<string>, t: Option<string>)
    ensures ApplyMessage(buf, Parsed(Message(None, t))) == buf
  {
  }

  /** The detections the listener accepts from a run of messages, in order. */
  function Accepted(ps: seq<Payload>): (ds: seq<string>)
    ensures |ds| <= |ps|
    ensures forall i :: 0 <= i < |ds| ==> ds[i] != ""
    decreases |ps|
  {
    if ps == [] then []
    else (if Accepts(ps[0]) then [ps[0].msg.detection.value] else []) + Accepted(ps[1..])
  }

  /** The list after a run of messages, applied one at a time in arrival order. */
  function Replay(buf: seq<string>, ps: seq<Payload>): (r: seq<string>)
    requires |buf| <= Capacity
    ensures |r| <= Capacity
    decreases |ps|
  {
    if ps == [] then buf else Replay(ApplyMessage(buf, ps[0]), ps[1..])
  }

  /** Message by message the list is the run of pushes of the accepted
      detections: rejected messages drop out and nothing is reordered. */
  lemma {:induction false} ReplayIsPushAll(buf: seq<string>, ps: seq<Payload>)
    requires |buf| <= Capacity
    ensures Replay(buf, ps) == PushAll(buf, Accepted(ps))
    decreases |ps|
  {
    if ps != [] {
      ReplayIsPushAll(ApplyMessage(buf, ps[0]), ps[1..]);
      if Accepts(ps[0]) {
        var d := ps[0].msg.detection.value;
        assert Accepted(ps) == [d] + Accepted(ps[1..]);
        assert ([d] + Accepted(ps[1..]))[1..] == Accepted(ps[1..]);
      } else {
        assert Accepted(ps) == Accepted(ps[1..]);
      }
    }
  }

  /** From the seeded list, after any run of messages the console shows the
      last 15 of the seed followed by the accepted detections, in order. */
  lemma ReplayFromSeed(ps: seq<Payload>)
    ensures Replay(Temp, ps) == Window(Temp + Accepted(ps), Capacity)
    ensures |Replay(Temp, ps)| <= Capacity
  {
    ReplayIsPushAll(Temp, ps);
    PushAllIsWindow(Temp, Accepted(ps));
  }
}
