/** What the two capture components (the camera preview and the meeting page)
    share: the detector's output, the tick's guards, the per-hand send loop
    and the filter on inbound predictions. */
module FrameLoop {
  import opened Landmarks

  /** A landmark as the hand detector reports it, with its per-point score. */
  datatype DetectedLandmark = DetectedLandmark(x: real, y: real, z: real, visibility: real)

  type Hand = seq<DetectedLandmark>

  /** One outbound message: the `{x, y, z}` records of one hand. */
  type Message = seq<Landmark>

  /** WebSocket.readyState. */
  datatype ReadyState = Connecting | Open | Closing | Closed

  /** What a tick sees of the page: whether the video and canvas elements are
      mounted, whether the canvas gives a 2-D context, and the video's readyState. */
  datatype Dom = Dom(video: bool, canvas: bool, context: bool, readyState: int)

  /** HTMLMediaElement.HAVE_ENOUGH_DATA. */
  const HaveEnoughData := 4

  /** The three ways a tick of `detectHands` can go. */
  datatype TickPath =
    | Halt    // a ref or the landmarker is missing: return without rescheduling
    | Wait    // no 2-D context or the video is not ready: reschedule only
    | Detect  // detect, send, reschedule

  function Path(dom: Dom, landmarkerReady: bool): (p: TickPath)
    ensures p == Halt <==> !(dom.video && dom.canvas && landmarkerReady)
    ensures p == Detect <==>
      dom.video && dom.canvas && landmarkerReady && dom.context && dom.readyState == HaveEnoughData
  {
    if !dom.video || !dom.canvas || !landmarkerReady then Halt
    else if !dom.context || dom.readyState != HaveEnoughData then Wait
    else Detect
  }

  /** `landmarks.map(lm => ({x: lm.x, y: lm.y, z: lm.z}))`. */
  function Simplify(h: Hand): (m: Message)
    ensures |m| == |h|
    ensures forall i :: 0 <= i < |h| ==> m[i] == Landmark(h[i].x, h[i].y, h[i].z)
  {
    seq(|h|, i requires 0 <= i < |h| => Landmark(h[i].x, h[i].y, h[i].z))
  }

  /** `socket && socket.readyState === WebSocket.OPEN`; None is a socket not yet created. */
  predicate IsOpen(socket: Option<ReadyState>)
  {
    socket == Some(Open)
  }

  /** The messages one detection sends: one per hand, in detection order, and
      none at all unless the socket is open. */
  function Outgoing(hands: seq<Hand>, socket: Option<ReadyState>): (out: seq<Message>)
    ensures IsOpen(socket) ==> |out| == |hands|
    ensures IsOpen(socket) ==> forall i :: 0 <= i < |hands| ==> out[i] == Simplify(hands[i])
    ensures !IsOpen(socket) ==> out == []
  {
    if IsOpen(socket) then seq(|hands|, i requires 0 <= i < |hands| => Simplify(hands[i])) else []
  }

  /** The `for (const landmarks of results.landmarks)` loop: one send per hand,
      each only while the socket is open. */
  method SendHands(hands: seq<Hand>, socket: Option<ReadyState>) returns (out: seq<Message>)
    ensures out == Outgoing(hands, socket)
  {
    out := [];
    for i := 0 to |hands|
      invariant out == Outgoing(hands[..i], socket)
    {
      if IsOpen(socket) {
        out := out + [Simplify(hands[i])];
      }
    }
    assert hands[..|hands|] == hands;
  }

  /** The inbound filter: an empty prediction and the "?" sentinel are dropped. */
  predicate Forwardable(prediction: string)
  {
    prediction != "" && prediction != "?"
  }
}
