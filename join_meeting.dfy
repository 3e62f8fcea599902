/** The meeting page: the camera follows the video switch, the detect-and-send
    loop runs while translation is on, and the server's predictions feed a
    caption of at most 20 words. */
module JoinMeeting {
  import opened Landmarks
  import opened FrameLoop
  import Captions

  /** The loop-control effect's condition (lines 91-100): run the tick only
      while translating, with video on, a landmarker and a mounted video element. */
  predicate LoopRuns(isSimulating: bool, isVideoOn: bool, landmarkerReady: bool, videoMounted: bool)
  {
    isSimulating && isVideoOn && landmarkerReady && videoMounted
  }

  class Meeting {
    var isVideoOn: bool
    var isSimulating: bool
    var landmarkerReady: bool       // handLandmarker is set
    var acquiring: nat              // getUserMedia requests not yet settled
    var stream: Option<nat>         // streamRef.current, a stream identifier
    var videoSource: Option<nat>    // videoRef.current.srcObject
    var frameRef: Option<nat>       // animationFrameRef.current
    var frameRequests: nat          // requestAnimationFrame calls; handle k is the k-th
    var detections: nat             // detectForVideo calls
    var socket: Option<ReadyState>
    var sent: seq<Message>          // messages passed to socket.send, in order
    var caption: string             // captionText

    ghost predicate Valid()
      reads this
    {
      |Captions.Split(caption)| <= Captions.MaxWords &&
      (frameRef.Some? ==> 1 <= frameRef.value <= frameRequests)
    }

    constructor ()
      ensures Valid()
      ensures isVideoOn && !isSimulating && !landmarkerReady && acquiring == 0
      ensures stream == None && videoSource == None && frameRef == None
      ensures frameRequests == 0 && detections == 0 && socket == None && sent == [] && caption == ""
    {
      isVideoOn, isSimulating, landmarkerReady, acquiring := true, false, false, 0;
      stream, videoSource, frameRef := None, None, None;
      frameRequests, detections, socket, sent, caption := 0, 0, None, [], "";
    }

    /** The landmarker initialisation resolved (`setHandLandmarker`). */
    method LandmarkerLoaded()
      requires Valid()
      modifies this`landmarkerReady
      ensures Valid() && landmarkerReady
    {
      landmarkerReady := true;
    }

    /** The socket was created or changed state. */
    method SocketChanged(s: Option<ReadyState>)
      requires Valid()
      modifies this`socket
      ensures Valid() && socket == s
    {
      socket := s;
    }

    /** `ws.onmessage`: a prediction that is empty or "?" never reaches
        `updateCaption`; any other one updates the caption, which keeps at
        most 20 words. */
    method OnMessage(prediction: string)
      requires Valid()
      modifies this`caption
      ensures Valid()
      ensures caption == if Forwardable(prediction) then Captions.UpdateCaption(old(caption), prediction) else old(caption)
    {
      if Forwardable(prediction) {
        Captions.UpdateBounded(caption, prediction);
        caption := Captions.UpdateCaption(caption, prediction);
      }
    }

    /** `startCamera` up to its `await`: the camera is requested. */
    method StartCamera()
      requires Valid()
      modifies this`acquiring
      ensures Valid() && acquiring == old(acquiring) + 1
    {
      acquiring := acquiring + 1;
    }

    /** The rest of `startCamera` once `getUserMedia` settles with `outcome`
        (None when it was refused): the stream is stored, and shown when the
        video element is mounted; a refusal switches video off. */
    method CameraSettled(outcome: Option<nat>, videoMounted: bool)
      requires Valid()
      requires acquiring > 0
      modifies this`acquiring, this`stream, this`videoSource, this`isVideoOn
      ensures Valid() && acquiring == old(acquiring) - 1
      ensures outcome.Some? ==> stream == outcome && isVideoOn == old(isVideoOn)
      ensures outcome.Some? ==> videoSource == (if videoMounted then outcome else old(videoSource))
      ensures outcome.None? ==> !isVideoOn && stream == old(stream) && videoSource == old(videoSource)
    {
      acquiring := acquiring - 1;
      if outcome.Some? {
        stream := outcome;
        if videoMounted {
          videoSource := outcome;
        }
      } else {
        isVideoOn := false;
      }
    }

    /** `stopCamera`: the tracks are stopped and the stream dropped. Unlike the
        preview's, it leaves the video source and the pending frame alone. */
    method StopCamera()
      requires Valid()
      modifies this`stream
      ensures Valid() && stream == None
    {
      if stream.Some? {
        stream := None;
      }
    }

    /** The video effect (lines 81-88) after `isVideoOn` changed: the previous
        run's cleanup stops the camera, then the camera is requested when
        video is on and stopped again when it is off. */
    method VideoEffect()
      requires Valid()
      modifies this`stream, this`acquiring
      ensures Valid() && stream == None
      ensures acquiring == if isVideoOn then old(acquiring) + 1 else old(acquiring)
    {
      StopCamera();
      if isVideoOn {
        StartCamera();
      } else {
        StopCamera();
      }
    }

    /** One run of `detectHands`. `detected` is what `detectForVideo` returns,
        or None when it throws: the exception leaves the tick before the sends
        and before the next frame is requested, so the loop stops. */
    method Tick(dom: Dom, detected: Option<seq<Hand>>)
      requires Valid()
      modifies this`frameRef, this`frameRequests, this`detections, this`sent
      ensures Valid()
      ensures Path(dom, landmarkerReady) == Halt ==>
        frameRef == old(frameRef) && frameRequests == old(frameRequests) &&
        detections == old(detections) && sent == old(sent)
      ensures Path(dom, landmarkerReady) == Wait ==>
        detections == old(detections) && sent == old(sent) &&
        frameRequests == old(frameRequests) + 1 && frameRef == Some(frameRequests)
      ensures Path(dom, landmarkerReady) == Detect && detected.None? ==>
        detections == old(detections) + 1 && sent == old(sent) &&
        frameRequests == old(frameRequests) && frameRef == old(frameRef)
      ensures Path(dom, landmarkerReady) == Detect && detected.Some? ==>
        detections == old(detections) + 1 && sent == old(sent) + Outgoing(detected.value, socket) &&
        frameRequests == old(frameRequests) + 1 && frameRef == Some(frameRequests)
    {
      if !dom.video || !dom.canvas || !landmarkerReady {
        return;
      }
      if !dom.context || dom.readyState != HaveEnoughData {
        frameRequests := frameRequests + 1;
        frameRef := Some(frameRequests);
        return;
      }
      detections := detections + 1;
      if detected.None? {
        return;
      }
      var out := SendHands(detected.value, socket);
      sent := sent + out;
      frameRequests := frameRequests + 1;
      frameRef := Some(frameRequests);
    }

    /** The loop-control effect: a tick when the loop should run; otherwise
        any pending frame is cancelled and the handle cleared. */
    method LoopEffect(dom: Dom, detected: Option<seq<Hand>>)
      requires Valid()
      modifies this`frameRef, this`frameRequests, this`detections, this`sent
      ensures Valid()
      ensures !LoopRuns(isSimulating, isVideoOn, landmarkerReady, dom.video) ==>
        frameRef == None && frameRequests == old(frameRequests) &&
        detections == old(detections) && sent == old(sent)
      ensures LoopRuns(isSimulating, isVideoOn, landmarkerReady, dom.video) && Path(dom, landmarkerReady) == Halt ==>
        frameRef == old(frameRef) && frameRequests == old(frameRequests) &&
        detections == old(detections) && sent == old(sent)
      ensures LoopRuns(isSimulating, isVideoOn, landmarkerReady, dom.video) && Path(dom, landmarkerReady) == Wait ==>
        detections == old(detections) && sent == old(sent) &&
        frameRequests == old(frameRequests) + 1 && frameRef == Some(frameRequests)
      ensures LoopRuns(isSimulating, isVideoOn, landmarkerReady, dom.video) && Path(dom, landmarkerReady) == Detect && detected.None? ==>
        detections == old(detections) + 1 && sent == old(sent) &&
        frameRequests == old(frameRequests) && frameRef == old(frameRef)
      ensures LoopRuns(isSimulating, isVideoOn, landmarkerReady, dom.video) && Path(dom, landmarkerReady) == Detect && detected.Some? ==>
        detections == old(detections) + 1 && sent == old(sent) + Outgoing(detected.value, socket) &&
        frameRequests == old(frameRequests) + 1 && frameRef == Some(frameRequests)
    {
      if LoopRuns(isSimulating, isVideoOn, landmarkerReady, dom.video) {
        Tick(dom, detected);
      } else if frameRef.Some? {
        frameRef := None;
      }
    }

    /** `toggleSimulation`: translation on or off. */
    method ToggleSimulation()
      requires Valid()
      modifies this`isSimulating
      ensures Valid() && isSimulating == !old(isSimulating)
    {
      isSimulating := !isSimulating;
    }

    /** The video button: video on or off. */
    method ToggleVideo()
      requires Valid()
      modifies this`isVideoOn
      ensures Valid() && isVideoOn == !old(isVideoOn)
    {
      isVideoOn := !isVideoOn;
    }
  }
}
