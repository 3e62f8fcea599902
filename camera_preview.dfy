/** The camera preview component: it acquires the camera when detection is
    switched on, runs the detect-and-send loop once per display frame while
    the camera is live, and forwards the server's predictions to its parent. */
module CameraPreview {
  import opened Landmarks
  import opened FrameLoop

  /** What the start/stop/loop effect decides for one set of inputs. */
  datatype CameraStep = StartCam | StopCam | KeepCam
  datatype LoopStep = RunLoop | CancelLoop
  datatype Plan = Plan(camera: CameraStep, loop: LoopStep)

  /** The decisions of the effect at lines 197-213. `cameraActive` is the value
      the render saw: the loop half does not see what the camera half changes. */
  function EffectPlan(isActive: bool, landmarkerReady: bool, cameraActive: bool, videoMounted: bool): (p: Plan)
    ensures p.camera == StartCam <==> isActive && landmarkerReady && !cameraActive
    ensures p.camera == StopCam <==> !isActive && cameraActive
    ensures p.loop == RunLoop <==> isActive && cameraActive && landmarkerReady && videoMounted
    ensures p.camera == StartCam ==> p.loop == CancelLoop
    ensures p.camera == StopCam ==> p.loop == CancelLoop
  {
    var camera :=
      if isActive && landmarkerReady && !cameraActive then StartCam
      else if !isActive && cameraActive then StopCam
      else KeepCam;
    var loop := if isActive && cameraActive && landmarkerReady && videoMounted then RunLoop else CancelLoop;
    Plan(camera, loop)
  }

  class CameraPreview {
    var landmarkerReady: bool       // handLandmarker is set
    var isCameraActive: bool
    var isLoading: bool
    var acquiring: nat              // getUserMedia requests not yet settled
    var stream: Option<nat>         // streamRef.current, a stream identifier
    var videoSource: Option<nat>    // videoRef.current.srcObject
    var frameRef: Option<nat>       // animationFrameRef.current
    var frameRequests: nat          // requestAnimationFrame calls; handle k is the k-th
    var detections: nat             // detectForVideo calls
    var socket: Option<ReadyState>
    var sent: seq<Message>          // messages passed to socket.send, in order
    var gestures: seq<string>       // predictions passed to onGestureDetected, in order

    ghost predicate Valid()
      reads this
    {
      (stream.Some? <==> isCameraActive) &&
      (isCameraActive ==> videoSource == stream) &&
      (isLoading ==> acquiring > 0) &&
      (frameRef.Some? ==> 1 <= frameRef.value <= frameRequests)
    }

    constructor ()
      ensures Valid()
      ensures !landmarkerReady && !isCameraActive && !isLoading && acquiring == 0
      ensures stream == None && videoSource == None && frameRef == None
      ensures frameRequests == 0 && detections == 0 && socket == None && sent == [] && gestures == []
    {
      landmarkerReady, isCameraActive, isLoading, acquiring := false, false, false, 0;
      stream, videoSource, frameRef := None, None, None;
      frameRequests, detections, socket, sent, gestures := 0, 0, None, [], [];
    }

    /** The landmarker initialisation resolved (`setHandLandmarker`). */
    method LandmarkerLoaded()
      requires Valid()
      modifies this`landmarkerReady
      ensures Valid() && landmarkerReady
    {
      landmarkerReady := true;
    }

    /** The socket was created or changed state. */
    method SocketChanged(s: Option<ReadyState>)
      requires Valid()
      modifies this`socket
      ensures Valid() && socket == s
    {
      socket := s;
    }

    /** The synchronous part of `startCamera`, up to the `await`: without a
        landmarker it only warns; otherwise loading starts and the camera is
        requested. The camera state itself does not change here. */
    method StartCamera()
      requires Valid()
      modifies this`isLoading, this`acquiring
      ensures Valid()
      ensures !old(landmarkerReady) ==> isLoading == old(isLoading) && acquiring == old(acquiring)
      ensures old(landmarkerReady) ==> isLoading && acquiring == old(acquiring) + 1
    {
      if !landmarkerReady {
        return;
      }
      isLoading := true;
      acquiring := acquiring + 1;
    }

    /** The rest of `startCamera`, once `getUserMedia` settles with `outcome`
        (None when it was refused). On success with the video element mounted
        the stream is stored and the camera is active; otherwise the camera
        state is unchanged. Loading ends either way. */
    method CameraSettled(outcome: Option<nat>, videoMounted: bool)
      requires Valid()
      requires acquiring > 0
      modifies this`isLoading, this`acquiring, this`stream, this`videoSource, this`isCameraActive
      ensures Valid()
      ensures !isLoading && acquiring == old(acquiring) - 1
      ensures outcome.Some? && videoMounted ==>
        stream == outcome && videoSource == outcome && isCameraActive
      ensures !(outcome.Some? && videoMounted) ==>
        stream == old(stream) && videoSource == old(videoSource) && isCameraActive == old(isCameraActive)
    {
      if outcome.Some? && videoMounted {
        videoSource := outcome;
        stream := outcome;
        isCameraActive := true;
      }
      isLoading := false;
      acquiring := acquiring - 1;
    }

    /** `stopCamera`: no stream, no pending frame, camera inactive, and the
        video element's source cleared when it is mounted. The new state does
        not depend on the old one, so a second call changes nothing further. */
    method StopCamera(videoMounted: bool)
      requires Valid()
      modifies this`stream, this`videoSource, this`frameRef, this`isCameraActive
      ensures Valid()
      ensures stream == None && frameRef == None && !isCameraActive
      ensures videoSource == if videoMounted then None else old(videoSource)
    {
      if stream.Some? {
        stream := None;
      }
      if videoMounted {
        videoSource := None;
      }
      if frameRef.Some? {
        frameRef := None;
      }
      isCameraActive := false;
    }

    /** One run of `detectHands`. `detected` is what `detectForVideo` returns,
        or None when it throws: the exception leaves the tick before the sends
        and before the next frame is requested, so the loop stops. */
    method Tick(dom: Dom, detected: Option<seq<Hand>>)
      requires Valid()
      modifies this`frameRef, this`frameRequests, this`detections, this`sent
      ensures Valid()
      ensures Path(dom, landmarkerReady) == Halt ==>
        frameRef == old(frameRef) && frameRequests == old(frameRequests) &&
        detections == old(detections) && sent == old(sent)
      ensures Path(dom, landmarkerReady) == Wait ==>
        detections == old(detections) && sent == old(sent) &&
        frameRequests == old(frameRequests) + 1 && frameRef == Some(frameRequests)
      ensures Path(dom, landmarkerReady) == Detect && detected.None? ==>
        detections == old(detections) + 1 && sent == old(sent) &&
        frameRequests == old(frameRequests) && frameRef == old(frameRef)
      ensures Path(dom, landmarkerReady) == Detect && detected.Some? ==>
        detections == old(detections) + 1 && sent == old(sent) + Outgoing(detected.value, socket) &&
        frameRequests == old(frameRequests) + 1 && frameRef == Some(frameRequests)
    {
      if !dom.video || !dom.canvas || !landmarkerReady {
        return;
      }
      if !dom.context || dom.readyState != HaveEnoughData {
        frameRequests := frameRequests + 1;
        frameRef := Some(frameRequests);
        return;
      }
      detections := detections + 1;
      if detected.None? {
        return;
      }
      var out := SendHands(detected.value, socket);
      sent := sent + out;
      frameRequests := frameRequests + 1;
      frameRef := Some(frameRequests);
    }

    /** The start/stop/loop effect, run for the prop `isActive`. */
    method Effect(isActive: bool, dom: Dom, detected: Option<seq<Hand>>)
      requires Valid()
      modifies this`isLoading, this`acquiring, this`stream, this`videoSource, this`isCameraActive
      modifies this`frameRef, this`frameRequests, this`detections, this`sent
      ensures Valid()
      ensures var p := EffectPlan(isActive, old(landmarkerReady), old(isCameraActive), dom.video);
        && (p.camera == StartCam ==>
              isLoading && acquiring == old(acquiring) + 1 &&
              stream == old(stream) && videoSource == old(videoSource) && isCameraActive == old(isCameraActive))
        && (p.camera == StopCam ==>
              isLoading == old(isLoading) && acquiring == old(acquiring) &&
              stream == None && !isCameraActive &&
              videoSource == (if dom.video then None else old(videoSource)))
        && (p.camera == KeepCam ==>
              isLoading == old(isLoading) && acquiring == old(acquiring) &&
              stream == old(stream) && videoSource == old(videoSource) && isCameraActive == old(isCameraActive))
      ensures var p := EffectPlan(isActive, old(landmarkerReady), old(isCameraActive), dom.video);
        && (p.loop == CancelLoop ==>
              frameRef == None && frameRequests == old(frameRequests) &&
              sent == old(sent) && detections == old(detections))
        && (p.loop == RunLoop && Path(dom, landmarkerReady) == Halt ==>
              frameRef == old(frameRef) && frameRequests == old(frameRequests) &&
              detections == old(detections) && sent == old(sent))
        && (p.loop == RunLoop && Path(dom, landmarkerReady) == Wait ==>
              detections == old(detections) && sent == old(sent) &&
              frameRequests == old(frameRequests) + 1 && frameRef == Some(frameRequests))
        && (p.loop == RunLoop && Path(dom, landmarkerReady) == Detect && detected.None? ==>
              detections == old(detections) + 1 && sent == old(sent) &&
              frameRequests == old(frameRequests) && frameRef == old(frameRef))
        && (p.loop == RunLoop && Path(dom, landmarkerReady) == Detect && detected.Some? ==>
              detections == old(detections) + 1 && sent == old(sent) + Outgoing(detected.value, socket) &&
              frameRequests == old(frameRequests) + 1 && frameRef == Some(frameRequests))
    {
      var cameraActive := isCameraActive;
      var p := EffectPlan(isActive, landmarkerReady, cameraActive, dom.video);
      if p.camera == StartCam {
        StartCamera();
      } else if p.camera == StopCam {
        StopCamera(dom.video);
      }
      if p.loop == RunLoop {
        Tick(dom, detected);
      } else if frameRef.Some? {
        frameRef := None;
      }
    }

    /** `ws.onmessage` for the prediction text, with or without a callback. */
    method OnMessage(hasCallback: bool, prediction: string)
      requires Valid()
      modifies this`gestures
      ensures Valid()
      ensures gestures == if hasCallback && Forwardable(prediction) then old(gestures) + [prediction] else old(gestures)
    {
      if hasCallback && Forwardable(prediction) {
        gestures := gestures + [prediction];
      }
    }
  }
}
