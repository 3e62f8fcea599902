# Sign-language captioning pipeline: a Dafny model

The system turns a webcam view of a signing hand into text. In the browser,
a hand detector reports 21 landmarks per hand on every display frame. The
page sends each hand's `{x, y, z}` points over a websocket to a Python
server. The server checks that a frame has exactly 21 points and shifts
every axis to its minimum, which gives a 63-entry feature vector. A network
picks a class index, and the server maps it back to a letter A-Z, or to "?"
for an index outside 0..25. The browser drops "?" and empty replies. The
meeting page folds the rest into a caption of at most 20 words, skipping a
token that repeats the last word. The landing page passes each gesture to a
translation output unless it repeats that output's last character. A
separate, purely geometric classifier reads open/closed finger flags off a
hand and names one of four gestures.

The modules follow the program's structure:

| module | file | models |
|---|---|---|
| `Landmarks` | landmarks.dfy | the `{x, y, z}` point, and shifting and projecting a hand on one axis |
| `GestureRecognizer` | gesture_recognizer.dfy | `src/lib/gestureRecognizer.ts` |
| `Backend` | backend.dfy | the label table, the preprocessing and the websocket loop of `backend-ai/app.py` |
| `Captions` | captions.dfy | `updateCaption` of `src/pages/JoinMeeting.tsx`, and the caption left by a stream of tokens |
| `FrameLoop` | frame_loop.dfy | what both capture components share: the tick's guards, the per-hand send loop and the inbound filter |
| `CameraPreview` | camera_preview.dfy | `src/components/CameraPreview.tsx`, as a class |
| `JoinMeeting` | join_meeting.dfy | the camera, loop and caption state of `src/pages/JoinMeeting.tsx`, as a class |
| `IndexPage` | index_page.dfy | `src/pages/Index.tsx`, as a class |
| `WireFormat` | wire_format.dfy | the link between what the browser sends and what the server reads |

The outside world is represented by parameters:

- **Coordinates** are `real`.
- **The network** is `predict: seq<real> -> int`, so it may return any index.
- **The hand detector's output** for a frame is a `seq<Hand>` parameter.
- **`getUserMedia`'s outcome** is an `Option<nat>` stream identifier, where `None` means refused.
- **The DOM** is a `Dom` value, which says whether the video and canvas are mounted, whether a 2-D context exists, and what the video's readyState is.
- **The socket** is its readyState, or `None` before it is created.
- **Text on the landing page** is a JavaScript string: a sequence of UTF-16 code units (`JsString`), since `length` and `slice` count those.
- **Animation-frame handles** are numbered by a counter of requests, so a non-null handle is always positive.
- **An async function** that awaits is split in two:
  - a method for the part before the `await`;
  - a method for the part after it settles.
- **A React effect** is a method that reads the state the render saw.

## Model

| member | source | states |
|---|---|---|
| GestureRecognizer.Classify | src/lib/gestureRecognizer.ts:16-36 | each gesture is returned exactly for its own flag pattern (all open: Hello, all closed: No, thumb only: Yes, index and middle only: Peace) and null for every other pattern, so the four patterns are exclusive and the order of the checks does not matter |
| GestureRecognizer.IsFingerOpen | src/lib/gestureRecognizer.ts:39-44 | definition: a finger is open when its tip's y is smaller than its PIP joint's; its invariance under shifts and scaling is proved in `RecognizeShiftInvariant` and `FingerScaleInvariant` |
| GestureRecognizer.IsThumbOpen | src/lib/gestureRecognizer.ts:46-72 | definition: the thumb test on squared x,y distances; `ThumbTestOnDistances` proves it equal to the source's square-root comparison |
| GestureRecognizer.Flags | src/lib/gestureRecognizer.ts:10-14 | definition: the five open/closed flags, thumb first, for the pairs 8/6, 12/10, 16/14 and 20/18; `Recognize` states the result in terms of them |
| GestureRecognizer.Recognize | src/lib/gestureRecognizer.ts:6-37 | an empty hand gives null; for a full hand, each gesture is returned exactly when the five finger flags (tip above PIP for the pairs 8/6, 12/10, 16/14, 20/18; the thumb ratio test) match its pattern |
| GestureRecognizer.ThumbTestOnDistances | src/lib/gestureRecognizer.ts:56-71 | for any non-negative lengths whose squares are the x,y squared distances 4-17 and 5-17, the thumb is open exactly when the first exceeds 1.5 times the second, so the squared test equals the source's square-root test; z plays no part |
| GestureRecognizer.ThumbsUpIsYes | src/lib/gestureRecognizer.ts:26-71 | a hand whose thumb tip is twice the hand width from the pinky base, with the four fingers curled, is recognised as Yes |
| GestureRecognizer.RecognizeShiftInvariant | src/lib/gestureRecognizer.ts:43-71 | adding one constant to every x, every y or every z leaves the result unchanged |
| GestureRecognizer.RecognizeScaleInvariant | src/lib/gestureRecognizer.ts:43-71 | scaling every x and every y by one positive factor leaves the result unchanged |
| GestureRecognizer.RecognizeReadsOnlyUsedLandmarks | src/lib/gestureRecognizer.ts:10-58 | two hands that agree on landmarks 4, 5, 6, 8, 10, 12, 14, 16, 17, 18 and 20 get the same result |
| Backend.IdxToClassInverse | backend-ai/app.py:52-58 | `idx_to_class` inverts `classes`: every letter's index maps back to that letter, and its keys are exactly 0..25 |
| Backend.IdxToClass | backend-ai/app.py:58 | definition: the label table inverted; `IdxToClassInverse` proves it is an inverse with keys exactly 0..25 |
| Backend.ClassesTable | backend-ai/app.py:52-57 | the table that sends each capital letter to its position in the alphabet is, entry for entry, the server's literal dictionary of the 26 letters to 0..25 |
| Backend.Decode | backend-ai/app.py:93 | an index in 0..25 decodes to the single letter whose class index it is; every other index, and only those, decodes to "?" |
| Backend.Min | backend-ai/app.py:78 | the result is an element of the list and no element is smaller |
| Backend.Mins | backend-ai/app.py:78 | definition: the three per-axis minima; `FeaturesNormalised` and `MinsShift` state their properties |
| Backend.InputVector | backend-ai/app.py:81-85 | the vector has three entries per landmark; its layout is proved in `InputVectorLayout` |
| Backend.Features | backend-ai/app.py:74-85 | definition: the input vector against the per-axis minima; `FeatureCountOf21`, `FeaturesNormalised` and `FeaturesShiftInvariant` state its properties |
| Backend.InputVectorLayout | backend-ai/app.py:81-85 | entries 3i, 3i+1 and 3i+2 of the vector are landmark i's x, y and z, each minus its axis minimum |
| Backend.FeatureCountOf21 | backend-ai/app.py:80-88 | a 21-landmark frame gives exactly 63 features |
| Backend.Preprocess | backend-ai/app.py:74-85 | the loop that appends three values per landmark builds exactly the feature vector of the hand |
| Backend.FeaturesNormalised | backend-ai/app.py:78-85 | every feature is at least 0, and on each axis some landmark's feature is exactly 0 |
| Backend.FeaturesShiftInvariant | backend-ai/app.py:74-85 | adding one constant to every landmark's coordinate on one axis leaves the feature vector unchanged |
| Backend.Points | backend-ai/app.py:74-76 | the landmarks are read exactly when every record has x, y and z, and they are then those values in order; a missing key anywhere gives none |
| Backend.HandleFrame | backend-ai/app.py:66-100 | a reply is sent exactly for a parsed list of 21 complete records; malformed JSON, a non-list, an empty or wrong-length list and a missing key all give no reply; a reply is "?" or one letter A-Z |
| Backend.Receive | backend-ai/app.py:67-100 | one pass of the loop body, with its exceptions caught, replies exactly as `HandleFrame` prescribes |
| Backend.Serve | backend-ai/app.py:65-100 | the receive loop sends exactly the replies of the frames it was given, in order, skipping the dropped ones |
| Backend.Replies | backend-ai/app.py:65-100 | definition: the replies of the session in frame order; `Serve`, `RepliesAppend`, `DroppedFrameInvisible` and `RepliesAreLabels` state its properties |
| Backend.RepliesAppend | backend-ai/app.py:65-100 | the replies to two consecutive batches of frames are the replies to the first followed by those to the second: the loop keeps no state between frames |
| Backend.DroppedFrameInvisible | backend-ai/app.py:70-100 | a frame that gets no reply changes nothing in the rest of the session's replies: the loop goes on as if it had not arrived |
| Backend.RepliesAreLabels | backend-ai/app.py:93-95 | a session sends at most one reply per frame, and every reply is one letter A-Z or "?" |
| Captions.UpdateWords | src/pages/JoinMeeting.tsx:67-79 | a token equal to the caption's last space-separated word leaves the caption unchanged; otherwise the new caption's words are the last 20 of the old words followed by the token's words |
| Captions.UpdateCaption | src/pages/JoinMeeting.tsx:67-79 | definition: the `setCaptionText` updater; `UpdateWords`, `UpdateBounded`, `UpdateEmpty` and `UpdateAppendsToken` state what it does |
| Captions.UpdateBounded | src/pages/JoinMeeting.tsx:77 | an update that changes the caption leaves at most 20 words, and an update of a caption of at most 20 words keeps it so |
| Captions.UpdateEmpty | src/pages/JoinMeeting.tsx:76 | updating the empty caption with a token of at most 20 words yields exactly the token |
| Captions.UpdateAppendsToken | src/pages/JoinMeeting.tsx:76-77 | a new one-word token becomes the caption's last word, and the words before it are a suffix of the old caption's words |
| Captions.JoinSplit | src/pages/JoinMeeting.tsx:69-77 | joining the pieces of a split with single spaces gives back the string |
| Captions.Split | src/pages/JoinMeeting.tsx:69-77 | `split(" ")` always gives at least one piece; `JoinSplit`, `SplitJoin`, `SplitAtSpace` and `SplitPiecesSpaceFree` state the rest |
| Captions.Join | src/pages/JoinMeeting.tsx:77 | definition: `join(" ")`; `JoinSplit` and `SplitJoin` prove it inverse to `Split` |
| Captions.LastN | src/pages/JoinMeeting.tsx:77 | `slice(-20)` keeps the last n elements, or all of them when there are fewer |
| Captions.SplitJoin | src/pages/JoinMeeting.tsx:77 | splitting a join of space-free words gives back the words |
| Captions.SplitAtSpace | src/pages/JoinMeeting.tsx:76-77 | splitting `prev + " " + text` on single spaces gives the pieces of `prev` followed by the pieces of `text` |
| Captions.SplitPiecesSpaceFree | src/pages/JoinMeeting.tsx:69 | no piece of a split on single spaces contains a space |
| Captions.CaptionWords | src/pages/JoinMeeting.tsx:67-79 | after any stream of one-word tokens the caption's words are the last 20 of the stream with back-to-back repeats removed |
| Captions.RepeatsCollapse | src/pages/JoinMeeting.tsx:67-79 | for one-word tokens h, y, n with h different from y and y from n, the stream h, h, y, y, n leaves the caption "h y n", as Hello, Hello, Yes, Yes, No leaves "Hello Yes No" |
| Captions.KeepsLastTwenty | src/pages/JoinMeeting.tsx:77 | a stream of at least 20 one-word tokens without back-to-back repeats leaves exactly its last 20 tokens, in order |
| FrameLoop.Path | src/components/CameraPreview.tsx:141-152 | a tick halts exactly when the video, the canvas or the landmarker is missing, and detects exactly when all are present, a 2-D context exists and the video has enough data; otherwise it only reschedules |
| FrameLoop.Outgoing | src/components/CameraPreview.tsx:169-189 | over an open socket one message is sent per hand, in detection order, each the hand's points reduced to x, y and z in their order; over any other socket nothing is sent |
| FrameLoop.Simplify | src/components/CameraPreview.tsx:186 | the message has one point per landmark, each the landmark's x, y and z in order |
| FrameLoop.Forwardable | src/components/CameraPreview.tsx:123 | definition: a prediction passes the inbound filter when it is neither empty nor "?"; both `OnMessage` methods state their effect through it |
| FrameLoop.SendHands | src/components/CameraPreview.tsx:169-189 | the loop over detected hands sends exactly the messages of `Outgoing` |
| CameraPreview.EffectPlan | src/components/CameraPreview.tsx:197-213 | the camera is started exactly when active, ready and not camera-active, and stopped exactly when inactive and camera-active; the loop runs exactly when active, camera-active, ready and the video is mounted, and never in the same run that starts or stops the camera |
| CameraPreview.CameraPreview.constructor | src/components/CameraPreview.tsx:17-21 | the preview starts with the camera inactive, not loading, without landmarker, stream, pending frame or socket, and with nothing sent or forwarded |
| CameraPreview.CameraPreview.LandmarkerLoaded | src/components/CameraPreview.tsx:43 | the landmarker becomes available and the invariant is kept |
| CameraPreview.CameraPreview.SocketChanged | src/components/CameraPreview.tsx:110-132 | the socket takes the given state |
| CameraPreview.CameraPreview.StartCamera | src/components/CameraPreview.tsx:61-68 | without a landmarker nothing changes (no loading, no request); otherwise loading starts and one camera request is pending |
| CameraPreview.CameraPreview.CameraSettled | src/components/CameraPreview.tsx:68-90 | a stream granted while the video is mounted is stored and shown and the camera becomes active; otherwise the camera state is unchanged; loading ends either way |
| CameraPreview.CameraPreview.StopCamera | src/components/CameraPreview.tsx:94-108 | afterwards there is no stream and no pending frame, the camera is inactive and a mounted video has no source; the new stream, pending frame and camera flag do not depend on the old state, so a second call changes nothing further |
| CameraPreview.CameraPreview.Tick | src/components/CameraPreview.tsx:140-194 | a halted tick changes nothing; a waiting tick reschedules once and does not detect; a full tick detects once, and then either the detector throws, so nothing is sent and no frame is requested, or it sends `Outgoing` of the detected hands and reschedules exactly once at its end |
| CameraPreview.CameraPreview.Effect | src/components/CameraPreview.tsx:197-213 | the whole new state follows `EffectPlan` for the state the render saw: a start begins loading with one camera request and leaves the camera state alone; a stop drops the stream, deactivates the camera and clears a mounted video's source, loading untouched; otherwise the camera state is unchanged. A cancelled loop clears the pending frame and detects, sends and requests nothing; a running loop halts without change, reschedules once without detecting, or detects once and then either stops on a throwing detector, sending and requesting nothing, or sends `Outgoing` of the detected hands and reschedules once. The landmarker, socket and forwarded gestures never change |
| CameraPreview.CameraPreview.OnMessage | src/components/CameraPreview.tsx:121-126 | a prediction is forwarded to the parent exactly when a callback exists and the prediction is neither empty nor "?" |
| JoinMeeting.Meeting.OnMessage | src/pages/JoinMeeting.tsx:57-61 | an empty or "?" prediction leaves the caption alone; any other prediction updates it, and the caption keeps at most 20 words |
| JoinMeeting.Meeting.constructor | src/pages/JoinMeeting.tsx:16-25 | the page starts with video on, translation off, an empty caption, and without landmarker, stream, pending frame or socket |
| JoinMeeting.Meeting.LandmarkerLoaded | src/pages/JoinMeeting.tsx:45 | the landmarker becomes available and the invariant is kept |
| JoinMeeting.Meeting.SocketChanged | src/pages/JoinMeeting.tsx:55-63 | the socket takes the given state |
| JoinMeeting.Meeting.StartCamera | src/pages/JoinMeeting.tsx:137-139 | one camera request becomes pending; unlike the preview, no landmarker is required |
| JoinMeeting.Meeting.CameraSettled | src/pages/JoinMeeting.tsx:139-147 | a granted stream is stored, and shown when the video is mounted; a refusal switches video off |
| JoinMeeting.Meeting.StopCamera | src/pages/JoinMeeting.tsx:150-155 | afterwards there is no stream; the video source and the pending frame are left alone |
| JoinMeeting.Meeting.VideoEffect | src/pages/JoinMeeting.tsx:81-88 | after the previous run's cleanup the stream is gone, and one camera request is added exactly when video is on |
| JoinMeeting.Meeting.Tick | src/pages/JoinMeeting.tsx:102-134 | a halted tick changes nothing; a waiting tick reschedules once without detecting; a full tick detects once, and then either the detector throws, so nothing is sent and no frame is requested, or it sends `Outgoing` of the detected hands and reschedules once |
| JoinMeeting.Meeting.LoopEffect | src/pages/JoinMeeting.tsx:91-100 | when translation or video is off, the landmarker is missing or the video is unmounted, the pending frame is cancelled and cleared and nothing is detected or sent; otherwise one tick runs: it halts without change, reschedules once without detecting, or detects once and then either stops on a throwing detector, sending and requesting nothing, or sends `Outgoing` of the detected hands and reschedules once |
| JoinMeeting.Meeting.ToggleSimulation | src/pages/JoinMeeting.tsx:163-164 | translation flips |
| JoinMeeting.Meeting.ToggleVideo | src/pages/JoinMeeting.tsx:253 | video flips |
| IndexPage.Utf16 | src/pages/Index.tsx:22 | a character below 0x10000 is one code unit, itself; any other is a high surrogate and a low surrogate that together encode it |
| IndexPage.LastChar | src/pages/Index.tsx:22 | the result has at most one code unit, is empty exactly for the empty text, and is otherwise the text's last code unit, which the text ends with |
| IndexPage.ShouldAdd | src/pages/Index.tsx:24 | a gesture of two or more code units is never suppressed, and against an empty text every non-empty gesture is added |
| IndexPage.ShouldAddMeaning | src/pages/Index.tsx:21-26 | a gesture is suppressed exactly when it is one code unit equal to the text's last code unit (or both are empty) |
| IndexPage.RepeatSuppressed | src/pages/Index.tsx:21-26 | right after a one-code-unit gesture has been added, the same gesture is suppressed |
| IndexPage.SupplementaryNeverSuppressed | src/pages/Index.tsx:21-26 | a gesture that is one character outside the Basic Multilingual Plane is never suppressed, not even right after itself, because `slice(-1)` yields only its low surrogate |
| IndexPage.Index.constructor | src/pages/Index.tsx:12-14 | the page starts with sign-to-text off, detection off, no translation ref and nothing added |
| IndexPage.Index.TranslationChanged | src/pages/Index.tsx:14 | the translation ref takes the given value |
| IndexPage.Index.HandleGestureDetected | src/pages/Index.tsx:16-28 | with no translation ref nothing is added; otherwise the gesture is added exactly when it differs from the last code unit of the current text, which is "" when the ref has no `getText` |
| IndexPage.Index.HandleSignLanguageToggle | src/pages/Index.tsx:30-32 | the feature takes the given value; disabling it forces detection off, and enabling it leaves detection as it was |
| IndexPage.Index.HandleToggleDetection | src/pages/Index.tsx:43-44 | detection flips |
| WireFormat.EncodeRoundTrip | src/components/CameraPreview.tsx:186-187 | the server reads back exactly the points the browser sent |
| WireFormat.Encode | src/components/CameraPreview.tsx:187 | one complete record per point; `EncodeRoundTrip` proves the server reads the points back |
| WireFormat.FullHandAnswered | backend-ai/app.py:66-95 | a hand sent with all 21 points is answered with the label of the class the model picks for that hand's features |
| WireFormat.ShortHandIgnored | backend-ai/app.py:70-71 | a message of any other length gets no reply |
| WireFormat.FullMessagesAnswered | backend-ai/app.py:65-95 | a sequence of 21-point messages gets one reply per message, in order: reply i is the label the model picks for message i's features |
| WireFormat.EveryFullHandAnswered | src/components/CameraPreview.tsx:169-189 | over an open socket, a tick's hands of 21 points each are answered one for one: reply i is the label for hand i's points |

## Left out

- The hand detector (MediaPipe setup, `detectForVideo`), drawing, canvas sizing and clearing: the detector's outcome is an `Option` parameter of the ticks, the detected hands or `None` when `detectForVideo` throws, and drawing has no effect on the state modelled.
- The network (`CNNModel`, `torch.load`, `torch.max`) is the `predict` parameter, and FastAPI, CORS and uvicorn are not modelled.
- JSON text and number formatting are not modelled. A frame is a parsed value: malformed, not a list, or a list of records whose x, y and z may be missing. Beyond this, a non-list that the server would index is treated like any other dropped frame.
- Floating point: coordinates and features are `real`, so IEEE rounding of `Math.sqrt`, `Math.pow` and Python subtraction is not modelled.
- Toasts, console logging, React re-render timing and the browser's frame scheduling are left out: a frame request is only a fresh handle in `frameRef`.
- Concurrency: each async function is two atomic steps. Interleavings with other events are only those the caller chooses to make between the steps.
- The socket's own lifecycle (opening, `onopen`, `onerror`, close on unmount) is left out; only its readyState, set through `SocketChanged`, is modelled.
- The unmount cleanup of the preview (src/components/CameraPreview.tsx:216-220) calls the same `stopCamera` that `StopCamera` models, so it has no row of its own.
- CameraPreview.CameraPreview.CameraSettled: the model keeps one stream id and no tracks, so it does not capture that a stream granted while the video is unmounted is neither stored nor stopped and keeps the camera on (src/components/CameraPreview.tsx:77), nor that a second settled request overwrites the stored stream without stopping its tracks (src/components/CameraPreview.tsx:79).
- JoinMeeting.Meeting.CameraSettled: as in the preview, a second settled request overwrites the stored stream without stopping its tracks (src/pages/JoinMeeting.tsx:140); the model only records the newest id.
- JoinMeeting.Meeting.videoSource: the video element is rendered only while video is on (src/pages/JoinMeeting.tsx:192-205), so a remounted element starts without a source; the model has one element whose `videoSource` keeps the last id across an unmount.
- The landmarker initialisation effects are reduced to `LandmarkerLoaded`; a failed initialisation is the absence of that call.
- GestureRecognizer.Recognize requires 0 or at least 21 points: for 1 to 20 points the source reads a missing landmark and throws, so there is no result to model. The source's `!landmarks` test also returns null for a null or undefined list, which a sequence cannot represent; only the empty list is modelled.
- JoinMeeting's mute, captions-visibility and end-call controls, and the accessibility, feature-toggle and translation-output components, are not part of this model. The translation output is only the optional ref that `Index` reads.
- Everywhere except the landing page, text is a Dafny `string` of characters rather than UTF-16 code units. Those modules only compare whole strings, test for "" and "?", and split or join at the space, which are the same on either representation.

Where the code behaves differently from what its comments or names suggest, the model follows the code:

- The caption is a string that is split on every single space, with empty pieces kept. A token containing a space therefore adds several words. There is no clear operation and no recently-updated flag.
- The landing page compares the whole gesture with the last UTF-16 code unit of the current text, not the gesture's first character. A gesture longer than one code unit, including a single character outside the Basic Multilingual Plane, is therefore never suppressed.
- The classifier does not fail closed on a partial hand: it throws, as noted above.
