/** The link between the two ends of the socket: the browser sends each hand as
    a JSON array of `{x, y, z}` objects, and the server reads it back into
    landmark records. */
module WireFormat {
  import opened Landmarks
  import opened FrameLoop
  import opened Backend

  /** `JSON.stringify` of one message as the server's `json.loads` sees it:
      a list with one record per landmark, every key present. */
  function Encode(m: Message): (rs: seq<Record>)
    ensures |rs| == |m|
    ensures forall i :: 0 <= i < |m| ==> Complete(rs[i])
  {
    seq(|m|, i requires 0 <= i < |m| => Record(Some(m[i].x), Some(m[i].y), Some(m[i].z)))
  }

  /** The frame the server receives for one sent message. */
  function Frame(m: Message): Parsed
  {
    List(Encode(m))
  }

  /** The frames the server receives for a sequence of sent messages. */
  function Frames(out: seq<Message>): (fs: seq<Parsed>)
    ensures |fs| == |out|
    ensures forall i :: 0 <= i < |out| ==> fs[i] == Frame(out[i])
  {
    seq(|out|, i requires 0 <= i < |out| => Frame(out[i]))
  }

  /** The server reads back exactly the landmarks that were sent. */
  lemma EncodeRoundTrip(m: Message)
    ensures Points(Encode(m)) == Some(m)
  {
    var ps := Points(Encode(m));
    assert ps.Some?;
    assert |ps.value| == |m|;
    forall i | 0 <= i < |m|
      ensures ps.value[i] == m[i]
    {
    }
    assert ps.value == m;
  }

  /** A hand the detector reports with all 21 points is answered, with the
      label of the class the model picks for the hand's own features. */
  lemma FullHandAnswered(h: Hand, predict: seq<real> -> int)
    requires |h| == LandmarkCount
    ensures HandleFrame(Frame(Simplify(h)), predict) == Some(Decode(predict(Features(Simplify(h)))))
  {
    EncodeRoundTrip(Simplify(h));
  }

  /** A message of any other length gets no reply. */
  lemma ShortHandIgnored(m: Message, predict: seq<real> -> int)
    requires |m| != LandmarkCount
    ensures HandleFrame(Frame(m), predict) == None
  {
  }

  /** The labels the model picks for a sequence of 21-point messages, in order. */
  function Labels(out: seq<Message>, predict: seq<real> -> int): (ls: seq<string>)
    requires forall i :: 0 <= i < |out| ==> |out[i]| == LandmarkCount
    ensures |ls| == |out|
    ensures forall i :: 0 <= i < |out| ==> ls[i] == Decode(predict(Features(out[i])))
  {
    seq(|out|, i requires 0 <= i < |out| && |out[i]| == LandmarkCount => Decode(predict(Features(out[i]))))
  }

  /** A sequence that agrees with `init` on its positions and has one more
      element is `init` followed by that element. */
  lemma ElementwiseSnoc<T>(s: seq<T>, init: seq<T>)
    requires |s| == |init| + 1
    requires forall i :: 0 <= i < |init| ==> s[i] == init[i]
    ensures s == init + [s[|init|]]
  {
  }

  /** One message more adds its label at the end. */
  lemma LabelsSnoc(out: seq<Message>, predict: seq<real> -> int)
    requires out != []
    requires forall i :: 0 <= i < |out| ==> |out[i]| == LandmarkCount
    ensures var n := |out| - 1;
      Labels(out, predict) == Labels(out[..n], predict) + [Decode(predict(Features(out[n])))]
  {
    var n := |out| - 1;
    var ls, init := Labels(out, predict), Labels(out[..n], predict);
    forall i | 0 <= i < n
      ensures ls[i] == init[i]
    {
      assert out[..n][i] == out[i];
    }
    ElementwiseSnoc(ls, init);
  }

  /** The frames of all but the last message. */
  lemma FramesInit(out: seq<Message>)
    requires out != []
    ensures Frames(out)[..|out| - 1] == Frames(out[..|out| - 1])
  {
  }

  /** Every sent message of 21 points is answered, one reply per message:
      reply i is the label the model picks for message i. */
  lemma {:induction false} FullMessagesAnswered(out: seq<Message>, predict: seq<real> -> int)
    requires forall i :: 0 <= i < |out| ==> |out[i]| == LandmarkCount
    ensures Replies(Frames(out), predict) == Labels(out, predict)
  {
    if out != [] {
      var n := |out| - 1;
      FramesInit(out);
      FullMessagesAnswered(out[..n], predict);
      EncodeRoundTrip(out[n]);
      LabelsSnoc(out, predict);
    }
  }

  /** One tick's messages, over an open socket, for hands of 21 points each,
      are answered one for one: reply i is the label for hand i's points. */
  lemma EveryFullHandAnswered(hands: seq<Hand>, predict: seq<real> -> int)
    requires forall i :: 0 <= i < |hands| ==> |hands[i]| == LandmarkCount
    ensures |Replies(Frames(Outgoing(hands, Some(Open))), predict)| == |hands|
    ensures forall i :: 0 <= i < |hands| ==>
      Replies(Frames(Outgoing(hands, Some(Open))), predict)[i] == Decode(predict(Features(Simplify(hands[i]))))
  {
    FullMessagesAnswered(Outgoing(hands, Some(Open)), predict);
  }
}
