/** The prediction server's websocket loop: drop frames that are not 21
    landmarks, turn the rest into a 63-entry feature vector shifted to the
    per-axis minimum, and decode the model's class index to a letter. */
module Backend {
  import opened Landmarks

  const LandmarkCount := 21
  const FeatureCount := 63

  // ----- the label table -----

  predicate IsLetter(c: char)
  {
    'A' <= c <= 'Z'
  }

  /** `classes`: every capital letter to its position in the alphabet. */
  const Classes: map<char, int> := map c | IsLetter(c) :: c as int - 'A' as int

  /** The dictionary as the server spells it out. */
  const ClassesLiteral: map<char, int> := map[
    'A' := 0, 'B' := 1, 'C' := 2, 'D' := 3, 'E' := 4, 'F' := 5, 'G' := 6, 'H' := 7,
    'I' := 8, 'J' := 9, 'K' := 10, 'L' := 11, 'M' := 12, 'N' := 13, 'O' := 14,
    'P' := 15, 'Q' := 16, 'R' := 17, 'S' := 18, 'T' := 19, 'U' := 20, 'V' := 21,
    'W' := 22, 'X' := 23, 'Y' := 24, 'Z' := 25]

  lemma LiteralEntriesInClasses()
    ensures forall c :: c in ClassesLiteral ==> c in Classes && Classes[c] == ClassesLiteral[c]
  {
  }

  lemma ClassesKeysInLiteral()
    ensures forall c :: c in Classes ==> c in ClassesLiteral
  {
  }

  /** Entry by entry, the table is the literal dictionary of the server. */
  lemma ClassesTable()
    ensures Classes == ClassesLiteral
  {
    LiteralEntriesInClasses();
    ClassesKeysInLiteral();
  }

  /** `idx_to_class`: the dictionary inverted. */
  function IdxToClass(): map<int, char>
  {
    map c | c in Classes :: Classes[c] := c
  }

  /** The inversion is exact: every letter's index maps back to the letter,
      and the indices are exactly 0 to 25. */
  lemma IdxToClassInverse()
    ensures forall c :: c in Classes ==> Classes[c] in IdxToClass() && IdxToClass()[Classes[c]] == c
    ensures forall i :: i in IdxToClass() <==> 0 <= i < 26
  {
    var m := IdxToClass();
    forall i | 0 <= i < 26
      ensures i in m
    {
      var c := ('A' as int + i) as char;
      assert c in Classes && Classes[c] == i;
    }
  }

  /** What looking up one index finds. */
  lemma LookUp(idx: int)
    ensures idx in IdxToClass() <==> 0 <= idx < 26
    ensures idx in IdxToClass() ==> IsLetter(IdxToClass()[idx]) && Classes[IdxToClass()[idx]] == idx
  {
    IdxToClassInverse();
  }

  /** `idx_to_class.get(predicted, "?")`. */
  function Decode(idx: int): (r: string)
    ensures 0 <= idx < 26 ==> |r| == 1 && IsLetter(r[0]) && Classes[r[0]] == idx
    ensures !(0 <= idx < 26) <==> r == "?"
  {
    LookUp(idx);
    if idx in IdxToClass() then [IdxToClass()[idx]] else "?"
  }

  // ----- preprocessing -----

  /** Python's `min` over a non-empty list. */
  function Min(s: seq<real>): (m: real)
    requires |s| > 0
    ensures m in s
    ensures forall i :: 0 <= i < |s| ==> m <= s[i]
  {
    if |s| == 1 then s[0]
    else
      var rest := Min(s[1..]);
      if s[0] <= rest then s[0] else rest
  }

  lemma MinUnique(s: seq<real>, m: real)
    requires m in s
    requires forall i :: 0 <= i < |s| ==> m <= s[i]
    ensures Min(s) == m
  {
  }

  /** The per-axis minima `min_x`, `min_y`, `min_z`. */
  function Mins(ps: seq<Landmark>): Landmark
    requires |ps| > 0
  {
    Landmark(Min(Column(ps, X)), Min(Column(ps, Y)), Min(Column(ps, Z)))
  }

  /** The input vector: x, y, z of each landmark in input order, each minus `m`. */
  function InputVector(ps: seq<Landmark>, m: Landmark): (v: seq<real>)
    ensures |v| == 3 * |ps|
  {
    if ps == [] then []
    else
      var p := ps[|ps| - 1];
      InputVector(ps[..|ps| - 1], m) + [p.x - m.x, p.y - m.y, p.z - m.z]
  }

  /** One more landmark of the hand appends its three entries. */
  lemma InputVectorStep(ps: seq<Landmark>, i: nat, m: Landmark)
    requires i < |ps|
    ensures InputVector(ps[..i + 1], m) == InputVector(ps[..i], m) + [ps[i].x - m.x, ps[i].y - m.y, ps[i].z - m.z]
  {
    var s := ps[..i + 1];
    assert s[..i] == ps[..i];
  }

  /** The layout: entries 3i, 3i+1 and 3i+2 are landmark i's x, y and z minus `m`. */
  lemma {:induction false} InputVectorLayout(ps: seq<Landmark>, m: Landmark, i: nat)
    requires i < |ps|
    ensures var v := InputVector(ps, m);
      v[3 * i] == ps[i].x - m.x && v[3 * i + 1] == ps[i].y - m.y && v[3 * i + 2] == ps[i].z - m.z
    decreases |ps|
  {
    var n := |ps| - 1;
    if i < n {
      InputVectorLayout(ps[..n], m, i);
    }
  }

  /** The server's feature vector has 63 entries for a 21-landmark frame. */
  lemma FeatureCountOf21(ps: seq<Landmark>)
    requires |ps| == LandmarkCount
    ensures |Features(ps)| == FeatureCount
  {
  }

  function Features(ps: seq<Landmark>): seq<real>
    requires |ps| > 0
  {
    InputVector(ps, Mins(ps))
  }

  /** Lines 78-85: the minima, then the loop appending three values per landmark. */
  method Preprocess(ps: seq<Landmark>) returns (v: seq<real>)
    requires |ps| > 0
    ensures v == Features(ps)
  {
    var xs, ys, zs := Column(ps, X), Column(ps, Y), Column(ps, Z);
    var m := Landmark(Min(xs), Min(ys), Min(zs));
    assert m == Mins(ps);
    v := [];
    for i := 0 to |ps|
      invariant v == InputVector(ps[..i], m)
    {
      InputVectorStep(ps, i, m);
      v := v + [ps[i].x - m.x, ps[i].y - m.y, ps[i].z - m.z];
    }
    assert ps[..|ps|] == ps;
  }

  /** Every feature is non-negative, and on each axis some landmark's feature is 0. */
  lemma FeaturesNormalised(ps: seq<Landmark>)
    requires |ps| > 0
    ensures var v := Features(ps);
      forall i :: 0 <= i < |ps| ==> v[3 * i] >= 0.0 && v[3 * i + 1] >= 0.0 && v[3 * i + 2] >= 0.0
    ensures var v := Features(ps);
      (exists i :: 0 <= i < |ps| && v[3 * i] == 0.0) &&
      (exists i :: 0 <= i < |ps| && v[3 * i + 1] == 0.0) &&
      (exists i :: 0 <= i < |ps| && v[3 * i + 2] == 0.0)
  {
    var v := Features(ps);
    var m := Mins(ps);
    forall i | 0 <= i < |ps|
      ensures v[3 * i] >= 0.0 && v[3 * i + 1] >= 0.0 && v[3 * i + 2] >= 0.0
    {
      InputVectorLayout(ps, m, i);
      assert Column(ps, X)[i] == ps[i].x;
      assert Column(ps, Y)[i] == ps[i].y;
      assert Column(ps, Z)[i] == ps[i].z;
    }
    var ix :| 0 <= ix < |ps| && Column(ps, X)[ix] == m.x;
    var iy :| 0 <= iy < |ps| && Column(ps, Y)[iy] == m.y;
    var iz :| 0 <= iz < |ps| && Column(ps, Z)[iz] == m.z;
    InputVectorLayout(ps, m, ix);
    InputVectorLayout(ps, m, iy);
    InputVectorLayout(ps, m, iz);
    assert v[3 * ix] == 0.0 && v[3 * iy + 1] == 0.0 && v[3 * iz + 2] == 0.0;
  }

  /** Shifting one axis shifts that axis's minimum and leaves the others. */
  lemma ColumnMinShift(ps: seq<Landmark>, a: Axis, d: real, b: Axis)
    requires |ps| > 0
    ensures Min(Column(Shift(ps, a, d), b)) == if b == a then Min(Column(ps, b)) + d else Min(Column(ps, b))
  {
    var c := Column(ps, b);
    var cs := Column(Shift(ps, a, d), b);
    if b == a {
      var m := Min(c);
      var k :| 0 <= k < |c| && c[k] == m;
      assert cs[k] == m + d;
      MinUnique(cs, m + d);
    } else {
      assert cs == c;
    }
  }

  lemma MinsShift(ps: seq<Landmark>, a: Axis, d: real)
    requires |ps| > 0
    ensures Mins(Shift(ps, a, d)) == ShiftPoint(Mins(ps), a, d)
  {
    ColumnMinShift(ps, a, d, X);
    ColumnMinShift(ps, a, d, Y);
    ColumnMinShift(ps, a, d, Z);
  }

  lemma {:induction false} InputVectorShift(ps: seq<Landmark>, a: Axis, d: real, m: Landmark)
    ensures InputVector(Shift(ps, a, d), ShiftPoint(m, a, d)) == InputVector(ps, m)
    decreases |ps|
  {
    if ps != [] {
      var n := |ps| - 1;
      assert Shift(ps, a, d)[..n] == Shift(ps[..n], a, d);
      InputVectorShift(ps[..n], a, d, m);
    }
  }

  /** Moving every landmark along one axis leaves the feature vector unchanged. */
  lemma FeaturesShiftInvariant(ps: seq<Landmark>, a: Axis, d: real)
    requires |ps| > 0
    ensures Features(Shift(ps, a, d)) == Features(ps)
  {
    MinsShift(ps, a, d);
    InputVectorShift(ps, a, d, Mins(ps));
  }

  // ----- one frame -----

  /** One parsed landmark object: a key that is missing (or not a number) is None. */
  datatype Record = Record(x: Option<real>, y: Option<real>, z: Option<real>)

  /** What `json.loads` makes of one text frame: not JSON at all, a JSON value
      other than an array, or an array of landmark objects. */
  datatype Parsed = Malformed | NotAList | List(records: seq<Record>)

  predicate Complete(r: Record)
  {
    r.x.Some? && r.y.Some? && r.z.Some?
  }

  /** The landmarks of a list whose every record has x, y and z; a missing
      key anywhere raises KeyError in the comprehensions. */
  function Points(rs: seq<Record>): (ps: Option<seq<Landmark>>)
    ensures ps.Some? <==> forall i :: 0 <= i < |rs| ==> Complete(rs[i])
    ensures ps.Some? ==> |ps.value| == |rs|
    ensures ps.Some? ==>
      forall i :: 0 <= i < |rs| ==> ps.value[i] == Landmark(rs[i].x.value, rs[i].y.value, rs[i].z.value)
  {
    if forall i :: 0 <= i < |rs| ==> Complete(rs[i]) then
      Some(seq(|rs|, i requires 0 <= i < |rs| && Complete(rs[i]) =>
        Landmark(rs[i].x.value, rs[i].y.value, rs[i].z.value)))
    else None
  }

  /** The reply to one frame, or None when the loop sends nothing and goes on.
      `predict` stands for the network and `torch.max`: any class index. */
  function HandleFrame(p: Parsed, predict: seq<real> -> int): (reply: Option<string>)
    ensures reply.Some? <==>
      p.List? && |p.records| == LandmarkCount && forall i :: 0 <= i < |p.records| ==> Complete(p.records[i])
    ensures reply.Some? ==> reply.value == "?" || (|reply.value| == 1 && IsLetter(reply.value[0]))
  {
    match p
    case Malformed => None
    case NotAList => None
    case List(rs) =>
      if |rs| == 0 || |rs| != LandmarkCount then None
      else
        match Points(rs)
        case None => None
        case Some(ps) => Some(Decode(predict(Features(ps))))
  }

  /** What one frame adds to the replies: its reply, or nothing. */
  function Emit(reply: Option<string>): seq<string>
  {
    if reply.Some? then [reply.value] else []
  }

  /** The replies a loop sends for a sequence of frames, in order, for any
      per-frame handler. */
  function Collect(frames: seq<Parsed>, handle: Parsed -> Option<string>): seq<string>
  {
    if frames == [] then []
    else
      var n := |frames| - 1;
      Collect(frames[..n], handle) + Emit(handle(frames[n]))
  }

  /** Every reply the server sends for a sequence of frames, in order. */
  function Replies(frames: seq<Parsed>, predict: seq<real> -> int): seq<string>
  {
    Collect(frames, f => HandleFrame(f, predict))
  }

  /** The body of the `while True` loop for one received frame: the length
      check, the preprocessing and the lookup, with every exception caught. */
  method Receive(frame: Parsed, predict: seq<real> -> int) returns (reply: Option<string>)
    ensures reply == HandleFrame(frame, predict)
  {
    reply := None;
    match frame {
      case Malformed =>
      case NotAList =>
      case List(rs) =>
        if |rs| != 0 && |rs| == LandmarkCount {
          var pts := Points(rs);
          if pts.Some? {
            var v := Preprocess(pts.value);
            reply := Some(Decode(predict(v)));
          }
        }
    }
  }

  /** The `while True` loop over the frames received before the connection closed. */
  method Serve(frames: seq<Parsed>, predict: seq<real> -> int) returns (replies: seq<string>)
    ensures replies == Replies(frames, predict)
  {
    replies := [];
    var i := 0;
    while i < |frames|
      invariant 0 <= i <= |frames|
      invariant replies == Replies(frames[..i], predict)
    {
      var reply := Receive(frames[i], predict);
      assert frames[..i + 1] == frames[..i] + [frames[i]];
      RepliesSnoc(frames[..i], frames[i], predict);
      if reply.Some? {
        replies := replies + [reply.value];
      }
      i := i + 1;
    }
    assert frames[..|frames|] == frames;
  }

  /** One more frame adds its own reply, if any, at the end. */
  lemma RepliesSnoc(s: seq<Parsed>, f: Parsed, predict: seq<real> -> int)
    ensures Replies(s + [f], predict) == Replies(s, predict) + Emit(HandleFrame(f, predict))
  {
    CollectSnoc(s, f, g => HandleFrame(g, predict));
  }

  lemma CollectSnoc(s: seq<Parsed>, f: Parsed, handle: Parsed -> Option<string>)
    ensures Collect(s + [f], handle) == Collect(s, handle) + Emit(handle(f))
  {
    var sf := s + [f];
    assert sf[..|sf| - 1] == s;
    assert sf[|sf| - 1] == f;
  }

  /** The replies to consecutive batches of frames concatenate: each frame's
      reply depends on that frame alone. */
  lemma {:induction false} CollectAppend(a: seq<Parsed>, b: seq<Parsed>, handle: Parsed -> Option<string>)
    ensures Collect(a + b, handle) == Collect(a, handle) + Collect(b, handle)
    decreases |b|
  {
    if b == [] {
      assert a + b == a;
    } else {
      var n := |b| - 1;
      var init, f := b[..n], b[n];
      assert b == init + [f];
      assert a + b == (a + init) + [f];
      CollectSnoc(a + init, f, handle);
      CollectSnoc(init, f, handle);
      CollectAppend(a, init, handle);
    }
  }

  /** The server's replies to consecutive batches of frames concatenate. */
  lemma RepliesAppend(a: seq<Parsed>, b: seq<Parsed>, predict: seq<real> -> int)
    ensures Replies(a + b, predict) == Replies(a, predict) + Replies(b, predict)
  {
    CollectAppend(a, b, f => HandleFrame(f, predict));
  }

  /** A frame that is dropped does not change what the session replies. */
  lemma DroppedFrameInvisible(a: seq<Parsed>, f: Parsed, b: seq<Parsed>, predict: seq<real> -> int)
    requires HandleFrame(f, predict).None?
    ensures Replies(a + [f] + b, predict) == Replies(a + b, predict)
  {
    RepliesSnoc(a, f, predict);
    assert Replies(a + [f], predict) == Replies(a, predict);
    RepliesAppend(a + [f], b, predict);
    RepliesAppend(a, b, predict);
  }

  /** Every reply is a single letter A-Z or "?", and there is at most one per frame. */
  lemma {:induction false} RepliesAreLabels(frames: seq<Parsed>, predict: seq<real> -> int)
    ensures |Replies(frames, predict)| <= |frames|
    ensures forall j :: 0 <= j < |Replies(frames, predict)| ==>
      var r := Replies(frames, predict)[j]; r == "?" || (|r| == 1 && IsLetter(r[0]))
    decreases |frames|
  {
    if frames != [] {
      var n := |frames| - 1;
      assert frames == frames[..n] + [frames[n]];
      RepliesSnoc(frames[..n], frames[n], predict);
      RepliesAreLabels(frames[..n], predict);
    }
  }
}
