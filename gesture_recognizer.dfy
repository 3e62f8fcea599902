/** The geometric gesture classifier: five open/closed finger flags read off
    the landmarks of one hand, matched against four fixed patterns. */
module GestureRecognizer {
  import opened Landmarks

  datatype Gesture = Hello | Yes | No | Peace

  /** The open/closed state of thumb, index, middle, ring and pinky. */
  datatype Fingers = Fingers(thumb: bool, index: bool, middle: bool, ring: bool, pinky: bool)

  /** Landmark indices of the anatomical scheme that the classifier reads. */
  const ThumbTip := 4
  const IndexMcp := 5
  const PinkyMcp := 17
  const UsedLandmarks: set<nat> := {4, 5, 6, 8, 10, 12, 14, 16, 17, 18, 20}

  /** A finger is open when its tip is above (smaller y than) its PIP joint. */
  predicate IsFingerOpen(lms: seq<Landmark>, tip: nat, pip: nat)
    requires tip < |lms| && pip < |lms|
  {
    lms[tip].y < lms[pip].y
  }

  /** Squared distance in the x,y plane; z is ignored. */
  function SqDist(a: Landmark, b: Landmark): (d: real)
    ensures d >= 0.0
  {
    (a.x - b.x) * (a.x - b.x) + (a.y - b.y) * (a.y - b.y)
  }

  /** The thumb is open when its tip is more than 1.5 hand widths away from the
      pinky base; compared on squared distances, 1.5 becomes 2.25. */
  predicate IsThumbOpen(lms: seq<Landmark>)
    requires |lms| >= 21
  {
    SqDist(lms[ThumbTip], lms[PinkyMcp]) > 2.25 * SqDist(lms[IndexMcp], lms[PinkyMcp])
  }

  function Flags(lms: seq<Landmark>): Fingers
    requires |lms| >= 21
  {
    Fingers(IsThumbOpen(lms),
            IsFingerOpen(lms, 8, 6),
            IsFingerOpen(lms, 12, 10),
            IsFingerOpen(lms, 16, 14),
            IsFingerOpen(lms, 20, 18))
  }

  const AllOpen := Fingers(true, true, true, true, true)
  const AllClosed := Fingers(false, false, false, false, false)
  const ThumbOnly := Fingers(true, false, false, false, false)
  const IndexAndMiddle := Fingers(false, true, true, false, false)

  /** The pattern match, checked in the source's precedence order. Each
      gesture is returned exactly for its own pattern, so the four patterns
      are mutually exclusive and the order of the checks does not matter. */
  function Classify(f: Fingers): (g: Option<Gesture>)
    ensures g == Some(Hello) <==> f == AllOpen
    ensures g == Some(No) <==> f == AllClosed
    ensures g == Some(Yes) <==> f == ThumbOnly
    ensures g == Some(Peace) <==> f == IndexAndMiddle
    ensures g == None <==> f !in {AllOpen, AllClosed, ThumbOnly, IndexAndMiddle}
  {
    if f.thumb && f.index && f.middle && f.ring && f.pinky then Some(Hello)
    else if !f.thumb && !f.index && !f.middle && !f.ring && !f.pinky then Some(No)
    else if f.thumb && !f.index && !f.middle && !f.ring && !f.pinky then Some(Yes)
    else if !f.thumb && f.index && f.middle && !f.ring && !f.pinky then Some(Peace)
    else None
  }

  /** GestureRecognizer.recognize. A hand of 1 to 20 points is not guarded by
      the source (it reads past the end), so such inputs are excluded. */
  function Recognize(lms: seq<Landmark>): (g: Option<Gesture>)
    requires |lms| == 0 || |lms| >= 21
    ensures |lms| == 0 ==> g == None
    ensures |lms| >= 21 ==> (g == Some(Hello) <==> Flags(lms) == AllOpen)
    ensures |lms| >= 21 ==> (g == Some(No) <==> Flags(lms) == AllClosed)
    ensures |lms| >= 21 ==> (g == Some(Yes) <==> Flags(lms) == ThumbOnly)
    ensures |lms| >= 21 ==> (g == Some(Peace) <==> Flags(lms) == IndexAndMiddle)
  {
    if |lms| == 0 then None else Classify(Flags(lms))
  }

  // ----- the thumb test on distances -----

  lemma MulPos(a: real, b: real)
    requires a > 0.0 && b > 0.0
    ensures a * b > 0.0
  {
  }

  lemma MulNonNeg(a: real, b: real)
    requires a >= 0.0 && b >= 0.0
    ensures a * b >= 0.0
  {
  }

  lemma SquareMonotone(a: real, b: real)
    requires a >= 0.0 && b >= 0.0
    ensures a > b <==> a * a > b * b
  {
    if a > b {
      assert a * a - b * b == (a - b) * (a + b);
      MulPos(a - b, a + b);
    } else {
      assert b * b - a * a == (b - a) * (a + b);
      MulNonNeg(b - a, a + b);
    }
  }

  /** The squared test agrees with the source's test on square roots: for any
      non-negative dTip and dWidth whose squares are the two squared
      distances, the thumb is open exactly when dTip > 1.5 * dWidth. */
  lemma ThumbTestOnDistances(lms: seq<Landmark>, dTip: real, dWidth: real)
    requires |lms| >= 21
    requires dTip >= 0.0 && dWidth >= 0.0
    requires dTip * dTip == SqDist(lms[ThumbTip], lms[PinkyMcp])
    requires dWidth * dWidth == SqDist(lms[IndexMcp], lms[PinkyMcp])
    ensures IsThumbOpen(lms) <==> dTip > dWidth * 1.5
  {
    SquareMonotone(dTip, dWidth * 1.5);
    assert (dWidth * 1.5) * (dWidth * 1.5) == 2.25 * (dWidth * dWidth);
  }

  /** A thumbs-up: thumb tip twice the hand width from the pinky base, a
      non-degenerate hand and every other finger closed, gives Yes. */
  lemma ThumbsUpIsYes(lms: seq<Landmark>)
    requires |lms| >= 21
    requires SqDist(lms[ThumbTip], lms[PinkyMcp]) == 4.0 * SqDist(lms[IndexMcp], lms[PinkyMcp])
    requires SqDist(lms[IndexMcp], lms[PinkyMcp]) > 0.0
    requires lms[8].y >= lms[6].y && lms[12].y >= lms[10].y
    requires lms[16].y >= lms[14].y && lms[20].y >= lms[18].y
    ensures Recognize(lms) == Some(Yes)
  {
    assert Flags(lms) == ThumbOnly;
  }

  // ----- invariance -----

  /** Every x and y multiplied by k; z is left alone. */
  function Scale(lms: seq<Landmark>, k: real): (r: seq<Landmark>)
    ensures |r| == |lms|
    ensures forall i :: 0 <= i < |lms| ==> r[i] == Landmark(k * lms[i].x, k * lms[i].y, lms[i].z)
  {
    seq(|lms|, i requires 0 <= i < |lms| => Landmark(k * lms[i].x, k * lms[i].y, lms[i].z))
  }

  lemma SqDistShift(p: Landmark, q: Landmark, a: Axis, d: real)
    ensures SqDist(ShiftPoint(p, a, d), ShiftPoint(q, a, d)) == SqDist(p, q)
  {
  }

  /** Moving the whole hand along any axis does not change the gesture. */
  lemma {:induction false} RecognizeShiftInvariant(lms: seq<Landmark>, a: Axis, d: real)
    requires |lms| == 0 || |lms| >= 21
    ensures Recognize(Shift(lms, a, d)) == Recognize(lms)
  {
    if |lms| >= 21 {
      var s := Shift(lms, a, d);
      SqDistShift(lms[ThumbTip], lms[PinkyMcp], a, d);
      SqDistShift(lms[IndexMcp], lms[PinkyMcp], a, d);
      assert IsThumbOpen(s) == IsThumbOpen(lms);
      assert Flags(s) == Flags(lms);
    }
  }

  lemma SqDistScale(p: Landmark, q: Landmark, p': Landmark, q': Landmark, k: real)
    requires p' == Landmark(k * p.x, k * p.y, p.z) && q' == Landmark(k * q.x, k * q.y, q.z)
    ensures SqDist(p', q') == k * (k * SqDist(p, q))
  {
    var dx, dy := p.x - q.x, p.y - q.y;
    assert p'.x - q'.x == k * dx;
    assert p'.y - q'.y == k * dy;
    assert (k * dx) * (k * dx) == k * (k * (dx * dx));
    assert (k * dy) * (k * dy) == k * (k * (dy * dy));
  }

  lemma ScaledBelow(k: real, u: real, v: real)
    requires k > 0.0
    ensures k * u < k * v <==> u < v
  {
    assert k * v - k * u == k * (v - u);
    if u < v {
      MulPos(k, v - u);
    } else {
      MulNonNeg(k, u - v);
    }
  }

  lemma ScaledComparison(k: real, u: real, v: real, su: real, sv: real)
    requires k > 0.0
    requires su == k * (k * u) && sv == k * (k * v)
    ensures su > 2.25 * sv <==> u > 2.25 * v
  {
    ScaledBelow(k, 2.25 * v, u);
    ScaledBelow(k, k * (2.25 * v), k * u);
    assert 2.25 * (k * (k * v)) == k * (k * (2.25 * v));
  }

  lemma ThumbScaleInvariant(lms: seq<Landmark>, k: real)
    requires |lms| >= 21
    requires k > 0.0
    ensures IsThumbOpen(Scale(lms, k)) == IsThumbOpen(lms)
  {
    var s := Scale(lms, k);
    SqDistScale(lms[ThumbTip], lms[PinkyMcp], s[ThumbTip], s[PinkyMcp], k);
    SqDistScale(lms[IndexMcp], lms[PinkyMcp], s[IndexMcp], s[PinkyMcp], k);
    ScaledComparison(k, SqDist(lms[ThumbTip], lms[PinkyMcp]), SqDist(lms[IndexMcp], lms[PinkyMcp]),
                     SqDist(s[ThumbTip], s[PinkyMcp]), SqDist(s[IndexMcp], s[PinkyMcp]));
  }

  lemma FingerScaleInvariant(lms: seq<Landmark>, k: real, tip: nat, pip: nat)
    requires tip < |lms| && pip < |lms|
    requires k > 0.0
    ensures IsFingerOpen(Scale(lms, k), tip, pip) == IsFingerOpen(lms, tip, pip)
  {
    ScaledBelow(k, lms[tip].y, lms[pip].y);
  }

  /** Scaling every x and y by the same positive factor does not change the
      gesture: the finger tests compare y values and the thumb test is a ratio. */
  lemma RecognizeScaleInvariant(lms: seq<Landmark>, k: real)
    requires |lms| == 0 || |lms| >= 21
    requires k > 0.0
    ensures Recognize(Scale(lms, k)) == Recognize(lms)
  {
    if |lms| >= 21 {
      ThumbScaleInvariant(lms, k);
      FingerScaleInvariant(lms, k, 8, 6);
      FingerScaleInvariant(lms, k, 12, 10);
      FingerScaleInvariant(lms, k, 16, 14);
      FingerScaleInvariant(lms, k, 20, 18);
      assert Flags(Scale(lms, k)) == Flags(lms);
    }
  }

  /** Two hands that agree on x and y at landmark i. */
  predicate SameAt(a: seq<Landmark>, b: seq<Landmark>, i: nat)
  {
    i < |a| && i < |b| && a[i].x == b[i].x && a[i].y == b[i].y
  }

  /** Only landmarks 4, 5, 6, 8, 10, 12, 14, 16, 17, 18 and 20, and only
      their x and y, influence the result. */
  lemma RecognizeReadsOnlyUsedLandmarks(a: seq<Landmark>, b: seq<Landmark>)
    requires |a| >= 21 && |b| >= 21
    requires forall i :: i in UsedLandmarks ==> SameAt(a, b, i)
    ensures Recognize(a) == Recognize(b)
  {
    assert SameAt(a, b, 4) && SameAt(a, b, 5) && SameAt(a, b, 17);
    assert SameAt(a, b, 6) && SameAt(a, b, 8) && SameAt(a, b, 10) && SameAt(a, b, 12);
    assert SameAt(a, b, 14) && SameAt(a, b, 16) && SameAt(a, b, 18) && SameAt(a, b, 20);
    assert Flags(a) == Flags(b);
  }
}
