/** Value types shared by the whole pipeline: the optional value, the
    normalised hand landmark and the axis selector used by the shift lemmas. */
module Landmarks {

  datatype Option<+T> = None | Some(value: T)

  /** One normalised landmark: x and y relative to the frame, z a relative depth. */
  datatype Landmark = Landmark(x: real, y: real, z: real)

  datatype Axis = X | Y | Z

  function Coord(p: Landmark, a: Axis): real
  {
    match a
    case X => p.x
    case Y => p.y
    case Z => p.z
  }

  /** The landmark with `d` added to its coordinate on axis `a`. */
  function ShiftPoint(p: Landmark, a: Axis, d: real): (q: Landmark)
    ensures Coord(q, a) == Coord(p, a) + d
    ensures forall b :: b != a ==> Coord(q, b) == Coord(p, b)
  {
    match a
    case X => p.(x := p.x + d)
    case Y => p.(y := p.y + d)
    case Z => p.(z := p.z + d)
  }

  /** Every landmark of a hand moved by `d` along axis `a`. */
  function Shift(ps: seq<Landmark>, a: Axis, d: real): (r: seq<Landmark>)
    ensures |r| == |ps|
    ensures forall i :: 0 <= i < |ps| ==> r[i] == ShiftPoint(ps[i], a, d)
  {
    seq(|ps|, i requires 0 <= i < |ps| => ShiftPoint(ps[i], a, d))
  }

  /** The coordinates of every landmark on one axis, in input order. */
  function Column(ps: seq<Landmark>, a: Axis): (c: seq<real>)
    ensures |c| == |ps|
    ensures forall i :: 0 <= i < |ps| ==> c[i] == Coord(ps[i], a)
  {
    seq(|ps|, i requires 0 <= i < |ps| => Coord(ps[i], a))
  }
}
