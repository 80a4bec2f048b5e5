/** Points and axis-aligned boxes of the mesh, over exact reals. */
module Geometry {

  /** A 3D position. */
  datatype Point = Point(x: real, y: real, z: real)

  /** Componentwise difference p - q. */
  function Sub(p: Point, q: Point): Point
  {
    Point(p.x - q.x, p.y - q.y, p.z - q.z)
  }

  function Abs(r: real): (a: real)
    ensures a >= 0.0 && (a == r || a == -r)
  {
    if r < 0.0 then -r else r
  }

  function Max(a: real, b: real): (m: real)
    ensures m >= a && m >= b && (m == a || m == b)
  {
    if a < b then b else a
  }

  /** The infinity norm: the largest absolute coordinate. */
  function NormInf(p: Point): (r: real)
    ensures Abs(p.x) <= r && Abs(p.y) <= r && Abs(p.z) <= r
    ensures r == Abs(p.x) || r == Abs(p.y) || r == Abs(p.z)
  {
    Max(Abs(p.x), Max(Abs(p.y), Abs(p.z)))
  }

  /**
   * The closed axis-aligned box between the corners lo and hi, read with
   * lo <= hi on every axis; a box with lo > hi on some axis contains nothing.
   */
  datatype Box3D = Box3D(lo: Point, hi: Point)
  {
    predicate Contains(p: Point)
    {
      lo.x <= p.x <= hi.x && lo.y <= p.y <= hi.y && lo.z <= p.z <= hi.z
    }
  }

  /** Distance in the infinity norm. */
  lemma {:induction false} NormInfTriangle(p: Point, q: Point)
    ensures NormInf(Sub(p, q)) >= NormInf(p) - NormInf(q)
  {
    var d := Sub(p, q);
    assert Abs(p.x) <= Abs(d.x) + Abs(q.x);
    assert Abs(p.y) <= Abs(d.y) + Abs(q.y);
    assert Abs(p.z) <= Abs(d.z) + Abs(q.z);
  }
}
