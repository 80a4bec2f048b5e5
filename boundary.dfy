/**
 * The boundary classifier g_BCs of poisson.cpp: a first-match rule over a
 * node's position that either fixes a Dirichlet value or leaves the node to
 * the forcing function.
 */
module Boundary {
  import opened Geometry

  /** Infinity-norm radius of the region around each hole centre. */
  const HoleRadius: real := 0.2

  /** The central slab [(-0.6,-0.2,-1), (0.6,0.2,1)]. */
  const CentralBox: Box3D := Box3D(Point(-0.6, -0.2, -1.0), Point(0.6, 0.2, 1.0))

  /** The sentinel g_BCs returns for a node that is not constrained. */
  const Unconstrained: int := -1

  predicate OnOuterBoundary(p: Point)
  {
    NormInf(p) == 1.0
  }

  /** p lies within HoleRadius of c in the infinity norm. */
  predicate Near(p: Point, c: Point)
  {
    NormInf(Sub(p, c)) < HoleRadius
  }

  /** The four hole centres (+-0.6, +-0.6, 0), in the order g_BCs tests them. */
  predicate NearHole(p: Point)
  {
    || Near(p, Point(0.6, 0.6, 0.0))
    || Near(p, Point(-0.6, 0.6, 0.0))
    || Near(p, Point(0.6, -0.6, 0.0))
    || Near(p, Point(-0.6, -0.6, 0.0))
  }

  /** The classification as a tagged value: a fixed value or "use the forcing function". */
  datatype BoundaryCondition = Dirichlet(value: real) | Interior

  /**
   * The classifier with the values the code evidently intends, -0.2 on
   * the hole boundaries included.
   */
  function Classify(p: Point): (c: BoundaryCondition)
    ensures c.Dirichlet? ==> c.value == 0.0 || c.value == -0.2 || c.value == 1.0
  {
    if OnOuterBoundary(p) then Dirichlet(0.0)
    else if NearHole(p) then Dirichlet(-0.2)
    else if CentralBox.Contains(p) then Dirichlet(1.0)
    else Interior
  }

  /** C++'s conversion of a double to int: truncation toward zero. */
  function TruncToInt(x: real): (r: int)
    ensures 0.0 <= x ==> r as real <= x < r as real + 1.0
    ensures x < 0.0 ==> r as real - 1.0 < x <= r as real
  {
    if x >= 0.0 then x.Floor else -((-x).Floor)
  }

  /**
   * g_BCs as written: its result type is int, so the -0.2 of the hole
   * branch is converted to int on return.
   */
  function BoundaryValue(p: Point): (r: int)
    ensures r == Unconstrained <==> Classify(p) == Interior
    ensures Classify(p).Dirichlet? ==> r == TruncToInt(Classify(p).value)
    ensures r == 0 || r == 1 || r == Unconstrained
  {
    if OnOuterBoundary(p) then 0
    else if NearHole(p) then TruncToInt(-0.2)
    else if CentralBox.Contains(p) then 1
    else Unconstrained
  }

  /** The hole regions lie strictly inside the domain and away from the central slab. */
  lemma {:induction false} HoleRegionsAreSeparate(p: Point)
    requires NearHole(p)
    ensures !OnOuterBoundary(p) && !CentralBox.Contains(p)
    ensures Classify(p) == Dirichlet(-0.2)
  {
    var c :=
      if Near(p, Point(0.6, 0.6, 0.0)) then Point(0.6, 0.6, 0.0)
      else if Near(p, Point(-0.6, 0.6, 0.0)) then Point(-0.6, 0.6, 0.0)
      else if Near(p, Point(0.6, -0.6, 0.0)) then Point(0.6, -0.6, 0.0)
      else Point(-0.6, -0.6, 0.0);
    assert Near(p, c);
    NormInfTriangle(p, c);
    assert Abs(p.y - c.y) < 0.2;
  }

  /**
   * The outer boundary and the central slab overlap on the slab's top and
   * bottom faces; there the outer boundary wins.
   */
  lemma OuterBoundaryTakesPrecedence()
    ensures CentralBox.Contains(Point(0.0, 0.0, 1.0)) && OnOuterBoundary(Point(0.0, 0.0, 1.0))
    ensures BoundaryValue(Point(0.0, 0.0, 1.0)) == 0
  {
  }

  /** On every hole point g_BCs returns 0, while the intended value is -0.2. */
  lemma {:induction false} HoleValueTruncated(p: Point)
    requires NearHole(p)
    ensures Classify(p) == Dirichlet(-0.2)
    ensures BoundaryValue(p) == 0
  {
    HoleRegionsAreSeparate(p);
  }

  /** The hole centre (0.6, 0.6, 0) itself is such a point. */
  lemma HoleCentreExample()
    ensures NearHole(Point(0.6, 0.6, 0.0))
    ensures BoundaryValue(Point(0.6, 0.6, 0.0)) == 0
  {
    assert NormInf(Sub(Point(0.6, 0.6, 0.0), Point(0.6, 0.6, 0.0))) == 0.0;
  }

  /** No point of the band |x| < 0.4 is near a hole centre, whose x is +-0.6. */
  lemma {:induction false} AwayFromHoles(p: Point)
    requires -0.4 < p.x < 0.4
    ensures !NearHole(p)
  {
    forall c: Point | c.x == 0.6 || c.x == -0.6 ensures !Near(p, c) {
      assert Abs(Sub(p, c).x) >= HoleRadius;
    }
  }

  /**
   * A point with |x| < 0.4 and 0.2 < |y| < 1, strictly inside the domain,
   * falls through every test of g_BCs.
   */
  lemma {:induction false} FreeBand(p: Point)
    requires -0.4 < p.x < 0.4 && 0.2 < Abs(p.y) < 1.0 && Abs(p.z) < 1.0
    ensures Classify(p) == Interior && BoundaryValue(p) == Unconstrained
  {
    AwayFromHoles(p);
    assert NormInf(p) < 1.0;
  }

  /** For example (0, 0.5, 0) and (0, -0.5, 0). */
  lemma FreePointsExample()
    ensures Classify(Point(0.0, 0.5, 0.0)) == Interior && Classify(Point(0.0, -0.5, 0.0)) == Interior
    ensures BoundaryValue(Point(0.0, 0.5, 0.0)) == Unconstrained
    ensures BoundaryValue(Point(0.0, -0.5, 0.0)) == Unconstrained
  {
    FreeBand(Point(0.0, 0.5, 0.0));
    FreeBand(Point(0.0, -0.5, 0.0));
  }

  /** A node at (1, 0, 0) is on the outer boundary; the origin lies in the central slab. */
  lemma ClassifierScenarios()
    ensures BoundaryValue(Point(1.0, 0.0, 0.0)) == 0
    ensures BoundaryValue(Point(0.0, 0.0, 0.0)) == 1
  {
  }
}
