/**
 * remove_box of poisson.cpp: carves a hole in the mesh by removing every
 * node whose position lies in a box.
 */
module Carving {
  import opened Geometry
  import opened Mesh

  /** The indices below m whose position lies outside bb, in increasing order. */
  function Survivors(pos: seq<Point>, bb: Box3D, m: nat): (r: seq<nat>)
    requires m <= |pos|
    ensures forall c :: 0 <= c < |r| ==> r[c] < m
  {
    if m == 0 then []
    else if bb.Contains(pos[m - 1]) then Survivors(pos, bb, m - 1)
    else Survivors(pos, bb, m - 1) + [m - 1]
  }

  /** The indices lo .. hi-1. */
  function Range(lo: nat, hi: nat): (r: seq<nat>)
    requires lo <= hi
    ensures |r| == hi - lo && forall c :: 0 <= c < |r| ==> r[c] == lo + c
  {
    seq(hi - lo, c requires 0 <= c < hi - lo => lo + c)
  }

  /** The positions of the old nodes origin, in that order. */
  function Select(pos: seq<Point>, origin: seq<nat>): (r: seq<Point>)
    requires forall c :: 0 <= c < |origin| ==> origin[c] < |pos|
    ensures |r| == |origin|
  {
    seq(|origin|, c requires 0 <= c < |origin| => pos[origin[c]])
  }

  /** The positions that remain after removing the nodes in bb. */
  function Carved(pos: seq<Point>, bb: Box3D): (r: seq<Point>)
    ensures |r| == |Survivors(pos, bb, |pos|)|
  {
    Select(pos, Survivors(pos, bb, |pos|))
  }

  /**
   * Survivors lists, in strictly increasing order, exactly the indices
   * below m of nodes outside bb.
   */
  lemma {:induction false} SurvivorsSpec(pos: seq<Point>, bb: Box3D, m: nat)
    requires m <= |pos|
    ensures forall c, d :: 0 <= c < d < |Survivors(pos, bb, m)| ==>
      Survivors(pos, bb, m)[c] < Survivors(pos, bb, m)[d]
    ensures forall o :: o in Survivors(pos, bb, m) <==> 0 <= o < m && !bb.Contains(pos[o])
  {
    if m > 0 {
      SurvivorsSpec(pos, bb, m - 1);
    }
  }

  /** When no node lies in bb, every node survives. */
  lemma {:induction false} SurvivorsAll(pos: seq<Point>, bb: Box3D, m: nat)
    requires m <= |pos|
    requires forall o :: 0 <= o < m ==> !bb.Contains(pos[o])
    ensures Survivors(pos, bb, m) == Range(0, m)
  {
    if m > 0 {
      SurvivorsAll(pos, bb, m - 1);
    }
  }

  /** After carving no position lies in bb, and every position outside bb is kept. */
  lemma {:induction false} CarvedSpec(pos: seq<Point>, bb: Box3D)
    ensures forall c :: 0 <= c < |Carved(pos, bb)| ==> !bb.Contains(Carved(pos, bb)[c])
    ensures forall o :: 0 <= o < |pos| && !bb.Contains(pos[o]) ==> pos[o] in Carved(pos, bb)
  {
    var s := Survivors(pos, bb, |pos|);
    SurvivorsSpec(pos, bb, |pos|);
    forall o | 0 <= o < |pos| && !bb.Contains(pos[o]) ensures pos[o] in Carved(pos, bb) {
      var c :| 0 <= c < |s| && s[c] == o;
      assert Carved(pos, bb)[c] == pos[o];
    }
  }

  /** Carving twice with the same box is carving once. */
  lemma {:induction false} CarveIdempotent(pos: seq<Point>, bb: Box3D)
    ensures Survivors(Carved(pos, bb), bb, |Carved(pos, bb)|) == Range(0, |Carved(pos, bb)|)
    ensures Carved(Carved(pos, bb), bb) == Carved(pos, bb)
  {
    var p := Carved(pos, bb);
    CarvedSpec(pos, bb);
    SurvivorsAll(p, bb, |p|);
  }

  /**
   * The old index of each node of the graph while RemoveBox has looked at
   * the first o old nodes: the survivors so far, then the unvisited rest.
   */
  function Origin(pos: seq<Point>, bb: Box3D, o: nat): (r: seq<nat>)
    requires o <= |pos|
    ensures forall c :: 0 <= c < |r| ==> r[c] < |pos|
  {
    Survivors(pos, bb, o) + Range(o, |pos|)
  }

  lemma OriginStep(pos: seq<Point>, bb: Box3D, o: nat)
    requires o < |pos|
    ensures var i := |Survivors(pos, bb, o)|;
      && i < |Origin(pos, bb, o)| && Origin(pos, bb, o)[i] == o
      && Origin(pos, bb, o + 1) ==
         if bb.Contains(pos[o]) then Origin(pos, bb, o)[..i] + Origin(pos, bb, o)[i + 1..]
         else Origin(pos, bb, o)
  {
    var s, n := Survivors(pos, bb, o), |pos|;
    assert Range(o, n) == [o] + Range(o + 1, n);
    assert Origin(pos, bb, o) == s + [o] + Range(o + 1, n);
    assert (s + [o] + Range(o + 1, n))[..|s|] == s;
    assert (s + [o] + Range(o + 1, n))[|s| + 1..] == Range(o + 1, n);
  }


  /** adj is the subgraph of adj0 induced by the old nodes origin. */
  predicate Induced(adj: seq<seq<nat>>, adj0: seq<seq<nat>>, origin: seq<nat>)
  {
    && |adj| == |origin|
    && (forall c :: 0 <= c < |origin| ==> origin[c] < |adj0|)
    && forall c, d :: 0 <= c < |origin| && 0 <= d < |origin| && origin[c] < |adj0| ==>
         (d in adj[c] <==> origin[d] in adj0[origin[c]])
  }

  lemma EraseKeepsPositions(pos0: seq<Point>, origin: seq<nat>, k: nat)
    requires forall c :: 0 <= c < |origin| ==> origin[c] < |pos0|
    requires k < |origin|
    ensures var pos := Select(pos0, origin);
      pos[..k] + pos[k + 1..] == Select(pos0, origin[..k] + origin[k + 1..])
  {
    var pos := Select(pos0, origin);
    var origin', pos' := origin[..k] + origin[k + 1..], pos[..k] + pos[k + 1..];
    forall c | 0 <= c < |origin'| ensures pos'[c] == Select(pos0, origin')[c] {
      assert origin'[c] == origin[Unshift(c, k)] && pos'[c] == pos[Unshift(c, k)];
    }
  }

  lemma EraseKeepsInducedEdges(adj0: seq<seq<nat>>, adj: seq<seq<nat>>, origin: seq<nat>, k: nat)
    requires Induced(adj, adj0, origin) && k < |adj|
    ensures Induced(EraseAdj(adj, k), adj0, origin[..k] + origin[k + 1..])
  {
    var origin' := origin[..k] + origin[k + 1..];
    forall c | 0 <= c < |origin'| ensures origin'[c] < |adj0| {
      assert origin'[c] == origin[Unshift(c, k)];
    }
    forall c, d | 0 <= c < |origin'| && 0 <= d < |origin'| && origin'[c] < |adj0|
      ensures d in EraseAdj(adj, k)[c] <==> origin'[d] in adj0[origin'[c]]
    {
      ReindexMember(adj[Unshift(c, k)], k, d);
      assert origin'[c] == origin[Unshift(c, k)] && origin'[d] == origin[Unshift(d, k)];
    }
  }

  /**
   * The state of RemoveBox's loop: i nodes of the graph (pos, adj) are
   * checked, standing for the first o old nodes of (pos0, adj0); the rest
   * are the old nodes o .. in order.
   */
  predicate CarveState(
    pos0: seq<Point>, adj0: seq<seq<nat>>, bb: Box3D,
    pos: seq<Point>, adj: seq<seq<nat>>, i: nat, o: nat)
  {
    && i <= o <= |pos0|
    && |Survivors(pos0, bb, o)| == i
    && pos == Select(pos0, Origin(pos0, bb, o))
    && Induced(adj, adj0, Origin(pos0, bb, o))
    && (i == o ==> pos == pos0 && adj == adj0)
  }

  lemma CarveStart(pos0: seq<Point>, adj0: seq<seq<nat>>, bb: Box3D)
    requires |adj0| == |pos0|
    ensures CarveState(pos0, adj0, bb, pos0, adj0, 0, 0)
  {
    assert Origin(pos0, bb, 0) == Range(0, |pos0|);
  }

  /** One turn of RemoveBox's loop: node i is removed if it lies in bb, otherwise kept. */
  lemma CarveStep(
    pos0: seq<Point>, adj0: seq<seq<nat>>, bb: Box3D,
    pos: seq<Point>, adj: seq<seq<nat>>, i: nat, o: nat)
    requires CarveState(pos0, adj0, bb, pos, adj, i, o) && i < |pos|
    ensures o < |pos0| && pos[i] == pos0[o]
    ensures bb.Contains(pos[i]) ==>
      CarveState(pos0, adj0, bb, pos[..i] + pos[i + 1..], EraseAdj(adj, i), i, o + 1)
    ensures !bb.Contains(pos[i]) ==> CarveState(pos0, adj0, bb, pos, adj, i + 1, o + 1)
  {
    OriginStep(pos0, bb, o);
    if bb.Contains(pos[i]) {
      EraseKeepsPositions(pos0, Origin(pos0, bb, o), i);
      EraseKeepsInducedEdges(adj0, adj, Origin(pos0, bb, o), i);
    }
  }

  /** What RemoveBox's loop leaves behind, once it has looked at every old node. */
  lemma {:induction false} CarvingDone(
    pos0: seq<Point>, adj0: seq<seq<nat>>, bb: Box3D,
    pos: seq<Point>, adj: seq<seq<nat>>, i: nat, o: nat)
    requires CarveState(pos0, adj0, bb, pos, adj, i, o) && i == |pos|
    ensures pos == Carved(pos0, bb)
    ensures forall c :: 0 <= c < |pos| ==> !bb.Contains(pos[c])
    ensures Induced(adj, adj0, Survivors(pos0, bb, |pos0|))
    ensures (forall q :: 0 <= q < |pos0| ==> !bb.Contains(pos0[q])) ==> pos == pos0 && adj == adj0
  {
    assert |Origin(pos0, bb, o)| == i + |pos0| - o;
    assert o == |pos0|;
    assert Range(o, |pos0|) == [];
    var s := Survivors(pos0, bb, |pos0|);
    assert Origin(pos0, bb, o) == s;
    SurvivorsSpec(pos0, bb, |pos0|);
    forall c | 0 <= c < |pos| ensures !bb.Contains(pos[c]) {
      assert s[c] in s;
    }
    if forall q :: 0 <= q < |pos0| ==> !bb.Contains(pos0[q]) {
      SurvivorsAll(pos0, bb, |pos0|);
    }
  }

  /**
   * Removes from g every node whose position lies in bb, with its incident
   * edges.  The nodes that remain are those outside bb, in their old
   * order, joined exactly by the edges they had; if no node lies in bb the
   * graph is left as it was.
   */
  method RemoveBox(g: Graph, bb: Box3D)
    requires g.Valid()
    modifies g
    ensures g.Valid()
    ensures g.pos == Carved(old(g.pos), bb)
    ensures forall c :: 0 <= c < g.NumNodes() ==> !bb.Contains(g.pos[c])
    ensures Induced(g.adj, old(g.adj), Survivors(old(g.pos), bb, |old(g.pos)|))
    ensures (forall o :: 0 <= o < |old(g.pos)| ==> !bb.Contains(old(g.pos)[o])) ==>
      g.pos == old(g.pos) && g.adj == old(g.adj)
  {
    ghost var pos0, adj0 := g.pos, g.adj;
    ghost var o := 0;
    var i := 0;
    CarveStart(pos0, adj0, bb);
    while i < |g.pos|
      invariant g.Valid()
      invariant CarveState(pos0, adj0, bb, g.pos, g.adj, i, o)
      decreases |g.pos| - i
    {
      CarveStep(pos0, adj0, bb, g.pos, g.adj, i, o);
      if bb.Contains(g.pos[i]) {
        g.RemoveNode(i);
      } else {
        i := i + 1;
      }
      o := o + 1;
    }
    CarvingDone(pos0, adj0, bb, g.pos, g.adj, i, o);
  }
}
