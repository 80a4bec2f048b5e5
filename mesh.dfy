/**
 * The mesh graph that poisson.cpp treats as a matrix.  Nodes are the indices
 * 0 .. n-1 in node-iteration order; node i has position pos[i] and adj[i]
 * lists node2() of each of its incident edges, in edge-iteration order.
 */
module Mesh {
  import opened Geometry

  /** No element occurs twice in s. */
  predicate Distinct(s: seq<nat>)
  {
    forall e, f :: 0 <= e < f < |s| ==> s[e] != s[f]
  }

  /**
   * An undirected simple graph over n = |pos| nodes: neighbours are nodes,
   * no node is its own neighbour, no edge is listed twice, and adjacency
   * is symmetric.
   */
  predicate WellFormed(pos: seq<Point>, adj: seq<seq<nat>>)
  {
    && |adj| == |pos|
    && (forall i :: 0 <= i < |adj| ==> Distinct(adj[i]))
    && (forall i, e :: 0 <= i < |adj| && 0 <= e < |adj[i]| ==> adj[i][e] < |adj| && adj[i][e] != i)
    && (forall i, j :: 0 <= i < |adj| && 0 <= j < |adj| && j in adj[i] ==> i in adj[j])
  }

  /** Number of edges incident to node i. */
  function Degree(adj: seq<seq<nat>>, i: nat): nat
    requires i < |adj|
  {
    |adj[i]|
  }

  /** Whether an edge from i to j is stored. */
  predicate HasEdge(adj: seq<seq<nat>>, i: nat, j: nat)
    requires i < |adj|
  {
    j in adj[i]
  }

  /** Index that node c of the graph after erasing node k had before. */
  function Unshift(c: nat, k: nat): nat
  {
    if c < k then c else c + 1
  }

  /** Index that node x, other than k, has after erasing node k. */
  function Shift(x: nat, k: nat): nat
    requires x != k
  {
    if x < k then x else x - 1
  }

  /** A neighbour list after erasing node k: k is dropped, later indices move down. */
  function Reindex(s: seq<nat>, k: nat): (r: seq<nat>)
    ensures |r| <= |s|
  {
    if s == [] then []
    else if s[0] == k then Reindex(s[1..], k)
    else [Shift(s[0], k)] + Reindex(s[1..], k)
  }

  /** The adjacency after erasing node k and its incident edges. */
  function EraseAdj(adj: seq<seq<nat>>, k: nat): (r: seq<seq<nat>>)
    requires k < |adj|
    ensures |r| == |adj| - 1
  {
    seq(|adj| - 1, c requires 0 <= c < |adj| - 1 => Reindex(adj[Unshift(c, k)], k))
  }

  lemma {:induction false} ReindexMember(s: seq<nat>, k: nat, x: nat)
    ensures x in Reindex(s, k) <==> Unshift(x, k) in s
  {
    if s != [] {
      ReindexMember(s[1..], k, x);
      assert s == [s[0]] + s[1..];
    }
  }

  lemma {:induction false} ReindexDistinct(s: seq<nat>, k: nat)
    requires Distinct(s)
    ensures Distinct(Reindex(s, k))
  {
    if s != [] {
      ReindexDistinct(s[1..], k);
      if s[0] != k {
        var t := Reindex(s[1..], k);
        ReindexMember(s[1..], k, Shift(s[0], k));
        assert Shift(s[0], k) !in t;
        var r := [Shift(s[0], k)] + t;
        forall e, f | 0 <= e < f < |r| ensures r[e] != r[f] {
          if e == 0 {
            assert r[f] in t;
          } else {
            assert r[e] == t[e - 1] && r[f] == t[f - 1];
          }
        }
      }
    }
  }

  /** Erasing a node from a simple undirected graph leaves one. */
  lemma {:induction false} EraseWellFormed(pos: seq<Point>, adj: seq<seq<nat>>, k: nat)
    requires WellFormed(pos, adj) && k < |pos|
    ensures WellFormed(pos[..k] + pos[k + 1..], EraseAdj(adj, k))
  {
    var adj' := EraseAdj(adj, k);
    forall c | 0 <= c < |adj'| ensures Distinct(adj'[c]) {
      ReindexDistinct(adj[Unshift(c, k)], k);
    }
    forall c, e | 0 <= c < |adj'| && 0 <= e < |adj'[c]| ensures adj'[c][e] < |adj'| && adj'[c][e] != c {
      ReindexMember(adj[Unshift(c, k)], k, adj'[c][e]);
      var u := Unshift(adj'[c][e], k);
      var f :| 0 <= f < |adj[Unshift(c, k)]| && adj[Unshift(c, k)][f] == u;
    }
    forall c, d | 0 <= c < |adj'| && 0 <= d < |adj'| && d in adj'[c] ensures c in adj'[d] {
      ReindexMember(adj[Unshift(c, k)], k, d);
      ReindexMember(adj[Unshift(d, k)], k, c);
    }
  }

  /** The mesh graph, updated in place by node removal. */
  class Graph {
    var pos: seq<Point>
    var adj: seq<seq<nat>>

    ghost predicate Valid()
      reads this
    {
      WellFormed(pos, adj)
    }

    constructor (pos: seq<Point>, adj: seq<seq<nat>>)
      requires WellFormed(pos, adj)
      ensures Valid() && this.pos == pos && this.adj == adj
    {
      this.pos := pos;
      this.adj := adj;
    }

    function NumNodes(): nat
      reads this
    {
      |pos|
    }

    /**
     * Removes node k and its incident edges; the nodes after k move down
     * one index, keeping their order.
     */
    method RemoveNode(k: nat)
      requires Valid() && k < NumNodes()
      modifies this
      ensures Valid()
      ensures pos == old(pos[..k] + pos[k + 1..])
      ensures adj == EraseAdj(old(adj), k)
    {
      EraseWellFormed(pos, adj, k);
      pos := pos[..k] + pos[k + 1..];
      adj := EraseAdj(adj, k);
    }
  }
}
