/**
 * GraphSymetricMatrix of poisson.cpp: the mesh graph read as an n x n
 * matrix without storing it.  L is the graph Laplacian, A the system
 * matrix after Dirichlet rows and columns are replaced, and mult the
 * matrix-free product.
 */
module Operator {
  import opened Geometry
  import opened Boundary
  import opened Mesh

  /** How mult folds the value it computed into an output slot (Assign::apply). */
  datatype Assign = Overwrite | AddInto | SubtractFrom

  function Apply(mode: Assign, a: real, b: real): real
  {
    match mode
    case Overwrite => b
    case AddInto => a + b
    case SubtractFrom => a - b
  }

  /** Which of the two matrices a row sum is taken over. */
  datatype Matrix = Laplacian | System

  /** The vector of n ones. */
  function Ones(n: nat): (r: seq<real>)
    ensures |r| == n && forall j :: 0 <= j < n ==> r[j] == 1.0
  {
    seq(n, _ => 1.0)
  }

  /** The set of elements of s. */
  function Elems(s: seq<nat>): set<nat>
  {
    set x | x in s
  }

  /**
   * The matrix over a graph.  It reads the graph's positions and
   * adjacency as they are when it is built; the graph is not changed
   * while the matrix is in use.  bc is the boundary classifier that A
   * consults, g_BCs for a matrix built from a graph; the lemmas below hold
   * whatever classifier it is.
   */
  class GraphSymetricMatrix {
    const pos: seq<Point>
    const adj: seq<seq<nat>>
    const bc: Point -> int

    constructor (g: Graph)
      requires g.Valid()
      ensures Valid() && pos == g.pos && adj == g.adj && bc == BoundaryValue
      ensures GetDim() == g.NumNodes()
    {
      pos := g.pos;
      adj := g.adj;
      bc := BoundaryValue;
    }

    predicate Valid()
    {
      WellFormed(pos, adj)
    }

    /** The dimension of the matrix: the number of nodes. */
    function GetDim(): (r: nat)
      ensures Valid() ==> r == |adj|
    {
      |pos|
    }

    /** Node i carries a Dirichlet condition; mirrors the test g_BCs(i) != -1. */
    predicate Constrained(i: nat)
      requires i < GetDim()
    {
      bc(pos[i]) != Unconstrained
    }

    /** L(i,j), the discrete Laplacian. */
    function L(i: nat, j: nat): (r: int)
      requires Valid() && i < GetDim() && j < GetDim()
      ensures i == j ==> r <= 0 && -r == |adj[i]|
      ensures i != j ==> (r == 1 <==> j in adj[i]) && (r == 0 <==> j !in adj[i])
    {
      if i == j then -(Degree(adj, i) as int)
      else if HasEdge(adj, i, j) || HasEdge(adj, j, i) then 1
      else 0
    }

    /** A(i,j), the coefficient of the constrained linear system. */
    function A(i: nat, j: nat): (r: int)
      requires Valid() && i < GetDim() && j < GetDim()
      ensures Constrained(i) || Constrained(j) ==> r == (if i == j then 1 else 0)
      ensures !Constrained(i) && !Constrained(j) ==> r == L(i, j)
      ensures i != j ==> r == 0 || r == 1
    {
      if i == j && Constrained(i) then 1
      else if i != j && (Constrained(i) || Constrained(j)) then 0
      else L(i, j)
    }

    function Entry(m: Matrix, i: nat, j: nat): int
      requires Valid() && i < GetDim() && j < GetDim()
    {
      if m == Laplacian then L(i, j) else A(i, j)
    }

    /** The contribution of column j to row i of the product with v. */
    function Term(m: Matrix, v: seq<real>, i: nat, j: nat): real
      requires Valid() && i < GetDim() && j < GetDim() <= |v|
    {
      Entry(m, i, j) as real * v[j]
    }

    /** Row i of the matrix times v, over the columns 0 .. k-1. */
    function RowProduct(m: Matrix, v: seq<real>, i: nat, k: nat): real
      requires Valid() && i < GetDim() && k <= GetDim() <= |v|
    {
      if k == 0 then 0.0 else RowProduct(m, v, i, k - 1) + Term(m, v, i, k - 1)
    }

    /** Row i times v over the columns below k that lie in S. */
    function MaskedRowProduct(m: Matrix, v: seq<real>, i: nat, S: set<nat>, k: nat): real
      requires Valid() && i < GetDim() && k <= GetDim() <= |v|
    {
      if k == 0 then 0.0
      else MaskedRowProduct(m, v, i, S, k - 1) + (if k - 1 in S then Term(m, v, i, k - 1) else 0.0)
    }

    /** Row i times v over the columns listed in s, added up left to right. */
    function EdgeSum(m: Matrix, v: seq<real>, i: nat, s: seq<nat>): real
      requires Valid() && i < GetDim() <= |v|
      requires forall e :: 0 <= e < |s| ==> s[e] < GetDim()
    {
      if s == [] then 0.0
      else EdgeSum(m, v, i, s[..|s| - 1]) + Term(m, v, i, s[|s| - 1])
    }

    /**
     * What mult as written holds in temp after visiting nodes 0 .. k-1:
     * A(a,b)*v[b] summed over the incident edges (a,b) of all of them.
     */
    function RunningSum(v: seq<real>, k: nat): real
      requires Valid() && k <= GetDim() <= |v|
    {
      if k == 0 then 0.0
      else RunningSum(v, k - 1) + EdgeSum(System, v, k - 1, adj[k - 1])
    }

    /** The off-diagonal parts of the rows 0 .. k-1 of A times v, added up. */
    function OffDiagonalPrefix(v: seq<real>, k: nat): real
      requires Valid() && k <= GetDim() <= |v|
    {
      if k == 0 then 0.0
      else OffDiagonalPrefix(v, k - 1)
           + (RowProduct(System, v, k - 1, GetDim()) - Term(System, v, k - 1, k - 1))
    }

    /** The Laplacian's diagonal is minus the degree; off it, 1 marks exactly the edges. */
    lemma LaplacianEntries(i: nat, j: nat)
      requires Valid() && i < GetDim() && j < GetDim()
      ensures L(i, i) == -(Degree(adj, i) as int)
      ensures i != j ==> (L(i, j) == 1 <==> HasEdge(adj, i, j)) && (L(i, j) == 0 <==> !HasEdge(adj, i, j))
    {
    }

    lemma LaplacianSymmetric(i: nat, j: nat)
      requires Valid() && i < GetDim() && j < GetDim()
      ensures L(i, j) == L(j, i)
    {
    }

    /**
     * A constrained node has a unit diagonal whatever its degree and is
     * decoupled from every other node; between free nodes A is L.
     */
    lemma SystemEntries(i: nat, j: nat)
      requires Valid() && i < GetDim() && j < GetDim()
      ensures bc(pos[i]) != Unconstrained ==> A(i, i) == 1
      ensures i != j && (bc(pos[i]) != Unconstrained || bc(pos[j]) != Unconstrained) ==> A(i, j) == 0
      ensures bc(pos[i]) == Unconstrained && bc(pos[j]) == Unconstrained ==> A(i, j) == L(i, j)
    {
    }

    /** Rows and columns are replaced together, so A stays symmetric. */
    lemma SystemSymmetric(i: nat, j: nat)
      requires Valid() && i < GetDim() && j < GetDim()
      ensures A(i, j) == A(j, i)
    {
      LaplacianSymmetric(i, j);
    }

    lemma {:induction false} MaskedEmpty(m: Matrix, v: seq<real>, i: nat, k: nat)
      requires Valid() && i < GetDim() && k <= GetDim() <= |v|
      ensures MaskedRowProduct(m, v, i, {}, k) == 0.0
    {
      if k > 0 {
        MaskedEmpty(m, v, i, k - 1);
      }
    }

    lemma {:induction false} MaskedInsert(m: Matrix, v: seq<real>, i: nat, S: set<nat>, x: nat, k: nat)
      requires Valid() && i < GetDim() && k <= GetDim() <= |v| && x !in S
      ensures MaskedRowProduct(m, v, i, S + {x}, k)
        == MaskedRowProduct(m, v, i, S, k) + (if x < k then Term(m, v, i, x) else 0.0)
    {
      if k > 0 {
        MaskedInsert(m, v, i, S, x, k - 1);
      }
    }

    /** Columns outside S whose entries vanish do not add to the row. */
    lemma {:induction false} RowIsMasked(m: Matrix, v: seq<real>, i: nat, S: set<nat>, k: nat)
      requires Valid() && i < GetDim() && k <= GetDim() <= |v|
      requires forall j :: 0 <= j < k && j !in S ==> Term(m, v, i, j) == 0.0
      ensures RowProduct(m, v, i, k) == MaskedRowProduct(m, v, i, S, k)
    {
      if k > 0 {
        RowIsMasked(m, v, i, S, k - 1);
      }
    }

    /** Summing over a list of distinct columns is summing over its set of columns. */
    lemma {:induction false} EdgeSumIsMasked(m: Matrix, v: seq<real>, i: nat, s: seq<nat>)
      requires Valid() && i < GetDim() <= |v|
      requires forall e :: 0 <= e < |s| ==> s[e] < GetDim()
      requires Distinct(s)
      ensures EdgeSum(m, v, i, s) == MaskedRowProduct(m, v, i, Elems(s), GetDim())
    {
      if s == [] {
        assert Elems(s) == {};
        MaskedEmpty(m, v, i, GetDim());
      } else {
        var t, x := s[..|s| - 1], s[|s| - 1];
        EdgeSumIsMasked(m, v, i, t);
        assert s == t + [x];
        assert Elems(s) == Elems(t) + {x};
        assert x !in Elems(t);
        MaskedInsert(m, v, i, Elems(t), x, GetDim());
      }
    }

    /**
     * Row i of either matrix times v is its diagonal term plus the terms
     * of i's incident edges: every other entry of the row is zero.
     */
    lemma {:induction false} RowFromEdges(m: Matrix, v: seq<real>, i: nat)
      requires Valid() && i < GetDim() <= |v|
      ensures RowProduct(m, v, i, GetDim()) == Term(m, v, i, i) + EdgeSum(m, v, i, adj[i])
    {
      var n, s := GetDim(), adj[i];
      var S := Elems(s);
      forall j | 0 <= j < n && j !in S + {i} ensures Term(m, v, i, j) == 0.0 {
        assert !HasEdge(adj, i, j) && !HasEdge(adj, j, i);
      }
      RowIsMasked(m, v, i, S + {i}, n);
      MaskedInsert(m, v, i, S, i, n);
      EdgeSumIsMasked(m, v, i, s);
    }

    lemma {:induction false} EdgeSumOfUnitTerms(m: Matrix, v: seq<real>, i: nat, s: seq<nat>)
      requires Valid() && i < GetDim() <= |v|
      requires forall e :: 0 <= e < |s| ==> s[e] < GetDim() && Term(m, v, i, s[e]) == 1.0
      ensures EdgeSum(m, v, i, s) == |s| as real
    {
      if s != [] {
        EdgeSumOfUnitTerms(m, v, i, s[..|s| - 1]);
      }
    }

    /** Every row of the Laplacian sums to zero. */
    lemma LaplacianRowSumZero(i: nat)
      requires Valid() && i < GetDim()
      ensures RowProduct(Laplacian, Ones(GetDim()), i, GetDim()) == 0.0
    {
      var v := Ones(GetDim());
      RowFromEdges(Laplacian, v, i);
      EdgeSumOfUnitTerms(Laplacian, v, i, adj[i]);
    }

    /** A constrained row is a row of the identity: it reproduces its own unknown. */
    lemma ConstrainedRowIsIdentity(v: seq<real>, i: nat)
      requires Valid() && i < GetDim() <= |v|
      requires Constrained(i)
      ensures RowProduct(System, v, i, GetDim()) == v[i]
    {
      RowIsMasked(System, v, i, {i}, GetDim());
      MaskedInsert(System, v, i, {}, i, GetDim());
      MaskedEmpty(System, v, i, GetDim());
      assert {} + {i} == {i};
    }

    /** Over edges from a free node to free nodes, A and L give the same terms. */
    lemma {:induction false} EdgeSumsAgree(v: seq<real>, i: nat, s: seq<nat>)
      requires Valid() && i < GetDim() <= |v| && !Constrained(i)
      requires forall e :: 0 <= e < |s| ==> s[e] < GetDim() && !Constrained(s[e])
      ensures EdgeSum(System, v, i, s) == EdgeSum(Laplacian, v, i, s)
    {
      if s != [] {
        EdgeSumsAgree(v, i, s[..|s| - 1]);
        assert A(i, s[|s| - 1]) == L(i, s[|s| - 1]);
      }
    }

    lemma DiagonalTermsAgree(v: seq<real>, i: nat)
      requires Valid() && i < GetDim() <= |v| && !Constrained(i)
      ensures Term(System, v, i, i) == Term(Laplacian, v, i, i)
    {
      assert Entry(System, i, i) == Entry(Laplacian, i, i);
    }

    /** A free node whose neighbours are all free has its Laplacian row in A. */
    lemma FreeRowIsLaplacianRow(v: seq<real>, i: nat)
      requires Valid() && i < GetDim() <= |v|
      requires !Constrained(i)
      requires forall e :: 0 <= e < |adj[i]| ==> !Constrained(adj[i][e])
      ensures RowProduct(System, v, i, GetDim()) == RowProduct(Laplacian, v, i, GetDim())
    {
      var s := adj[i];
      assert forall e :: 0 <= e < |s| ==> s[e] < GetDim();
      calc {
        RowProduct(System, v, i, GetDim());
      == { RowFromEdges(System, v, i); }
        Term(System, v, i, i) + EdgeSum(System, v, i, s);
      == { EdgeSumsAgree(v, i, s); DiagonalTermsAgree(v, i); }
        Term(Laplacian, v, i, i) + EdgeSum(Laplacian, v, i, s);
      == { RowFromEdges(Laplacian, v, i); }
        RowProduct(Laplacian, v, i, GetDim());
      }
    }

    /** Such a row of A, like every row of L, sums to zero. */
    lemma FreeRowSumZero(i: nat)
      requires Valid() && i < GetDim()
      requires !Constrained(i)
      requires forall e :: 0 <= e < |adj[i]| ==> !Constrained(adj[i][e])
      ensures RowProduct(System, Ones(GetDim()), i, GetDim()) == 0.0
    {
      FreeRowIsLaplacianRow(Ones(GetDim()), i);
      LaplacianRowSumZero(i);
    }

    /**
     * What mult as written combines into w[k-1] is the running total of
     * the off-diagonal parts of rows 0 .. k-1 of A v, not row k-1 of A v.
     */
    lemma {:induction false} RunningSumIsOffDiagonalPrefix(v: seq<real>, k: nat)
      requires Valid() && k <= GetDim() <= |v|
      ensures RunningSum(v, k) == OffDiagonalPrefix(v, k)
    {
      if k > 0 {
        RunningSumIsOffDiagonalPrefix(v, k - 1);
        RowFromEdges(System, v, k - 1);
      }
    }

    /**
     * Two free nodes joined by one edge, multiplied by (1, 1): A v is
     * (0, 0), while mult as written stores 1 and 2.
     */
    lemma MultAsWrittenCounterexample()
      requires pos == [Point(0.0, 0.5, 0.0), Point(0.0, -0.5, 0.0)] && adj == [[1], [0]]
      requires bc == BoundaryValue
      ensures Valid()
      ensures RowProduct(System, Ones(2), 0, 2) == 0.0 && RowProduct(System, Ones(2), 1, 2) == 0.0
      ensures RunningSum(Ones(2), 1) == 1.0 && RunningSum(Ones(2), 2) == 2.0
    {
      assert WellFormed(pos, adj);
      FreePointsExample();
      var v := Ones(2);
      assert A(0, 0) == -1 && A(0, 1) == 1 && A(1, 0) == 1 && A(1, 1) == -1;
      assert RowProduct(System, v, 0, 2) == 0.0;
      assert RowProduct(System, v, 1, 2) == 0.0;
      assert [1][..0] == [] && [0][..0] == [];
      assert EdgeSum(System, v, 0, [1]) == 1.0;
      assert EdgeSum(System, v, 1, [0]) == 1.0;
    }

    /**
     * The edge loop of mult: adds A(k,j)*v[j] to acc for every incident
     * edge (k, j) of node k, in edge order.
     */
    method AddEdgeTerms(v: seq<real>, k: nat, acc: real) returns (r: real)
      requires Valid() && k < GetDim() <= |v|
      ensures r == acc + EdgeSum(System, v, k, adj[k])
    {
      r := acc;
      var edges := adj[k];
      var e := 0;
      while e < |edges|
        invariant 0 <= e <= |edges|
        invariant r == acc + EdgeSum(System, v, k, edges[..e])
      {
        var j := edges[e];
        assert edges[..e + 1][..e] == edges[..e];
        r := r + Term(System, v, k, j);
        e := e + 1;
      }
      assert edges[..e] == edges;
    }

    /**
     * mult as written: temp starts at 0 once, before the node loop, and
     * only incident edges are walked.  For each node k, w[k] is combined
     * once with the running sum so far; slots past the nodes are untouched.
     */
    method MultAsWritten(v: seq<real>, w: array<real>, mode: Assign)
      requires Valid() && |v| == w.Length && GetDim() <= w.Length
      modifies w
      ensures forall k :: 0 <= k < GetDim() ==> w[k] == Apply(mode, old(w[k]), RunningSum(v, k + 1))
      ensures forall k :: GetDim() <= k < w.Length ==> w[k] == old(w[k])
    {
      var temp: real := 0.0;
      var k := 0;
      while k < GetDim()
        invariant 0 <= k <= GetDim()
        invariant temp == RunningSum(v, k)
        invariant forall q :: 0 <= q < k ==> w[q] == Apply(mode, old(w[q]), RunningSum(v, q + 1))
        invariant forall q :: k <= q < w.Length ==> w[q] == old(w[q])
      {
        temp := AddEdgeTerms(v, k, temp);
        w[k] := Apply(mode, w[k], temp);
        k := k + 1;
      }
    }

    /**
     * mult as evidently intended: for each node k, w[k] is combined once
     * with row k of A times v (the diagonal term plus its incident edges),
     * the graph is only read, and slots past the nodes are untouched.
     */
    method Mult(v: seq<real>, w: array<real>, mode: Assign)
      requires Valid() && |v| == w.Length && GetDim() <= w.Length
      modifies w
      ensures forall k :: 0 <= k < GetDim() ==>
        w[k] == Apply(mode, old(w[k]), RowProduct(System, v, k, GetDim()))
      ensures forall k :: GetDim() <= k < w.Length ==> w[k] == old(w[k])
    {
      var k := 0;
      while k < GetDim()
        invariant 0 <= k <= GetDim()
        invariant forall q :: 0 <= q < k ==>
          w[q] == Apply(mode, old(w[q]), RowProduct(System, v, q, GetDim()))
        invariant forall q :: k <= q < w.Length ==> w[q] == old(w[q])
      {
        var temp: real := Term(System, v, k, k);
        temp := AddEdgeTerms(v, k, temp);
        RowFromEdges(System, v, k);
        w[k] := Apply(mode, w[k], temp);
        k := k + 1;
      }
    }
  }

  /** size(M): the number of entries, rows times columns. */
  function Size(M: GraphSymetricMatrix): (r: nat)
    ensures r == NumRows(M) * NumCols(M)
    ensures r == 0 <==> M.GetDim() == 0
  {
    M.GetDim() * M.GetDim()
  }

  /** num_rows(M): one row per node. */
  function NumRows(M: GraphSymetricMatrix): (r: nat)
    ensures r == M.GetDim()
    ensures M.Valid() ==> r == |M.pos| == |M.adj|
  {
    M.GetDim()
  }

  /** num_cols(M): one column per node. */
  function NumCols(M: GraphSymetricMatrix): (r: nat)
    ensures r == M.GetDim()
    ensures M.Valid() ==> r == |M.pos| == |M.adj|
  {
    M.GetDim()
  }

  /** The matrix is square, with one row and one column per node. */
  lemma ShapeQueries(M: GraphSymetricMatrix)
    ensures NumRows(M) == NumCols(M) == M.GetDim()
    ensures Size(M) == NumRows(M) * NumCols(M)
  {
  }
}
