# Poisson solver core: mesh carving, boundary classifier, graph matrix

This project models the core of `poisson.cpp`, a finite-difference Poisson
solver that runs on a tetrahedral mesh graph. It has four parts:

- **Carving** (`remove_box`). Every node whose position lies in a closed
  axis-aligned box is removed from the graph, together with its incident
  edges. The graph is a class (`Mesh.Graph`) with a sequence of positions
  and adjacency lists, updated in place.
- **The boundary classifier** (`g_BCs`). A first-match rule picks a node's
  Dirichlet value from its position, or returns the sentinel -1 when the
  node is left to the forcing function. The rules, in order: on the outer
  boundary (infinity norm 1), near one of the four hole centres, inside the
  central slab, otherwise free.
- **The matrix-free operator** (`GraphSymetricMatrix`). It reads the graph
  as an n x n matrix: `L`, the discrete Laplacian, and `A`, the system
  matrix, where every constrained node's row and column are replaced by
  those of the identity. `mult` folds the product with a vector into an
  output array through one of the three assignment modes.
- **The shape queries** `size`, `num_rows` and `num_cols`.

Nodes are the indices 0 .. n-1 in node-iteration order. `adj[i]` lists the
far endpoint of each edge incident to node i, in edge-iteration order.
Graph.hpp is not part of this model. The model assumes the following about
it:

- iteration visits nodes in index order;
- `remove_node` erases a node and its incident edges, and the later nodes
  move down one index, keeping their order;
- the graph is undirected and simple: adjacency is symmetric, there are no
  self loops and no duplicate edges.

Coordinates and vectors are exact reals. g_BCs's int result and C++'s
truncating double-to-int conversion are written out explicitly
(`Boundary.TruncToInt`).

The matrix keeps the graph's positions and adjacency as they are when it is
built. It also keeps the classifier it consults, as the field `bc`; the
constructor sets `bc` to g_BCs (`Boundary.BoundaryValue`). So every lemma
about A holds for any classifier. `MultAsWrittenCounterexample` assumes
that `bc` is g_BCs.

Two consequences of the code worth noting:

- The point (0, 0, 0) is not free. It lies in the central slab, so
  g_BCs returns 1 there (`Boundary.ClassifierScenarios`).
- A is symmetric. The code zeroes a constrained node's row and its column
  together (`Operator.GraphSymetricMatrix.SystemSymmetric`).

## Model

| member | source | states |
|---|---|---|
| Boundary.BoundaryValue | poisson.cpp:135-151 | g_BCs as written. It returns the sentinel -1 exactly when the intended classification finds no Dirichlet condition. Otherwise it returns the intended value truncated to int. The result is always 0, 1 or -1. |
| Boundary.Classify | poisson.cpp:138-150 | The first-match rule with the values the code evidently intends. Every Dirichlet value it assigns is 0, -0.2 or 1. |
| Boundary.HoleRegionsAreSeparate | poisson.cpp:138-144 | A point within 0.2 of a hole centre is neither on the outer boundary nor in the central slab, so the hole rule alone decides it: the value is -0.2. |
| Boundary.OuterBoundaryTakesPrecedence | poisson.cpp:138-146 | The outer boundary and the central slab overlap, for example at (0, 0, 1). The earlier outer-boundary test wins there: g_BCs returns 0. |
| Boundary.HoleValueTruncated | poisson.cpp:141-142 | On every hole point the intended value is -0.2, yet g_BCs returns 0. |
| Boundary.HoleCentreExample | poisson.cpp:141-142 | The hole centre (0.6, 0.6, 0) is a hole point, and g_BCs returns 0 there. |
| Boundary.AwayFromHoles | poisson.cpp:141 | No point with \|x\| < 0.4 is within 0.2 of a hole centre. |
| Boundary.FreeBand | poisson.cpp:138-150 | A point with \|x\| < 0.4, 0.2 < \|y\| < 1 and \|z\| < 1 fails every test, so it is free: g_BCs returns -1. |
| Boundary.FreePointsExample | poisson.cpp:138-150 | (0, 0.5, 0) and (0, -0.5, 0) fail every test, so g_BCs returns -1 there. |
| Boundary.ClassifierScenarios | poisson.cpp:137-145 | (1, 0, 0) is on the outer boundary and gets 0. The origin lies in the central slab and gets 1. |
| Mesh.Graph.RemoveNode | poisson.cpp:43 | Removing node k keeps the graph simple and undirected. The positions lose entry k and keep their order. The adjacency loses node k and its edges, and later indices move down by one. |
| Carving.SurvivorsSpec | poisson.cpp:31-47 | The nodes kept are exactly those outside the box, listed in increasing order of their old index. |
| Carving.CarvedSpec | poisson.cpp:34-35 | After carving, no remaining position is in the box, and every position that was outside the box is still there. |
| Carving.CarveIdempotent | poisson.cpp:31-47 | Carving a second time with the same box removes nothing. |
| Carving.RemoveBox | poisson.cpp:37-47 | The remaining positions are the old positions outside the box, in their old order. No remaining node is in the box, and the remaining nodes keep exactly their old edges among themselves. When no node is in the box, the graph is unchanged. |
| Operator.GraphSymetricMatrix.constructor | poisson.cpp:51-56 | The matrix sees the graph's nodes and edges and consults g_BCs. get_dim is the graph's node count. |
| Operator.GraphSymetricMatrix.GetDim | poisson.cpp:54-56 | get_dim is the number of nodes: for a well-formed graph it equals the length of the adjacency as well as of the positions. |
| Operator.GraphSymetricMatrix.L | poisson.cpp:59-69 | On the diagonal, L(i, i) is minus the degree of i. Off the diagonal, it is 1 exactly when j is a neighbour of i and 0 exactly when it is not; the edge stored either way round counts, and in a symmetric graph that is the same. |
| Operator.GraphSymetricMatrix.A | poisson.cpp:72-82 | When either node is constrained, A(i, j) is the identity entry: 1 on the diagonal, 0 off it. Between two free nodes it is L(i, j). Off the diagonal it is always 0 or 1. |
| Operator.GraphSymetricMatrix.LaplacianEntries | poisson.cpp:59-69 | L's diagonal is minus the node's degree. Off the diagonal, L(i, j) is 1 exactly when i and j share an edge, and 0 exactly when they do not. |
| Operator.GraphSymetricMatrix.LaplacianSymmetric | poisson.cpp:59-69 | L(i, j) equals L(j, i). |
| Operator.GraphSymetricMatrix.LaplacianRowSumZero | poisson.cpp:59-69 | Every row of L sums to zero. |
| Operator.GraphSymetricMatrix.SystemEntries | poisson.cpp:72-82 | A constrained node has a unit diagonal. An off-diagonal entry is 0 when either node is constrained. Between two free nodes, A equals L. |
| Operator.GraphSymetricMatrix.SystemSymmetric | poisson.cpp:72-82 | A(i, j) equals A(j, i). |
| Operator.GraphSymetricMatrix.ConstrainedRowIsIdentity | poisson.cpp:73-75 | When node i is constrained, row i of A times v is v[i]. |
| Operator.GraphSymetricMatrix.FreeRowIsLaplacianRow | poisson.cpp:76-81 | When a free node has only free neighbours, its row of A times v equals its row of L times v. |
| Operator.GraphSymetricMatrix.FreeRowSumZero | poisson.cpp:72-82 | Such a row of A sums to zero. |
| Operator.GraphSymetricMatrix.RowFromEdges | poisson.cpp:93-99 | Walking a node's incident edges covers every nonzero off-diagonal entry of its row: the row times v is the diagonal term plus the edge terms. |
| Operator.GraphSymetricMatrix.AddEdgeTerms | poisson.cpp:94-99 | The edge loop of mult. It adds A(k, j)·v[j] to the running value once for each incident edge (k, j), in edge order. |
| Operator.GraphSymetricMatrix.MultAsWritten | poisson.cpp:89-102 | mult as written. Each node's slot is combined once with the total for all nodes up to and including that one, because temp is never reset. That total counts only edge terms, never diagonal terms. Slots past the nodes are unchanged. |
| Operator.GraphSymetricMatrix.RunningSumIsOffDiagonalPrefix | poisson.cpp:92-100 | The total mult as written combines into slot k-1 is the sum of the off-diagonal parts of rows 0 .. k-1 of A v. |
| Operator.GraphSymetricMatrix.MultAsWrittenCounterexample | poisson.cpp:92-100 | Two free nodes joined by one edge, with v = (1, 1): A v is (0, 0), while mult as written combines 1 and 2. |
| Operator.GraphSymetricMatrix.Mult | poisson.cpp:84-102 | mult as intended. Each node's slot is combined once, through the assignment mode, with that node's row of A times v. The graph is only read, and slots past the nodes are unchanged. |
| Operator.Size | poisson.cpp:120-122 | size is num_rows times num_cols, and it is 0 exactly when the graph has no nodes. |
| Operator.NumRows | poisson.cpp:124-126 | num_rows is get_dim, the node count: the length of the positions and of the adjacency. |
| Operator.NumCols | poisson.cpp:128-130 | num_cols is get_dim, the node count: the length of the positions and of the adjacency. |
| Operator.ShapeQueries | poisson.cpp:120-130 | The matrix is square: num_rows and num_cols both equal get_dim, the node count, and size is their product. |

## Left out

- main (poisson.cpp:158-213) is not modelled. It reads the node and tetrahedron files, maps each point p to 2p - (1, 1, 0) and takes the edge length h from the first edge. It then calls `remove_box` on five boxes whose corners depend on h. The model proves what `remove_box` does for any box, but not these concrete hole boxes or h. File reading and the SFML viewer are I/O.
- forcing_function uses `cos`, which has no exact real counterpart. It is not modelled.
- The MTL `operator*` and the iterative solve run in a library that is not part of this model.
- Floating point is modelled as exact reals, so rounding in `norm_inf` and in the products of `mult` is not captured.
- Graph.hpp is not part of this model. Its node and edge iteration order and the renumbering done by `remove_node` are the assumptions stated above.
- BoundingBox.hpp is not part of this model. `Box3D` reads its two corners as (lo, hi) with lo <= hi on every axis, and `Contains` is the closed box between them. On a box with lo > hi on some axis, `Contains` holds for no point.
- Carving.RemoveBox: the source advances its node iterator after every visit, including one that removed the node. The model visits every original node exactly once. What the source's loop actually visits depends on the iterator semantics of Graph.hpp, which is not part of this model.
- Operator.GraphSymetricMatrix.LaplacianEntries: `-i.degree()` negates an unsigned value before it is converted to int. The model takes the value as minus the degree, which is what that conversion yields for any degree that fits in an int.
- Operator.ShapeQueries: `size` multiplies two `size_t` values. The model does not capture wrap-around above 2^64.
- Operator.GraphSymetricMatrix.Mult: the input vector is a sequence, so the model does not capture aliasing between v and w. Like MultAsWritten, it also requires the output to have at least one slot per node. The source only asserts that v and w have the same size.
- Operator.GraphSymetricMatrix.constructor: the matrix holds a reference to the graph in the source and a copy of its nodes and edges here. Changing the graph while a matrix is in use is not modelled.

## Findings

| source | as written | input that shows it | evidently intended | confidence | as-written member | corrected member |
|---|---|---|---|---|---|---|
| poisson.cpp:142 | g_BCs returns -0.2 from a function whose result type is int, so the value is truncated to 0 | any hole point, e.g. the node at (0.6, 0.6, 0) | the hole boundaries are held at -0.2 | high (not executed) | Boundary.HoleValueTruncated | Boundary.Classify |
| poisson.cpp:92-100 | temp is set to 0 once, before the node loop, and the diagonal term A(i,i)·v[i] is never added | two free nodes (0, 0.5, 0) and (0, -0.5, 0) joined by one edge, v = (1, 1): slots get 1 and 2 | slot i gets row i of A times v, here 0 and 0 | high (not executed) | Operator.GraphSymetricMatrix.MultAsWrittenCounterexample | Operator.GraphSymetricMatrix.Mult |
