# Four-colour visualiser: verified model of the graph core

The program draws a random graph of 10 to 20 vertices and colours it greedily
with four colours by breadth-first search. It then lays the vertices out on a
circle and paints them with SDL. This project models the integer core of
`program.cpp` in Dafny and proves properties of it. The core has four parts:

- **The segment-intersection predicate `intersects`** (module `Geometry`, `geometry.dfy`).
  - It is modelled literally. The same denominator is computed twice. The bounding-box test is applied to the undivided numerators.
  - Beside it stands the evidently intended predicate, over the reals. For that predicate it is proved that it holds exactly when two non-parallel closed segments share a point.
- **The graph store** (class `GraphModel.Graph`, `graph.dfy`).
  - Vertices are indices `0..N-1`.
  - The vertex fields are parallel sequences: `neighbors`, `data`, `xs`, `ys` and `color`. `addVertex` and `addEdge` append to them in place.
- **The breadth-first greedy colourer `getColors`.**
  - The imperative method `GraphModel.Graph.GetColors` keeps the queue and the visited set of the source. Each iteration of its loop is the method `GraphModel.Graph.Visit`.
  - The order in which vertices leave the queue is proved to be `Traversal.Bfs(neighbors, [start], {start})`. `Bfs` is a definition of breadth-first order over values: take the front of the queue, then go on from the queue with that vertex's unvisited neighbours appended.
  - That order is proved to be duplicate-free and to contain exactly the vertices reachable from the start (`Traversal`).
  - The final colours are proved to be `Coloring.Replay` of that order. `Replay` is a fold of the one-vertex colouring rule `Coloring.Step` over the dequeue order. So the contract fixes the colouring completely.
  - On the specification side it is proved:
    - which colour the start vertex ends with;
    - that two adjacent coloured vertices never share a colour. This holds when adjacency is symmetric and every vertex other than the start begins with a colour outside 0..3, such as `UNSET`. The source leaves the colour field uninitialised, so it does not guarantee that second condition.
- **The random builder `generateRandomGraph`** (module `Builder`, `builder.dfy`).
  - `rand()` is a parameter `rand: nat -> nat`. `rand(k)` is the result of the k-th call.
  - Every vertex still sits at (0,0) when edges are drawn. As a result the crossing test never fires, and the builder is proved to produce exactly the lists `Generated(rand, n)`:
    - an edge for every pair whose coin is even;
    - symmetric adjacency;
    - no self-loops;
    - strictly ascending neighbour lists.
- **The integer part of `generateVertexPositions`** (module `Layout`, `layout.dfy`): the vertex size and the angle step.

The source's colour field is never initialised. It is modelled as `UNSET = -1`, a value outside 0..3. Because of the `i != v->color` skip, a colour outside 0..3 never blocks a candidate, and the proofs rely on exactly that.

The start vertex is set to colour 0 at line 56, before the loop. Its own dequeue then skips candidate 0 at line 68, because 0 is its current colour. So it ends with the least of 1, 2, 3 that no neighbour holds, and keeps 0 only when its neighbours hold all three (`Coloring.StartColor`).

## Model

| member | source | states |
|---|---|---|
| `Geometry.Intersects` | program.cpp:102-124 | the literal predicate: it never reports parallel segments; where the denominator is 1 it agrees with the intended predicate, which holds exactly when the segments share a point |
| `Geometry.ParallelNeverIntersects` | program.cpp:105-107 | a zero denominator (parallel or collinear segments) always gives false |
| `Geometry.DegenerateSegmentNeverIntersects` | program.cpp:105-107 | a zero-length segment on either side makes the denominator zero, so the result is false |
| `Geometry.CoincidentPointsNeverIntersect` | program.cpp:105-107 | when all eight coordinates describe one point, both the as-written and the intended predicate are false |
| `Geometry.SwapSegmentsNegates` | program.cpp:105-110 | exchanging the two segments negates the denominator and both numerators |
| `Geometry.CrossingDiagonalsMissed` | program.cpp:109-123 | for every t >= 1 the diagonals (0,0)-(2t,2t) and (0,2t)-(2t,0) share the point (t,t), the numerators are -8t^3, and the as-written predicate is false while the intended one is true |
| `Geometry.IntendedMeansCommonPoint` | program.cpp:109-123 | the intended predicate (numerators divided by the denominator) holds exactly when the denominator is non-zero and some point lies on both closed segments |
| `Geometry.LinesMeetOnlyAtCramerPoint` | program.cpp:109-110 | any point on both non-parallel lines is the point (intersectX / d, intersectY / d) |
| `Geometry.IntendedIsSymmetric` | program.cpp:102-124 | the intended predicate does not depend on the order of the two segments |
| `GraphModel.Graph.constructor` | program.cpp:34-37 | a new graph has no vertices |
| `GraphModel.Graph.AddVertex` | program.cpp:39-42 | appends one vertex with the given data and position (the `Vertex` constructor, lines 25-30), an empty neighbour list and an unset colour; the earlier vertices are unchanged |
| `GraphModel.Graph.AddEdge` | program.cpp:44-48 | `v2` is appended to `v1`'s list and `v1` to `v2`'s (twice to the same list when `v1 == v2`); every other list and every other field is unchanged |
| `GraphModel.Graph.ChooseColor` | program.cpp:66-86 | the nested candidate/neighbour loops with their two breaks compute `PickColor` of the vertex's colour and its neighbours' colours |
| `GraphModel.EnqueueUnvisited` | program.cpp:89-96 | the queue grows by `Unvisited(nbrs, visited)`, the visited set grows by exactly the listed vertices, and its size grows by the number enqueued |
| `GraphModel.Graph.GetColors` | program.cpp:51-98 | the dequeue order is the breadth-first order `Bfs` from `start`: it starts at `start`, has no duplicates and holds exactly the vertices reachable from `start`; the final colours are `Replay` of that order from the old colours with `start` set to 0; unreached vertices keep their colour; neighbour lists and other fields are unchanged |
| `GraphModel.Graph.Visit` | program.cpp:62-96 | one loop iteration keeps the dequeued vertices a prefix of the breadth-first order, keeps the colours equal to `Replay` of them, and decreases the traversal measure (unvisited vertices, then queue length) |
| `GraphModel.VisitStep` | program.cpp:62-96 | on values: dequeuing the front vertex and enqueuing its unvisited neighbours keeps the dequeued-then-pending sequence equal to the breadth-first order from `start` |
| `GraphModel.ColouringDone` | program.cpp:60-98 | with the queue empty, the dequeued vertices are the whole breadth-first order from `start`, and every vertex outside it keeps its colour |
| `Coloring.PickFrom` | program.cpp:66-86 | scanning candidates i..3: the result is the least candidate that differs from the current colour and is held by no neighbour, or the current colour when there is none |
| `Coloring.PickColor` | program.cpp:66-86 | the least colour of 0..3 that is not the current colour and not held by a neighbour; the current colour if every one is blocked |
| `Coloring.Replay` | program.cpp:60-86 | recolouring vertices in dequeue order changes only the dequeued vertices |
| `Coloring.ReplaySettled` | program.cpp:60-86 | a dequeued vertex's colour is never changed again by later dequeues when the order has no duplicates |
| `Coloring.StartColor` | program.cpp:56-86 | the start vertex, forced to 0 and dequeued first, ends with 0 exactly when its neighbours hold 1, 2 and 3, and otherwise with the least of 1..3 that no neighbour holds |
| `Coloring.StepAvoidsNeighbors` | program.cpp:66-86 | a vertex without a colour that receives one of 0..3 differs from each of its neighbours |
| `Coloring.ProperStep` | program.cpp:60-86 | colouring one more uncoloured vertex keeps a proper partial colouring proper |
| `Coloring.GreedyIsProper` | program.cpp:51-98 | with symmetric adjacency and only the start coloured beforehand, no two adjacent dequeued vertices hold the same colour of 0..3 |
| `Traversal.Unvisited` | program.cpp:89-96 | the vertices enqueued while scanning a neighbour list are exactly the listed vertices not yet visited, each once |
| `Traversal.ClosedSetContainsWalk` | program.cpp:89-96 | a set that contains the start and every neighbour of its members contains every vertex reachable from the start |
| `Traversal.FrontierInit` | program.cpp:53-58 | after the start is enqueued and marked visited, the traversal invariant holds |
| `Traversal.QueueStep` | program.cpp:62-63 | after a dequeue and an enqueue of unvisited vertices, the dequeued-then-queued sequence still has no duplicates and begins with the start |
| `Traversal.PathsStep` | program.cpp:89-96 | every newly visited vertex is reached by a walk from the start |
| `Traversal.FrontierStep` | program.cpp:60-97 | one iteration of the loop (dequeue, then enqueue the unvisited neighbours) preserves the traversal invariant |
| `Traversal.FrontierDone` | program.cpp:60 | with the queue empty, the dequeued vertices are duplicate-free and are exactly those reachable from the start |
| `Traversal.UnvisitedCount` | program.cpp:89-96 | marking a neighbour list visited grows the visited set by exactly as many vertices as are enqueued |
| `Traversal.BfsStep` | program.cpp:62-96 | the breadth-first order from a queue is its front vertex followed by the order from the queue and visited set the enqueue step leaves |
| `Traversal.BfsContinuesFrontier` | program.cpp:60-97 | from any state that satisfies the traversal invariant, the dequeued vertices followed by the breadth-first order from the queue are duplicate-free and are exactly the vertices reachable from the start |
| `Traversal.BfsVisitsReachable` | program.cpp:53-97 | the breadth-first order from `start` begins at `start`, has no duplicates, and holds exactly the vertices reachable from `start` |
| `Builder.VertexCount` | program.cpp:134 | the vertex count drawn from the first random number lies in 10..20 |
| `Builder.VertexCountOnto` | program.cpp:134 | every count in 10..20 can be drawn |
| `Builder.RowStartSum` | program.cpp:144-150 | the pair loop draws one random number per unordered pair: n(n-1)/2 in all |
| `Builder.PairIndexOrdered` | program.cpp:144-150 | pairs are decided by calls 1 .. n(n-1)/2 in row order, so no call decides two pairs and each pair i < j is touched once |
| `Builder.LinkedMembers` | program.cpp:144-177 | vertex v's list holds exactly the partners w != v whose pair coin came up even |
| `Builder.LinkedAscending` | program.cpp:144-177 | each neighbour list is strictly increasing, so it holds no duplicate |
| `Builder.GeneratedIsSimple` | program.cpp:144-177 | the generated adjacency is well formed, symmetric, free of self-loops and strictly ascending, and (v, w) with v < w is an edge exactly when that pair's coin is even |
| `Builder.NoCrossingAtOnePoint` | program.cpp:153-171 | with every vertex at one point no existing edge crosses the candidate edge |
| `Builder.CrossesExisting` | program.cpp:153-171 | the scan over vertices other than v1 and v2 and all their neighbours, stopping at the first hit, reports a crossing exactly when some such edge intersects v1-v2 by the as-written predicate |
| `Builder.PairStep` | program.cpp:149-177 | drawing pair (i, j) appends j to i's list and i to j's exactly when its coin is even |
| `Builder.RowStep` | program.cpp:149-177 | the neighbour lists after pair (i, j) are those the specification gives when (i, j+1) is next |
| `Builder.DrawPair` | program.cpp:149-178 | one pair iteration consumes one random call and adds the edge exactly when the coin is even |
| `Builder.DrawRow` | program.cpp:146-179 | one row of the pair loop takes the lists from "row i next" to "row i+1 next" and consumes n-1-i random calls |
| `Builder.GenerateRandomGraph` | program.cpp:126-183 | the result has 10..20 vertices; vertex v has data v, position (0,0) and no colour; the neighbour lists are `Generated(rand, n)`, so every even coin became an edge |
| `Builder.GeneratedColoringIsProper` | program.cpp:241 | colouring a generated graph from any start gives no two adjacent dequeued vertices the same colour of 0..3 |
| `Layout.VertexSize` | program.cpp:202 | the size is at least two radii, and the degree can be read back from it in whole radii |
| `Layout.AngleStep` | program.cpp:195 | for degree d > 0 the step r is the truncated quotient (r*d <= 360 < (r+1)*d); for degree 0 the division by zero has no result |
| `Layout.LinkedLength` | program.cpp:144-177 | a builder neighbour list below b has fewer than b entries when it excludes its own vertex |
| `Layout.GeneratedSizeBounded` | program.cpp:202 | in a generated graph every degree is below n, so every size is at most 21 radii |
| `Layout.AllOddCoinsIsolateEveryVertex` | program.cpp:195 | when every coin is odd the builder adds no edge, and the layout's angle step divides by zero for every vertex |

## Left out

- `main` and everything SDL (program.cpp:210-277) is not modelled. This covers the window, the renderer, the palette, drawing and the event loop. It includes the read of `colors[v->color][3]`, past the end of a three-element row, and the indexing of the palette by a colour that may still be unset.
- `srand(time(0))` and `rand()` are a parameter `rand: nat -> nat`. Call 0 gives the vertex count and call `PairIndex(n, i, j)` the coin of pair (i, j). The model makes no claim about the distribution.
- The coordinates computed in `generateVertexPositions` (program.cpp:198-199, 203-204) are not modelled. They use `cos` and `sin` on doubles. The loop that stores `x`, `y` and `size` into each vertex and accumulates `currentAngle` is not modelled either. Only the integer size and angle-step arithmetic is (module `Layout`).
- `Layout.AngleStep` returns `None` for a vertex with no neighbours. The program divides by zero there, which is undefined behaviour; the model does not say what happens next. `Layout.AllOddCoinsIsolateEveryVertex` shows the generator can produce such vertices.
- Heap allocation of vertices (`new Vertex`, never freed) and pointer identity: a vertex is its index.
- `Geometry.Intersects`: coordinates are mathematical integers. The 32-bit `int` products of the denominator (program.cpp:105-106) and the 64-bit products of the numerators are not bounded or wrapped. Every call in the builder uses the coordinates (0,0), where nothing overflows.
- The uninitialised `color` field (program.cpp:22) is modelled as the value -1. In the source its value is indeterminate. Any value outside 0..3 behaves the same in `getColors`, but a stray value inside 0..3 would not.
- `GraphModel.Graph.GetColors` returns the dequeue order as a ghost value. The source does not keep it.

## Findings

| source | as written | input that shows it | evidently intended | confidence | as-written member | corrected member |
|---|---|---|---|---|---|---|
| program.cpp:109-123 | `intersectX`/`intersectY` are the Cramer numerators and are never divided by the denominator; the undivided values are compared with the segments' coordinate ranges | segments (0,0)-(2,2) and (0,2)-(2,0) (t = 1): they cross at (1,1), but the test point is (-8,-8), so `intersects` returns false | compare the intersection point (numerators divided by the denominator) with both bounding boxes, so that two non-parallel segments are reported exactly when they share a point | high (proved for every t >= 1; not executed) | `Geometry.CrossingDiagonalsMissed` | `Geometry.IntendedMeansCommonPoint` |

The builder keeps the as-written predicate, as the program does. Every test it makes is on coordinates that are all (0,0), where both predicates are false (`Geometry.CoincidentPointsNeverIntersect`). So the finding does not change the generated graph.
