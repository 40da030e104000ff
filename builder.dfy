/**
 * The random graph builder.
 *
 * The program draws a vertex count of 10..20, creates that many vertices with
 * data 0, 1, 2, ... at the default position (0,0), and then visits every pair
 * i < j in row order, drawing one more random number for each pair: on an even
 * number it adds the edge unless it would cross an edge already in the graph.
 *
 * The random number source is a parameter: `rand(k)` is the result of the k-th
 * call (counting from 0).  Call 0 gives the vertex count and call `PairIndex(n,
 * i, j)` the coin of pair (i, j).  Since every vertex still sits at (0,0) when
 * the edges are drawn, the crossing test never fires, and the edge (i, j) is
 * present exactly when its coin came up even.
 */
module Builder {
  import opened Geometry
  import opened Coloring
  import opened GraphModel

  const MIN_VERTICES: int := 10
  const MAX_VERTICES: int := 20

  /** The vertex count drawn from the first random number. */
  function VertexCount(r: nat): (n: nat)
    ensures MIN_VERTICES <= n <= MAX_VERTICES
  {
    r % 11 + 10
  }

  /** Every count in 10..20 can be drawn. */
  lemma VertexCountOnto(n: int)
    requires MIN_VERTICES <= n <= MAX_VERTICES
    ensures VertexCount(n - 10) == n
  {
  }

  // ---------------------------------------------------------------------------
  // Which random number decides which pair.

  /** The number of pairs in the rows before row `i`: rows r < i hold n - 1 - r pairs each. */
  function RowStart(n: nat, i: nat): nat
    requires i <= n
  {
    if i == 0 then 0 else RowStart(n, i - 1) + (n - i)
  }

  /** The index of the random call that decides pair (i, j), i < j. */
  function PairIndex(n: nat, i: nat, j: nat): nat
    requires i < j < n
  {
    1 + RowStart(n, i) + (j - i - 1)
  }

  /** Rows further on do not start earlier. */
  lemma {:induction false} RowStartMonotone(n: nat, i: nat, k: nat)
    requires i <= k <= n
    ensures RowStart(n, i) <= RowStart(n, k)
    decreases k - i
  {
    if i < k {
      RowStartMonotone(n, i, k - 1);
    }
  }

  /** The row starts add up to one pair per unordered pair of vertices. */
  lemma {:induction false} RowStartSum(n: nat, i: nat)
    requires i <= n
    ensures 2 * RowStart(n, i) == i * (2 * n - i - 1)
  {
    if i > 0 {
      RowStartSum(n, i - 1);
      assert i * (2 * n - i - 1) == (i - 1) * (2 * n - (i - 1) - 1) + 2 * (n - i);
    }
  }

  /**
   * Pairs are decided by calls 1 .. n(n-1)/2 in row order: a pair that comes
   * later in the double loop uses a later call, so no call decides two pairs.
   */
  lemma PairIndexOrdered(n: nat, i: nat, j: nat, i': nat, j': nat)
    requires i < j < n && i' < j' < n
    requires i < i' || (i == i' && j < j')
    ensures 1 <= PairIndex(n, i, j) < PairIndex(n, i', j')
    ensures 2 * (PairIndex(n, i', j') - 1) < n * (n - 1)
  {
    if i < i' {
      assert RowStart(n, i + 1) == RowStart(n, i) + (n - i - 1);
      RowStartMonotone(n, i + 1, i');
    }
    RowStartMonotone(n, i' + 1, n);
    assert RowStart(n, i' + 1) == RowStart(n, i') + (n - i' - 1);
    RowStartSum(n, n);
  }

  /** The coin of pair (i, j) came up even. */
  predicate Flipped(rand: nat -> nat, n: nat, i: nat, j: nat)
    requires i < j < n
  {
    rand(PairIndex(n, i, j)) % 2 == 0
  }

  /** Vertices `v` and `w` are joined in the generated graph. */
  predicate Adjacent(rand: nat -> nat, n: nat, v: nat, w: nat)
    requires v < n && w < n && v != w
  {
    Flipped(rand, n, Min(v, w), Max(v, w))
  }

  /**
   * The neighbour list of `v` once every pair with both ends below `b` has
   * been drawn: the partners w < b, in increasing order (a vertex below `v`
   * was paired with `v` in an earlier row, one above it later in `v`'s row).
   */
  function Linked(rand: nat -> nat, n: nat, v: nat, b: nat): seq<nat>
    requires v < n && b <= n
  {
    if b == 0 then []
    else if b - 1 != v && Adjacent(rand, n, v, b - 1) then Linked(rand, n, v, b - 1) + [b - 1]
    else Linked(rand, n, v, b - 1)
  }

  /** The list holds exactly the partners of `v` below `b`. */
  lemma {:induction false} LinkedMembers(rand: nat -> nat, n: nat, v: nat, b: nat)
    requires v < n && b <= n
    ensures forall w: nat :: w in Linked(rand, n, v, b) <==> w < b && w != v && Adjacent(rand, n, v, w)
  {
    if b > 0 {
      LinkedMembers(rand, n, v, b - 1);
    }
  }

  /** The list is strictly increasing and below `b`, so it holds each partner once. */
  lemma {:induction false} LinkedAscending(rand: nat -> nat, n: nat, v: nat, b: nat)
    requires v < n && b <= n
    ensures forall a :: 0 <= a < |Linked(rand, n, v, b)| ==> Linked(rand, n, v, b)[a] < b
    ensures forall a, c :: 0 <= a < c < |Linked(rand, n, v, b)| ==> Linked(rand, n, v, b)[a] < Linked(rand, n, v, b)[c]
  {
    if b > 0 {
      var r0 := Linked(rand, n, v, b - 1);
      LinkedAscending(rand, n, v, b - 1);
      if b - 1 != v && Adjacent(rand, n, v, b - 1) {
        var r := r0 + [b - 1];
        forall a, c | 0 <= a < c < |r| ensures r[a] < r[c] {
          if c < |r0| { assert r[a] == r0[a] && r[c] == r0[c]; }
          else { assert r[a] == r0[a]; }
        }
        forall a | 0 <= a < |r| ensures r[a] < b {
          if a < |r0| { assert r[a] == r0[a]; }
        }
      }
    }
  }

  /** The neighbour lists the builder produces for `n` vertices. */
  function Generated(rand: nat -> nat, n: nat): (adj: seq<seq<nat>>)
    ensures |adj| == n
    ensures forall v :: 0 <= v < n ==> adj[v] == Linked(rand, n, v, n)
  {
    seq(n, v requires 0 <= v < n => Linked(rand, n, v, n))
  }

  /**
   * The generated graph is simple and undirected: every neighbour is a vertex,
   * adjacency is symmetric, no vertex is its own neighbour, each list is strictly
   * increasing (so holds no duplicate), and (v, w) is an edge exactly when the
   * coin of that pair came up even.
   */
  lemma GeneratedIsSimple(rand: nat -> nat, n: nat)
    ensures var adj := Generated(rand, n);
      WellFormed(adj) && Symmetric(adj)
      && (forall v :: 0 <= v < n ==> v !in adj[v])
      && (forall v, a, c :: 0 <= v < n && 0 <= a < c < |adj[v]| ==> adj[v][a] < adj[v][c])
      && (forall v, w :: 0 <= v < w < n ==> (w in adj[v] <==> Flipped(rand, n, v, w)))
  {
    var adj := Generated(rand, n);
    forall v | 0 <= v < n
      ensures forall w: nat :: w in adj[v] <==> w < n && w != v && Adjacent(rand, n, v, w)
      ensures forall a, c :: 0 <= a < c < |adj[v]| ==> adj[v][a] < adj[v][c]
      ensures forall a :: 0 <= a < |adj[v]| ==> adj[v][a] < n
    {
      LinkedMembers(rand, n, v, n);
      LinkedAscending(rand, n, v, n);
    }
    forall u, v | 0 <= u < n && 0 <= v < n ensures v in adj[u] <==> u in adj[v] {
      if u != v {
        assert Min(u, v) == Min(v, u) && Max(u, v) == Max(v, u);
      }
    }
    forall v, w | 0 <= v < w < n ensures w in adj[v] <==> Flipped(rand, n, v, w) {
      assert Min(v, w) == v && Max(v, w) == w;
    }
  }

  // ---------------------------------------------------------------------------
  // The crossing test and the builder.

  /** The segment v1-v2 crosses the edge from `u` to its k-th neighbour. */
  predicate CrossesEdge(adj: seq<seq<nat>>, xs: seq<int>, ys: seq<int>, v1: nat, v2: nat, u: nat, k: nat)
    requires WellFormed(adj) && |xs| == |adj| && |ys| == |adj| && v1 < |adj| && v2 < |adj|
    requires u < |adj| && k < |adj[u]|
  {
    var w := adj[u][k];
    Intersects(xs[v1], ys[v1], xs[v2], ys[v2], xs[u], ys[u], xs[w], ys[w])
  }

  /** Some edge leaving a vertex other than v1 and v2 crosses the segment v1-v2. */
  predicate CrossesSome(adj: seq<seq<nat>>, xs: seq<int>, ys: seq<int>, v1: nat, v2: nat)
    requires WellFormed(adj) && |xs| == |adj| && |ys| == |adj| && v1 < |adj| && v2 < |adj|
  {
    exists u, k :: 0 <= u < |adj| && u != v1 && u != v2 && 0 <= k < |adj[u]| && CrossesEdge(adj, xs, ys, v1, v2, u, k)
  }

  /** With every vertex at the same point, no segment crosses any other. */
  lemma NoCrossingAtOnePoint(adj: seq<seq<nat>>, xs: seq<int>, ys: seq<int>, v1: nat, v2: nat)
    requires WellFormed(adj) && |xs| == |adj| && |ys| == |adj| && v1 < |adj| && v2 < |adj|
    requires forall v :: 0 <= v < |adj| ==> xs[v] == 0 && ys[v] == 0
    ensures !CrossesSome(adj, xs, ys, v1, v2)
  {
    CoincidentPointsNeverIntersect(0, 0);
  }

  /**
   * The test made before an edge v1-v2 is added: every vertex other than v1 and
   * v2 is visited in turn and each of its edges is checked against v1-v2; the
   * scan stops at the first crossing.
   */
  method CrossesExisting(g: Graph, v1: nat, v2: nat) returns (doesIntersect: bool)
    requires g.Valid() && v1 < |g.neighbors| && v2 < |g.neighbors|
    ensures doesIntersect <==> CrossesSome(g.neighbors, g.xs, g.ys, v1, v2)
  {
    var adj, xs, ys := g.neighbors, g.xs, g.ys;
    doesIntersect := false;
    var v := 0;
    while v < |adj|
      invariant 0 <= v <= |adj| && !doesIntersect
      invariant forall u, k :: 0 <= u < v && u != v1 && u != v2 && 0 <= k < |adj[u]| ==> !CrossesEdge(adj, xs, ys, v1, v2, u, k)
    {
      if v != v1 && v != v2 {
        var nbrs := adj[v];
        var k := 0;
        while k < |nbrs|
          invariant 0 <= k <= |nbrs| && !doesIntersect
          invariant forall m :: 0 <= m < k ==> !CrossesEdge(adj, xs, ys, v1, v2, v, m)
        {
          var neighbor := nbrs[k];
          if Intersects(xs[v1], ys[v1], xs[v2], ys[v2], xs[v], ys[v], xs[neighbor], ys[neighbor]) {
            assert CrossesEdge(adj, xs, ys, v1, v2, v, k);
            doesIntersect := true;
            break;
          }
          k := k + 1;
        }
        if doesIntersect {
          break;
        }
      }
      v := v + 1;
    }
  }

  /** Drawing pair (i, j) appends j to i's list and i to j's exactly when its coin came up even. */
  lemma PairStep(rand: nat -> nat, n: nat, i: nat, j: nat)
    requires i < j < n
    ensures Linked(rand, n, i, j + 1) == Linked(rand, n, i, j) + (if Flipped(rand, n, i, j) then [j] else [])
    ensures Linked(rand, n, j, i + 1) == Linked(rand, n, j, i) + (if Flipped(rand, n, i, j) then [i] else [])
  {
    assert Min(i, j) == i && Max(i, j) == j && Min(j, i) == i && Max(j, i) == j;
  }

  /** Which prefix of its partners vertex `v` has received when pair (i, j) is next. */
  function Reached(n: nat, v: nat, i: nat, j: nat): nat
  {
    if v < i then n else if v == i then j else if v < j then i + 1 else i
  }

  /** The neighbour lists when pair (i, j) is the next to be drawn. */
  function Drawn(rand: nat -> nat, n: nat, i: nat, j: nat): (adj: seq<seq<nat>>)
    requires i <= j <= n
    ensures |adj| == n
  {
    seq(n, v requires 0 <= v < n => Linked(rand, n, v, Reached(n, v, i, j)))
  }

  /** The neighbour lists after pair (i, j) is drawn, from those before it. */
  lemma RowStep(rand: nat -> nat, n: nat, i: nat, j: nat, before: seq<seq<nat>>, after: seq<seq<nat>>)
    requires i < j < n && before == Drawn(rand, n, i, j) && |after| == n
    requires after[i] == before[i] + (if Flipped(rand, n, i, j) then [j] else [])
    requires after[j] == before[j] + (if Flipped(rand, n, i, j) then [i] else [])
    requires forall v :: 0 <= v < n && v != i && v != j ==> after[v] == before[v]
    ensures after == Drawn(rand, n, i, j + 1)
  {
    PairStep(rand, n, i, j);
    var next := Drawn(rand, n, i, j + 1);
    forall v | 0 <= v < n ensures after[v] == next[v] {
      if v != i && v != j {
        assert Reached(n, v, i, j + 1) == Reached(n, v, i, j);
      }
    }
  }

  /** Row `i` begins with pair (i, i+1): nothing has been drawn yet for vertex i in this row. */
  lemma RowEntry(rand: nat -> nat, n: nat, i: nat)
    requires i < n
    ensures Drawn(rand, n, i, i + 1) == Drawn(rand, n, i, i)
  {
    var a, b := Drawn(rand, n, i, i + 1), Drawn(rand, n, i, i);
    forall v | 0 <= v < n ensures a[v] == b[v] {
      if v == i { assert Linked(rand, n, i, i + 1) == Linked(rand, n, i, i); }
    }
  }

  /** The end of row `i` is the start of row `i + 1`. */
  lemma RowExit(rand: nat -> nat, n: nat, i: nat)
    requires i < n
    ensures Drawn(rand, n, i, n) == Drawn(rand, n, i + 1, i + 1)
  {
    var c, d := Drawn(rand, n, i, n), Drawn(rand, n, i + 1, i + 1);
    forall v | 0 <= v < n ensures c[v] == d[v] {
      assert Reached(n, v, i + 1, i + 1) == Reached(n, v, i, n);
    }
  }

  /** Before the first row every list is empty; after the last one they are the generated lists. */
  lemma DrawnEnds(rand: nat -> nat, n: nat)
    ensures Drawn(rand, n, 0, 0) == seq(n, _ => [])
    ensures Drawn(rand, n, n, n) == Generated(rand, n)
  {
  }

  /**
   * Builds the random graph.  On return it has 10..20 vertices, vertex `v` has
   * data `v`, position (0,0) and no colour, and the neighbour lists are those
   * of `Generated`: every pair whose coin came up even is an edge.
   */
  method GenerateRandomGraph(rand: nat -> nat) returns (g: Graph)
    ensures fresh(g) && g.Valid()
    ensures |g.neighbors| == VertexCount(rand(0))
    ensures g.neighbors == Generated(rand, |g.neighbors|)
    ensures forall v :: 0 <= v < |g.neighbors| ==> g.data[v] == v && g.xs[v] == 0 && g.ys[v] == 0 && g.color[v] == UNSET
  {
    g := new Graph();
    var calls := 0;
    var numVertices := rand(calls) % 11 + 10;
    calls := calls + 1;

    for i := 0 to numVertices
      invariant g.Valid() && |g.neighbors| == i
      invariant forall v :: 0 <= v < i ==>
                  g.neighbors[v] == [] && g.data[v] == v && g.xs[v] == 0 && g.ys[v] == 0 && g.color[v] == UNSET
    {
      g.AddVertex(i, 0, 0);
    }

    ghost var n := numVertices;
    assert g.neighbors == seq(n, _ => []);
    DrawnEnds(rand, n);
    for i := 0 to numVertices
      invariant g.Valid() && g.neighbors == Drawn(rand, n, i, i)
      invariant calls == 1 + RowStart(n, i)
      invariant forall v :: 0 <= v < n ==> g.data[v] == v && g.xs[v] == 0 && g.ys[v] == 0 && g.color[v] == UNSET
    {
      calls := DrawRow(g, rand, numVertices, i, calls);
    }
  }

  /**
   * Row `i` of the edge loop: pairs (i, i+1), ..., (i, n-1) in turn, one random
   * call each; an even coin adds the edge unless the crossing test objects.
   * Returns the number of random calls made so far.
   */
  method DrawRow(g: Graph, rand: nat -> nat, n: nat, i: nat, calls0: nat) returns (calls: nat)
    requires g.Valid() && i < n && g.neighbors == Drawn(rand, n, i, i) && calls0 == 1 + RowStart(n, i)
    requires forall v :: 0 <= v < n ==> g.xs[v] == 0 && g.ys[v] == 0
    modifies g
    ensures g.Valid() && g.neighbors == Drawn(rand, n, i + 1, i + 1) && calls == 1 + RowStart(n, i + 1)
    ensures g.data == old(g.data) && g.xs == old(g.xs) && g.ys == old(g.ys) && g.color == old(g.color)
  {
    calls := calls0;
    RowEntry(rand, n, i);
    for j := i + 1 to n
      invariant g.Valid() && g.neighbors == Drawn(rand, n, i, j)
      invariant calls == 1 + RowStart(n, i) + (j - i - 1)
      invariant g.data == old(g.data) && g.xs == old(g.xs) && g.ys == old(g.ys) && g.color == old(g.color)
    {
      calls := DrawPair(g, rand, n, i, j, calls);
    }
    RowExit(rand, n, i);
  }

  /**
   * One pair (i, j) of the edge loop: one random call; on an even result the
   * crossing test runs and, finding no crossing, the edge is added.
   */
  method DrawPair(g: Graph, rand: nat -> nat, n: nat, i: nat, j: nat, calls0: nat) returns (calls: nat)
    requires g.Valid() && i < j < n && g.neighbors == Drawn(rand, n, i, j) && calls0 == PairIndex(n, i, j)
    requires forall v :: 0 <= v < n ==> g.xs[v] == 0 && g.ys[v] == 0
    modifies g
    ensures g.Valid() && g.neighbors == Drawn(rand, n, i, j + 1) && calls == calls0 + 1
    ensures g.data == old(g.data) && g.xs == old(g.xs) && g.ys == old(g.ys) && g.color == old(g.color)
  {
    ghost var before := g.neighbors;
    var coin := rand(calls0);
    calls := calls0 + 1;
    if coin % 2 == 0 {
      var doesIntersect := CrossesExisting(g, i, j);
      NoCrossingAtOnePoint(g.neighbors, g.xs, g.ys, i, j);
      if !doesIntersect {
        g.AddEdge(i, j);
      }
    } else {
      assert before[i] + [] == before[i] && before[j] + [] == before[j];
    }
    RowStep(rand, n, i, j, before, g.neighbors);
  }

  /**
   * Colouring a generated graph from any start vertex gives no two adjacent
   * dequeued vertices the same colour of 0..3: every vertex starts without a
   * colour, the start is set to 0 first, and adjacency is symmetric.
   */
  lemma GeneratedColoringIsProper(rand: nat -> nat, n: nat, start: nat, order: seq<nat>)
    requires start < n
    requires |order| > 0 && order[0] == start && Distinct(order) && InRange(Generated(rand, n), order)
    ensures var adj := Generated(rand, n);
      WellFormed(adj) && ProperOn(adj, Replay(adj, seq(n, _ => UNSET)[start := 0], order), order)
  {
    var adj := Generated(rand, n);
    var col := seq(n, _ => UNSET)[start := 0];
    GeneratedIsSimple(rand, n);
    forall k | 0 < k < |order| ensures !IsColor(col[order[k]]) {
      assert order[k] != order[0];
    }
    GreedyIsProper(adj, col, order);
  }
}
