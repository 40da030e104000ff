/**
 * The graph store and the breadth-first greedy colourer.
 *
 * The program keeps a vector of heap-allocated vertices, each with a neighbour
 * vector, coordinates and a colour field.  Here a vertex is its index in the
 * graph's vertex list, and the per-vertex fields are parallel sequences owned by
 * the `Graph` object: `neighbors[v]`, `data[v]`, `xs[v]`, `ys[v]`, `color[v]`.
 */
module GraphModel {
  import opened Coloring
  import opened Traversal

  class Graph {
    var neighbors: seq<seq<nat>>
    var data: seq<int>
    var xs: seq<int>
    var ys: seq<int>
    var color: seq<int>

    /** One entry per vertex in every field, and every neighbour is a vertex. */
    ghost predicate Valid()
      reads this
    {
      |data| == |neighbors| && |xs| == |neighbors| && |ys| == |neighbors| && |color| == |neighbors|
      && WellFormed(neighbors)
    }

    /** An empty graph. */
    constructor ()
      ensures Valid()
      ensures neighbors == [] && data == [] && xs == [] && ys == [] && color == []
    {
      neighbors, data, xs, ys, color := [], [], [], [], [];
    }

    /**
     * Creates a vertex with the given data and position and appends it to the
     * vertex list.  Its neighbour list is empty and its colour was never set.
     */
    method AddVertex(d: int, x: int, y: int)
      requires Valid()
      modifies this
      ensures Valid()
      ensures neighbors == old(neighbors) + [[]] && data == old(data) + [d]
      ensures xs == old(xs) + [x] && ys == old(ys) + [y] && color == old(color) + [UNSET]
    {
      neighbors := neighbors + [[]];
      data := data + [d];
      xs := xs + [x];
      ys := ys + [y];
      color := color + [UNSET];
    }

    /**
     * Appends `v2` to `v1`'s neighbour list and then `v1` to `v2`'s.  Nothing is
     * checked: adding the same pair twice duplicates it, and `v1 == v2` puts the
     * vertex twice in its own list.
     */
    method AddEdge(v1: nat, v2: nat)
      requires Valid() && v1 < |neighbors| && v2 < |neighbors|
      modifies this
      ensures Valid() && |neighbors| == old(|neighbors|)
      ensures v1 != v2 ==> neighbors[v1] == old(neighbors[v1]) + [v2] && neighbors[v2] == old(neighbors[v2]) + [v1]
      ensures v1 == v2 ==> neighbors[v1] == old(neighbors[v1]) + [v1, v1]
      ensures forall v :: 0 <= v < |neighbors| && v != v1 && v != v2 ==> neighbors[v] == old(neighbors[v])
      ensures data == old(data) && xs == old(xs) && ys == old(ys) && color == old(color)
    {
      neighbors := neighbors[v1 := neighbors[v1] + [v2]];
      neighbors := neighbors[v2 := neighbors[v2] + [v1]];
    }

    /**
     * The colour a dequeued vertex `v` receives: candidates 0..3 in turn, skipping
     * `v`'s current colour and any colour some neighbour currently holds; the
     * first survivor wins, and with none `v` keeps its colour.
     */
    method ChooseColor(v: nat) returns (c: int)
      requires Valid() && v < |neighbors|
      ensures c == PickColor(color[v], NeighborColors(neighbors[v], color))
    {
      var nbrs := neighbors[v];
      ghost var held := NeighborColors(nbrs, color);
      c := color[v];
      var i := 0;
      while i < NUM_COLORS
        invariant 0 <= i <= NUM_COLORS
        invariant c == color[v]
        invariant PickFrom(i, color[v], held) == PickFrom(0, color[v], held)
      {
        if i != color[v] {
          var valid := true;
          var k := 0;
          while k < |nbrs|
            invariant 0 <= k <= |nbrs|
            invariant valid <==> forall m :: 0 <= m < k ==> color[nbrs[m]] != i
          {
            if color[nbrs[k]] == i {
              valid := false;
              break;
            }
            k := k + 1;
          }
          assert valid <==> i !in held by {
            if !valid {
              var m :| 0 <= m < |nbrs| && color[nbrs[m]] == i;
              assert held[m] == i;
            }
          }
          if valid {
            c := i;
            break;
          }
        }
        i := i + 1;
      }
    }

    /**
     * One iteration of the traversal loop: dequeue the front vertex, recolour it
     * by ChooseColor, and enqueue its unvisited neighbours.  The loop state stays
     * a prefix of the breadth-first order with the colours it implies, and the
     * traversal measure goes down.
     */
    method Visit(ghost adj: seq<seq<nat>>, ghost start: nat, ghost c0: seq<int>,
                 q: seq<nat>, visited: set<nat>, ghost order: seq<nat>)
        returns (q': seq<nat>, visited': set<nat>, ghost order': seq<nat>)
      requires Valid() && neighbors == adj && q != []
      requires Colouring(adj, start, c0, order, q, visited, color)
      modifies this
      ensures Valid() && neighbors == adj && data == old(data) && xs == old(xs) && ys == old(ys)
      ensures Colouring(adj, start, c0, order', q', visited', color)
      ensures 0 <= |adj| - |visited'| < |adj| - |visited| || (|visited'| == |visited| && |q'| < |q|)
    {
      var v := q[0];
      var c := ChooseColor(v);
      color := color[v := c];
      assert (order + [v])[..|order|] == order;
      order' := order + [v];
      q', visited' := EnqueueUnvisited(neighbors[v], q[1..], visited);
      VisitStep(adj, start, order, q, visited, q', visited');
    }

    /**
     * Breadth-first greedy colouring from `start`.  The start vertex is first
     * given colour 0 and enqueued; each dequeued vertex is recoloured by
     * ChooseColor and its not yet visited neighbours are enqueued (and marked
     * visited at that moment).  `order` is the sequence of dequeued vertices.
     */
    method GetColors(start: nat) returns (ghost order: seq<nat>)
      requires Valid() && start < |neighbors|
      modifies this
      ensures Valid()
      ensures neighbors == old(neighbors) && data == old(data) && xs == old(xs) && ys == old(ys)
      ensures order == Bfs(neighbors, [start], {start})
      ensures |order| > 0 && order[0] == start && Distinct(order) && InRange(neighbors, order)
      ensures forall v: nat :: v in order <==> Reachable(neighbors, start, v)
      ensures color == Replay(neighbors, old(color)[start := 0], order)
      ensures forall v :: 0 <= v < |color| && v !in order ==> color[v] == old(color)[v]
    {
      ghost var adj := neighbors;
      var q: seq<nat> := [start];
      var visited: set<nat> := {start};
      color := color[start := 0];
      ghost var c0 := color;
      order := [];
      assert order + Bfs(adj, q, visited) == Bfs(adj, [start], {start});
      while q != []
        invariant Valid() && neighbors == adj
        invariant data == old(data) && xs == old(xs) && ys == old(ys)
        invariant c0 == old(color)[start := 0]
        invariant Colouring(adj, start, c0, order, q, visited, color)
        decreases |adj| - |visited|, |q|
      {
        q, visited, order := Visit(adj, start, c0, q, visited, order);
      }
      ColouringDone(adj, start, c0, order, visited, color);
    }
  }

  /**
   * The state of the colouring loop: the dequeued vertices `order` followed by
   * the breadth-first order from the current queue make up the breadth-first
   * order from `start`, and the colours are `Replay` of `order`.
   */
  ghost predicate Colouring(adj: seq<seq<nat>>, start: nat, c0: seq<int>, order: seq<nat>, q: seq<nat>,
                            visited: set<nat>, color: seq<int>)
  {
    WellFormed(adj) && start < |adj| && |c0| == |adj|
    && InRange(adj, order) && InRange(adj, q) && (forall x :: x in visited ==> x < |adj|)
    && order + Bfs(adj, q, visited) == Bfs(adj, [start], {start})
    && color == Replay(adj, c0, order)
  }

  /**
   * With the queue empty the dequeued vertices are the whole breadth-first order
   * from `start`: they begin at `start`, have no duplicates, are exactly the
   * reachable vertices, and every other vertex keeps its colour.
   */
  lemma ColouringDone(adj: seq<seq<nat>>, start: nat, c0: seq<int>, order: seq<nat>, visited: set<nat>, color: seq<int>)
    requires Colouring(adj, start, c0, order, [], visited, color)
    ensures order == Bfs(adj, [start], {start})
    ensures |order| > 0 && order[0] == start && Distinct(order) && InRange(adj, order)
    ensures forall v: nat :: v in order <==> Reachable(adj, start, v)
    ensures |color| == |c0| && forall v :: 0 <= v < |color| && v !in order ==> color[v] == c0[v]
  {
    assert order + Bfs(adj, [], visited) == order;
    BfsVisitsReachable(adj, start);
  }

  /**
   * One iteration of the traversal on values: dequeuing `q0[0]` and enqueuing
   * its unvisited neighbours keeps the dequeued vertices a prefix of the
   * breadth-first order, and the traversal measure goes down.
   */
  lemma VisitStep(adj: seq<seq<nat>>, start: nat, order0: seq<nat>, q0: seq<nat>, visited0: set<nat>,
                  q: seq<nat>, visited: set<nat>)
    requires WellFormed(adj) && start < |adj| && InRange(adj, order0) && InRange(adj, q0) && q0 != []
    requires forall x :: x in visited0 ==> x < |adj|
    requires order0 + Bfs(adj, q0, visited0) == Bfs(adj, [start], {start})
    requires q == q0[1..] + Unvisited(adj[q0[0]], visited0)
    requires forall x :: x in visited <==> x in visited0 || x in adj[q0[0]]
    requires |visited| == |visited0| + |q| - |q0[1..]|
    ensures InRange(adj, order0 + [q0[0]]) && InRange(adj, q) && forall x :: x in visited ==> x < |adj|
    ensures (order0 + [q0[0]]) + Bfs(adj, q, visited) == Bfs(adj, [start], {start})
    ensures 0 <= |adj| - |visited| < |adj| - |visited0| || (|visited| == |visited0| && |q| < |q0|)
  {
    var v := q0[0];
    assert InRange(adj, order0 + [v]) by {
      forall k | 0 <= k < |order0 + [v]| ensures (order0 + [v])[k] < |adj| {
        if k < |order0| { assert (order0 + [v])[k] == order0[k]; }
      }
    }
    BfsStep(adj, q0, visited0, q, visited);
    BoundedSetSize(visited, |adj|);
    Reassociate(order0, v, Bfs(adj, q, visited));
  }

  /**
   * The enqueue step of the traversal: scans `nbrs` in order and pushes each
   * vertex not yet visited onto the queue, marking it visited at once (so a
   * vertex listed twice is pushed once).
   */
  method EnqueueUnvisited(nbrs: seq<nat>, q: seq<nat>, visited: set<nat>)
    returns (q': seq<nat>, visited': set<nat>)
    ensures q' == q + Unvisited(nbrs, visited)
    ensures forall x :: x in visited' <==> x in visited || x in nbrs
    ensures |visited'| == |visited| + |q'| - |q|
  {
    q', visited' := q, visited;
    var k := 0;
    while k < |nbrs|
      invariant 0 <= k <= |nbrs|
      invariant q' == q + Unvisited(nbrs[..k], visited)
      invariant forall x :: x in visited' <==> x in visited || x in nbrs[..k]
      invariant |visited'| == |visited| + |q'| - |q|
    {
      var w := nbrs[k];
      assert nbrs[..k + 1][..k] == nbrs[..k];
      if w !in visited' {
        q' := q' + [w];
        visited' := visited' + {w};
      }
      k := k + 1;
    }
    assert nbrs[..k] == nbrs;
  }
}
