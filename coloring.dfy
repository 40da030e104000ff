/**
 * The specification of the breadth-first greedy colourer, over values.
 *
 * A graph is its adjacency: `adj[v]` is the neighbour list of vertex `v`, in
 * insertion order.  A colouring is a sequence with one integer per vertex;
 * `UNSET` stands for a colour field that was never written.
 *
 * Colouring one vertex (`Step`) gives it the least colour of 0..3 that differs
 * from its current colour and is held by none of its neighbours, and leaves it
 * alone when there is none.  `Replay` applies `Step` to the vertices in the
 * order the traversal dequeues them; the imperative colourer in module
 * GraphModel is proved to end in exactly that state.
 */
module Coloring {

  const NUM_COLORS: int := 4

  /** The value of a colour field the constructor never initialised. */
  const UNSET: int := -1

  predicate IsColor(c: int) { 0 <= c < NUM_COLORS }

  /** Every neighbour index names a vertex of the graph. */
  predicate WellFormed(adj: seq<seq<nat>>)
  {
    forall v, k :: 0 <= v < |adj| && 0 <= k < |adj[v]| ==> adj[v][k] < |adj|
  }

  /** Adjacency is symmetric: u lists v exactly when v lists u. */
  predicate Symmetric(adj: seq<seq<nat>>)
  {
    forall u, v :: 0 <= u < |adj| && 0 <= v < |adj| ==> (v in adj[u] <==> u in adj[v])
  }

  /** No element occurs twice. */
  predicate Distinct(s: seq<nat>)
  {
    forall a, b :: 0 <= a < b < |s| ==> s[a] != s[b]
  }

  /** The current colours of the vertices in a neighbour list. */
  function NeighborColors(nbrs: seq<nat>, col: seq<int>): seq<int>
    requires forall k :: 0 <= k < |nbrs| ==> nbrs[k] < |col|
  {
    seq(|nbrs|, k requires 0 <= k < |nbrs| => col[nbrs[k]])
  }

  /** Colour `c` may be given to a vertex whose colour is `cur` and whose neighbours hold `held`. */
  predicate Free(c: int, cur: int, held: seq<int>)
  {
    IsColor(c) && c != cur && c !in held
  }

  /**
   * The scan over candidate colours i, i+1, ..., 3: the first free one, or the
   * current colour when none of them is free.
   */
  function PickFrom(i: nat, cur: int, held: seq<int>): (r: int)
    requires i <= NUM_COLORS
    decreases NUM_COLORS - i
    ensures (exists c :: i <= c && Free(c, cur, held)) ==>
              i <= r && Free(r, cur, held) && forall c :: i <= c < r ==> !Free(c, cur, held)
    ensures (forall c :: i <= c ==> !Free(c, cur, held)) ==> r == cur
  {
    if i == NUM_COLORS then cur
    else if i != cur && i !in held then assert Free(i, cur, held); i
    else PickFrom(i + 1, cur, held)
  }

  /** The colour a dequeued vertex ends with: the least free colour of 0..3, or its current one. */
  function PickColor(cur: int, held: seq<int>): (r: int)
    ensures (exists c :: Free(c, cur, held)) ==>
              Free(r, cur, held) && forall c :: 0 <= c < r ==> !Free(c, cur, held)
    ensures (forall c :: !Free(c, cur, held)) ==> r == cur
  {
    PickFrom(0, cur, held)
  }

  /** Colouring vertex `v`: only `v`'s colour changes. */
  function Step(adj: seq<seq<nat>>, col: seq<int>, v: nat): seq<int>
    requires WellFormed(adj) && |col| == |adj| && v < |adj|
  {
    col[v := PickColor(col[v], NeighborColors(adj[v], col))]
  }

  /** All entries of `order` are vertices of the graph. */
  predicate InRange(adj: seq<seq<nat>>, order: seq<nat>)
  {
    forall k :: 0 <= k < |order| ==> order[k] < |adj|
  }

  /**
   * The colouring after the vertices of `order` have been dequeued and coloured,
   * one after the other, starting from `col`.  Vertices that never appear in
   * `order` keep their colour.
   */
  function Replay(adj: seq<seq<nat>>, col: seq<int>, order: seq<nat>): (r: seq<int>)
    requires WellFormed(adj) && |col| == |adj| && InRange(adj, order)
    decreases |order|
    ensures |r| == |col|
    ensures forall v :: 0 <= v < |col| && v !in order ==> r[v] == col[v]
  {
    if order == [] then col
    else Step(adj, Replay(adj, col, order[..|order| - 1]), order[|order| - 1])
  }

  /** Once a vertex has been dequeued, later steps of a duplicate-free order leave its colour alone. */
  lemma {:induction false} ReplaySettled(adj: seq<seq<nat>>, col: seq<int>, order: seq<nat>, k: nat)
    requires WellFormed(adj) && |col| == |adj| && InRange(adj, order) && Distinct(order)
    requires k < |order|
    ensures Replay(adj, col, order)[order[k]] == Replay(adj, col, order[..k + 1])[order[k]]
    decreases |order|
  {
    if k + 1 < |order| {
      var init := order[..|order| - 1];
      assert init[..k + 1] == order[..k + 1];
      assert init[k] == order[k];
      ReplaySettled(adj, col, init, k);
      assert order[|order| - 1] != order[k];
    } else {
      assert order[..k + 1] == order;
    }
  }

  /**
   * The start vertex is dequeued first, so its final colour is chosen against the
   * initial colours of its neighbours and never revisited.  With its colour forced
   * to 0 beforehand it ends with the least of 1, 2, 3 that no neighbour holds, and
   * keeps 0 only when its neighbours hold all three.
   */
  lemma StartColor(adj: seq<seq<nat>>, col: seq<int>, order: seq<nat>)
    requires WellFormed(adj) && |col| == |adj| && InRange(adj, order) && Distinct(order)
    requires |order| > 0 && col[order[0]] == 0
    ensures var s := order[0];
      var held := NeighborColors(adj[s], col);
      var r := Replay(adj, col, order)[s];
      (r == 0 <==> (1 in held && 2 in held && 3 in held))
      && (r != 0 ==> 1 <= r <= 3 && r !in held && forall c :: 1 <= c < r ==> c in held)
  {
    var s := order[0];
    ReplaySettled(adj, col, order, 0);
    assert order[..1][..0] == [];
    var held := NeighborColors(adj[s], col);
    var r := PickColor(0, held);
    assert Replay(adj, col, order)[s] == r;
    if 1 in held && 2 in held && 3 in held {
      forall c ensures !Free(c, 0, held) {
        if IsColor(c) && c != 0 { assert c == 1 || c == 2 || c == 3; }
      }
    } else {
      assert Free(1, 0, held) || Free(2, 0, held) || Free(3, 0, held);
      assert Free(r, 0, held);
      forall c | 1 <= c < r ensures c in held {
        assert !Free(c, 0, held);
      }
    }
  }

  /**
   * A vertex without a colour that is coloured by `Step` and ends with one of
   * 0..3 differs from each of its neighbours.
   */
  lemma StepAvoidsNeighbors(adj: seq<seq<nat>>, col: seq<int>, v: nat, w: nat)
    requires WellFormed(adj) && |col| == |adj| && v < |adj| && w in adj[v] && w != v
    requires !IsColor(col[v])
    ensures IsColor(Step(adj, col, v)[v]) ==> Step(adj, col, v)[v] != Step(adj, col, v)[w]
  {
    var held := NeighborColors(adj[v], col);
    var k :| 0 <= k < |adj[v]| && adj[v][k] == w;
    assert held[k] == col[w];
  }

  /** No two adjacent vertices of `vs` both hold a colour of 0..3 and hold the same one. */
  ghost predicate ProperOn(adj: seq<seq<nat>>, r: seq<int>, vs: seq<nat>)
    requires |r| == |adj|
  {
    forall a, b :: a in vs && b in vs && a != b && a < |adj| && b < |adj| && b in adj[a] && IsColor(r[a]) && IsColor(r[b])
      ==> r[a] != r[b]
  }

  /** Colouring one more uncoloured vertex `v` keeps a proper partial colouring proper. */
  lemma ProperStep(adj: seq<seq<nat>>, before: seq<int>, init: seq<nat>, v: nat)
    requires WellFormed(adj) && Symmetric(adj) && |before| == |adj| && v < |adj|
    requires v !in init && !IsColor(before[v]) && ProperOn(adj, before, init)
    ensures ProperOn(adj, Step(adj, before, v), init + [v])
  {
    var after := Step(adj, before, v);
    forall a, b | a in init + [v] && b in init + [v] && a != b && a < |adj| && b < |adj| && b in adj[a]
                  && IsColor(after[a]) && IsColor(after[b])
      ensures after[a] != after[b]
    {
      if a != v && b != v {
        assert a in init && b in init;
      } else {
        // One of the two is v, coloured last; the other was coloured before it.
        var w := if a == v then b else a;
        assert w in adj[v];
        StepAvoidsNeighbors(adj, before, v, w);
      }
    }
  }

  /**
   * The greedy colouring never gives two adjacent vertices the same colour of
   * 0..3, provided adjacency is symmetric and every vertex but the first to be
   * dequeued starts without a colour.  (A vertex whose neighbours block every
   * candidate keeps its missing colour, and so conflicts with nobody.)
   */
  lemma {:induction false} GreedyIsProper(adj: seq<seq<nat>>, col: seq<int>, order: seq<nat>)
    requires WellFormed(adj) && Symmetric(adj) && |col| == |adj| && InRange(adj, order) && Distinct(order)
    requires forall k :: 0 < k < |order| ==> !IsColor(col[order[k]])
    ensures ProperOn(adj, Replay(adj, col, order), order)
    decreases |order|
  {
    if order != [] {
      var init := order[..|order| - 1];
      var v := order[|order| - 1];
      assert order == init + [v];
      assert forall k :: 0 < k < |init| ==> init[k] == order[k];
      GreedyIsProper(adj, col, init);
      var before := Replay(adj, col, init);
      assert v !in init by {
        forall k | 0 <= k < |init| ensures init[k] != v { assert init[k] == order[k]; }
      }
      if |order| > 1 {
        assert before[v] == col[v];
        ProperStep(adj, before, init, v);
      } else {
        assert init == [];
      }
    }
  }
}
